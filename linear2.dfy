/** A 2x2 linear system A·x = b over exact reals and its solution by
    Cramer's rule. This stands in for the general solver the program calls:
    a solution is returned exactly when the coefficient matrix is
    non-singular, and the returned vector then satisfies the system and is
    the only vector that does. A singular matrix yields None, standing for
    the exception the library raises. */
module Linear2 {

  datatype Option<T> = None | Some(value: T)

  /** A column vector (x1, x2). */
  datatype Vec2 = Vec2(x1: real, x2: real)

  /** Rows [a11, a12] and [a21, a22] of A, and right-hand side [b1, b2]. */
  datatype System = System(a11: real, a12: real, a21: real, a22: real, b1: real, b2: real)

  /** Determinant of the coefficient matrix. */
  function Det(s: System): real {
    s.a11 * s.a22 - s.a12 * s.a21
  }

  /** A·x, as a vector. */
  function Apply(s: System, x: Vec2): Vec2 {
    Vec2(s.a11 * x.x1 + s.a12 * x.x2, s.a21 * x.x1 + s.a22 * x.x2)
  }

  /** x satisfies both equations of the system. */
  predicate Satisfies(s: System, x: Vec2) {
    Apply(s, x) == Vec2(s.b1, s.b2)
  }

  /** v is a non-zero vector that A sends to zero. */
  predicate InKernel(s: System, v: Vec2) {
    v != Vec2(0.0, 0.0) && Apply(s, v) == Vec2(0.0, 0.0)
  }

  /** Solves the system; None exactly when the matrix is singular. */
  function Solve(s: System): (r: Option<Vec2>)
    ensures r.Some? <==> Det(s) != 0.0
    ensures r.Some? ==> Satisfies(s, r.value)
  {
    var d := Det(s);
    if d == 0.0 then None
    else
      var x := Vec2((s.b1 * s.a22 - s.b2 * s.a12) / d, (s.a11 * s.b2 - s.a21 * s.b1) / d);
      CramerSatisfies(s, x);
      Some(x)
  }

  /** The Cramer vector satisfies the system when the determinant is non-zero. */
  lemma CramerSatisfies(s: System, x: Vec2)
    requires Det(s) != 0.0
    requires x == Vec2((s.b1 * s.a22 - s.b2 * s.a12) / Det(s), (s.a11 * s.b2 - s.a21 * s.b1) / Det(s))
    ensures Satisfies(s, x)
  {
    var d := Det(s);
    var n1, n2 := s.b1 * s.a22 - s.b2 * s.a12, s.a11 * s.b2 - s.a21 * s.b1;
    assert x.x1 * d == n1 && x.x2 * d == n2;
    calc {
      (s.a11 * x.x1 + s.a12 * x.x2) * d;
      s.a11 * (x.x1 * d) + s.a12 * (x.x2 * d);
      s.a11 * n1 + s.a12 * n2;
      s.b1 * d;
    }
    calc {
      (s.a21 * x.x1 + s.a22 * x.x2) * d;
      s.a21 * (x.x1 * d) + s.a22 * (x.x2 * d);
      s.a21 * n1 + s.a22 * n2;
      s.b2 * d;
    }
  }

  /** Any solution, when the determinant is non-zero, is the one Solve returns. */
  lemma SolveUnique(s: System, y: Vec2)
    requires Det(s) != 0.0
    requires Satisfies(s, y)
    ensures Solve(s) == Some(y)
  {
    var d := Det(s);
    var x := Solve(s).value;
    // Eliminating each unknown in turn fixes d·y1 and d·y2.
    assert y.x1 * d == s.b1 * s.a22 - s.b2 * s.a12 by {
      calc {
        y.x1 * d;
        (s.a11 * y.x1 + s.a12 * y.x2) * s.a22 - (s.a21 * y.x1 + s.a22 * y.x2) * s.a12;
        s.b1 * s.a22 - s.b2 * s.a12;
      }
    }
    assert y.x2 * d == s.a11 * s.b2 - s.a21 * s.b1 by {
      calc {
        y.x2 * d;
        s.a11 * (s.a21 * y.x1 + s.a22 * y.x2) - s.a21 * (s.a11 * y.x1 + s.a12 * y.x2);
        s.a11 * s.b2 - s.a21 * s.b1;
      }
    }
    assert x.x1 == y.x1 && x.x2 == y.x2;
  }

  /** A singular matrix has a non-zero kernel vector, so no solution of the
      system can be unique: reporting failure loses nothing. */
  lemma SingularHasKernel(s: System) returns (v: Vec2)
    requires Det(s) == 0.0
    ensures InKernel(s, v)
  {
    if s.a11 != 0.0 || s.a12 != 0.0 {
      v := Vec2(-s.a12, s.a11);
    } else if s.a21 != 0.0 || s.a22 != 0.0 {
      v := Vec2(-s.a22, s.a21);
    } else {
      v := Vec2(1.0, 0.0);
    }
  }

  /** Adding a kernel vector to a solution gives another solution. */
  lemma KernelShiftSatisfies(s: System, x: Vec2, v: Vec2)
    requires Satisfies(s, x) && InKernel(s, v)
    ensures Satisfies(s, Vec2(x.x1 + v.x1, x.x2 + v.x2))
    ensures Vec2(x.x1 + v.x1, x.x2 + v.x2) != x
  {
    assert s.a11 * (x.x1 + v.x1) + s.a12 * (x.x2 + v.x2)
        == (s.a11 * x.x1 + s.a12 * x.x2) + (s.a11 * v.x1 + s.a12 * v.x2);
    assert s.a21 * (x.x1 + v.x1) + s.a22 * (x.x2 + v.x2)
        == (s.a21 * x.x1 + s.a22 * x.x2) + (s.a21 * v.x1 + s.a22 * v.x2);
  }
}
