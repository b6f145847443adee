/** Two-point Rayleigh damping: given two natural periods T1, T2 and a
    damping ratio zeta, find the mass-proportional coefficient alpha and the
    stiffness-proportional coefficient beta of C = alpha·M + beta·K such that
    both modes get the damping ratio zeta, that is
      alpha + beta·w^2 == 2·zeta·w   for w = 2·pi/T1 and w = 2·pi/T2.
    Exact reals stand in for floating point; pi is an abstract positive
    constant. */
module Rayleigh {
  import opened Linear2

  type Positive = r: real | 0.0 < r witness 1.0

  /** The circle constant; only its positivity is used. */
  const Pi: Positive

  /** The two Rayleigh coefficients. */
  datatype Coefficients = Coefficients(alpha: real, beta: real)

  /** Why a calculation produced no coefficients. */
  datatype Error =
    | EmptyField   // one of the three input fields was left empty
    | ZeroPeriod   // a period is exactly zero
    | Singular     // the 2x2 system is singular: w1^2 == w2^2

  datatype Result<T> = Ok(value: T) | Err(error: Error)

  function Square(x: real): real { x * x }

  /** Angular frequency of a period: w = 2·pi/T. */
  function AngularFrequency(t: real): (w: real)
    requires t != 0.0
    ensures w * t == 2.0 * Pi
    ensures w != 0.0
    ensures 0.0 < w <==> 0.0 < t
  {
    2.0 * Pi / t
  }

  /** The coefficients give damping ratio zeta at angular frequency w,
      in the form alpha + beta·w^2 == 2·zeta·w. */
  predicate MeetsTarget(w: real, zeta: real, c: Coefficients) {
    c.alpha + c.beta * Square(w) == 2.0 * zeta * w
  }

  /** The linear system with rows [1, w1^2], [1, w2^2] and right-hand side
      [2·zeta·w1, 2·zeta·w2]; its determinant is w2^2 - w1^2. */
  function RayleighSystem(w1: real, w2: real, zeta: real): (s: System)
    ensures Det(s) == Square(w2) - Square(w1)
  {
    System(1.0, Square(w1), 1.0, Square(w2), 2.0 * zeta * w1, 2.0 * zeta * w2)
  }

  /** Solving the system is meeting the target at both frequencies. */
  lemma RayleighSystemSatisfied(w1: real, w2: real, zeta: real, c: Coefficients)
    ensures Satisfies(RayleighSystem(w1, w2, zeta), Vec2(c.alpha, c.beta))
        <==> MeetsTarget(w1, zeta, c) && MeetsTarget(w2, zeta, c)
  {
  }

  /** The solver: periods to frequencies, then the 2x2 solve. It is only
      called with non-zero periods; a zero period would divide by zero. */
  function RayleighCoefficients(t1: real, t2: real, zeta: real): (r: Result<Coefficients>)
    requires t1 != 0.0 && t2 != 0.0
    ensures r.Ok? <==> Square(AngularFrequency(t1)) != Square(AngularFrequency(t2))
    ensures r.Err? ==> r.error == Singular
    ensures r.Ok? ==>
      && MeetsTarget(AngularFrequency(t1), zeta, r.value)
      && MeetsTarget(AngularFrequency(t2), zeta, r.value)
  {
    var w1 := AngularFrequency(t1);
    var w2 := AngularFrequency(t2);
    match Solve(RayleighSystem(w1, w2, zeta))
    case None => Err(Singular)
    case Some(x) =>
      RayleighSystemSatisfied(w1, w2, zeta, Coefficients(x.x1, x.x2));
      Ok(Coefficients(x.x1, x.x2))
  }

  /** Meeting the target at a non-zero frequency is the same as the modal
      damping ratio alpha/(2w) + beta·w/2 being zeta. */
  lemma DampingRatioAt(w: real, zeta: real, c: Coefficients)
    requires w != 0.0
    ensures MeetsTarget(w, zeta, c) <==> c.alpha / (2.0 * w) + c.beta * w / 2.0 == zeta
  {
    var lhs := c.alpha / (2.0 * w) + c.beta * w / 2.0;
    assert lhs * (2.0 * w) == c.alpha + c.beta * Square(w);
  }

  /** Two frequencies have equal squares exactly when the periods are equal
      or opposite. */
  lemma SquaresEqualIff(t1: real, t2: real)
    requires t1 != 0.0 && t2 != 0.0
    ensures Square(AngularFrequency(t1)) == Square(AngularFrequency(t2)) <==> (t1 == t2 || t1 == -t2)
  {
    var w1, w2 := AngularFrequency(t1), AngularFrequency(t2);
    assert Square(w1) - Square(w2) == (w1 - w2) * (w1 + w2);
    // w·t == 2·pi makes w determine t and -w determine -t.
    if w1 == w2 {
      assert w1 * (t1 - t2) == 0.0;
    }
    if w1 == -w2 {
      assert w1 * (t1 + t2) == 0.0;
    }
    if t1 == -t2 {
      assert (w1 + w2) * t1 == 0.0;
    }
  }

  /** The solve fails exactly for equal or opposite periods. */
  lemma RayleighSingularIff(t1: real, t2: real, zeta: real)
    requires t1 != 0.0 && t2 != 0.0
    ensures RayleighCoefficients(t1, t2, zeta) == Err(Singular) <==> (t1 == t2 || t1 == -t2)
  {
    SquaresEqualIff(t1, t2);
  }

  /** The returned pair is the only one meeting both targets. */
  lemma RayleighUnique(t1: real, t2: real, zeta: real, c: Coefficients)
    requires t1 != 0.0 && t2 != 0.0
    requires Square(AngularFrequency(t1)) != Square(AngularFrequency(t2))
    requires MeetsTarget(AngularFrequency(t1), zeta, c) && MeetsTarget(AngularFrequency(t2), zeta, c)
    ensures RayleighCoefficients(t1, t2, zeta) == Ok(c)
  {
    var s := RayleighSystem(AngularFrequency(t1), AngularFrequency(t2), zeta);
    RayleighSystemSatisfied(AngularFrequency(t1), AngularFrequency(t2), zeta, c);
    SolveUnique(s, Vec2(c.alpha, c.beta));
  }

  /** Swapping the periods only reorders the equations. */
  lemma RayleighSymmetric(t1: real, t2: real, zeta: real)
    requires t1 != 0.0 && t2 != 0.0
    ensures RayleighCoefficients(t1, t2, zeta) == RayleighCoefficients(t2, t1, zeta)
  {
    var r := RayleighCoefficients(t1, t2, zeta);
    if r.Ok? {
      RayleighUnique(t2, t1, zeta, r.value);
    }
  }

  /** Scaling zeta by k scales both coefficients by k. */
  lemma RayleighLinearInDamping(t1: real, t2: real, zeta: real, k: real)
    requires t1 != 0.0 && t2 != 0.0
    ensures RayleighCoefficients(t1, t2, k * zeta).Ok? == RayleighCoefficients(t1, t2, zeta).Ok?
    ensures RayleighCoefficients(t1, t2, zeta).Ok? ==>
      RayleighCoefficients(t1, t2, k * zeta) == Ok(Scaled(k, RayleighCoefficients(t1, t2, zeta).value))
  {
    var r := RayleighCoefficients(t1, t2, zeta);
    if r.Ok? {
      var c := r.value;
      var kc := Scaled(k, c);
      MeetsTargetScaled(AngularFrequency(t1), zeta, c, k);
      MeetsTargetScaled(AngularFrequency(t2), zeta, c, k);
      RayleighUnique(t1, t2, k * zeta, kc);
    }
  }

  /** Both coefficients multiplied by k. */
  function Scaled(k: real, c: Coefficients): Coefficients {
    Coefficients(k * c.alpha, k * c.beta)
  }

  /** Scaling zeta and both coefficients by k keeps the target met. */
  lemma MeetsTargetScaled(w: real, zeta: real, c: Coefficients, k: real)
    requires MeetsTarget(w, zeta, c)
    ensures MeetsTarget(w, k * zeta, Scaled(k, c))
  {
    calc {
      k * c.alpha + k * c.beta * Square(w);
      k * (c.alpha + c.beta * Square(w));
      k * (2.0 * zeta * w);
      2.0 * (k * zeta) * w;
    }
  }

  /** Without damping both coefficients are zero. */
  lemma RayleighZeroDamping(t1: real, t2: real)
    requires t1 != 0.0 && t2 != 0.0
    requires Square(AngularFrequency(t1)) != Square(AngularFrequency(t2))
    ensures RayleighCoefficients(t1, t2, 0.0) == Ok(Coefficients(0.0, 0.0))
  {
    RayleighUnique(t1, t2, 0.0, Coefficients(0.0, 0.0));
  }

  /** The closed-form pair for frequencies w1, w2 with w1 + w2 != 0. */
  function ClosedForm(w1: real, w2: real, zeta: real): Coefficients
    requires w1 + w2 != 0.0
  {
    Coefficients(2.0 * zeta * w1 * w2 / (w1 + w2), 2.0 * zeta / (w1 + w2))
  }

  /** The closed-form pair meets the target at both frequencies. */
  lemma ClosedFormMeetsTarget(w1: real, w2: real, zeta: real)
    requires w1 + w2 != 0.0
    ensures MeetsTarget(w1, zeta, ClosedForm(w1, w2, zeta))
    ensures MeetsTarget(w2, zeta, ClosedForm(w1, w2, zeta))
  {
    var s := w1 + w2;
    var c := ClosedForm(w1, w2, zeta);
    assert c.alpha * s == 2.0 * zeta * w1 * w2;
    assert c.beta * s == 2.0 * zeta;
    assert (c.alpha + c.beta * Square(w1)) * s == (2.0 * zeta * w1) * s by {
      calc {
        (c.alpha + c.beta * Square(w1)) * s;
        c.alpha * s + (c.beta * s) * Square(w1);
        2.0 * zeta * w1 * w2 + 2.0 * zeta * (w1 * w1);
        (2.0 * zeta * w1) * s;
      }
    }
    assert (c.alpha + c.beta * Square(w2)) * s == (2.0 * zeta * w2) * s by {
      calc {
        (c.alpha + c.beta * Square(w2)) * s;
        c.alpha * s + (c.beta * s) * Square(w2);
        2.0 * zeta * w1 * w2 + 2.0 * zeta * (w2 * w2);
        (2.0 * zeta * w2) * s;
      }
    }
  }

  /** Closed form in the frequencies: beta == 2·zeta/(w1 + w2) and
      alpha == 2·zeta·w1·w2/(w1 + w2). */
  lemma RayleighClosedForm(t1: real, t2: real, zeta: real)
    requires t1 != 0.0 && t2 != 0.0
    requires RayleighCoefficients(t1, t2, zeta).Ok?
    ensures var w1, w2 := AngularFrequency(t1), AngularFrequency(t2);
      && w1 + w2 != 0.0
      && RayleighCoefficients(t1, t2, zeta).value == ClosedForm(w1, w2, zeta)
  {
    var w1, w2 := AngularFrequency(t1), AngularFrequency(t2);
    assert Square(w1) - Square(w2) == (w1 - w2) * (w1 + w2);
    ClosedFormMeetsTarget(w1, w2, zeta);
    RayleighUnique(t1, t2, zeta, ClosedForm(w1, w2, zeta));
  }

  /** A non-zero factor cancels from both sides of an equation. */
  lemma Cancel(x: real, y: real, f: real)
    requires f != 0.0 && x * f == y * f
    ensures x == y
  {
    assert (x - y) * f == 0.0;
  }

  /** beta of the closed form, rewritten in the periods. */
  lemma ClosedFormBetaInPeriods(t1: real, t2: real, w1: real, w2: real, zeta: real)
    requires w1 * t1 == 2.0 * Pi && w2 * t2 == 2.0 * Pi
    requires w1 + w2 != 0.0 && t1 + t2 != 0.0
    ensures ClosedForm(w1, w2, zeta).beta == zeta * t1 * t2 / (Pi * (t1 + t2))
  {
    var p, s := t1 + t2, w1 + w2;
    var beta := ClosedForm(w1, w2, zeta).beta;
    // (w1 + w2)·T1·T2 == 2·pi·(T1 + T2).
    assert s * (t1 * t2) == 2.0 * Pi * p by {
      assert w1 * t1 * t2 == 2.0 * Pi * t2;
      assert w2 * t1 * t2 == 2.0 * Pi * t1;
    }
    assert beta * s == 2.0 * zeta;
    calc {
      beta * (2.0 * Pi * p);
      (beta * s) * (t1 * t2);
      (zeta * t1 * t2 / (Pi * p)) * (2.0 * Pi * p);
    }
    Cancel(beta, zeta * t1 * t2 / (Pi * p), 2.0 * Pi * p);
  }

  /** alpha of the closed form, rewritten in the periods. */
  lemma ClosedFormAlphaInPeriods(t1: real, t2: real, w1: real, w2: real, zeta: real)
    requires w1 * t1 == 2.0 * Pi && w2 * t2 == 2.0 * Pi
    requires w1 + w2 != 0.0 && t1 + t2 != 0.0
    ensures ClosedForm(w1, w2, zeta).alpha == 4.0 * Pi * zeta / (t1 + t2)
  {
    var p, s := t1 + t2, w1 + w2;
    var alpha := ClosedForm(w1, w2, zeta).alpha;
    assert s * (t1 * t2) == 2.0 * Pi * p by {
      assert w1 * t1 * t2 == 2.0 * Pi * t2;
      assert w2 * t1 * t2 == 2.0 * Pi * t1;
    }
    assert alpha * s == 2.0 * zeta * w1 * w2;
    assert w1 * w2 * (t1 * t2) == 4.0 * Pi * Pi by {
      assert w1 * w2 * (t1 * t2) == (w1 * t1) * (w2 * t2);
    }
    calc {
      alpha * (2.0 * Pi * p);
      (alpha * s) * (t1 * t2);
      2.0 * zeta * (w1 * w2 * (t1 * t2));
      (4.0 * Pi * zeta / p) * (2.0 * Pi * p);
    }
    Cancel(alpha, 4.0 * Pi * zeta / p, 2.0 * Pi * p);
  }

  /** Closed form in the periods: alpha == 4·pi·zeta/(T1 + T2) and
      beta == zeta·T1·T2/(pi·(T1 + T2)). */
  lemma RayleighClosedFormInPeriods(t1: real, t2: real, zeta: real)
    requires t1 != 0.0 && t2 != 0.0
    requires RayleighCoefficients(t1, t2, zeta).Ok?
    ensures t1 + t2 != 0.0
    ensures RayleighCoefficients(t1, t2, zeta).value
         == Coefficients(4.0 * Pi * zeta / (t1 + t2), zeta * t1 * t2 / (Pi * (t1 + t2)))
  {
    RayleighSingularIff(t1, t2, zeta);
    RayleighClosedForm(t1, t2, zeta);
    var w1, w2 := AngularFrequency(t1), AngularFrequency(t2);
    ClosedFormAlphaInPeriods(t1, t2, w1, w2, zeta);
    ClosedFormBetaInPeriods(t1, t2, w1, w2, zeta);
  }

  /** The input gate in front of the solver: every field must be filled in,
      and neither period may be exactly zero. The three values are the
      already parsed fields, None standing for an empty one. Negative
      periods are let through. */
  function Calculate(t1: Option<real>, t2: Option<real>, zeta: Option<real>): (r: Result<Coefficients>)
    ensures r == Err(EmptyField) <==> (t1.None? || t2.None? || zeta.None?)
    ensures r == Err(ZeroPeriod)
        <==> (t1.Some? && t2.Some? && zeta.Some? && (t1.value == 0.0 || t2.value == 0.0))
    ensures r == Err(Singular)
        <==> (&& t1.Some? && t2.Some? && zeta.Some? && t1.value != 0.0 && t2.value != 0.0
              && (t1.value == t2.value || t1.value == -t2.value))
    ensures r.Ok? ==>
      && t1.Some? && t2.Some? && zeta.Some? && t1.value != 0.0 && t2.value != 0.0
      && MeetsTarget(AngularFrequency(t1.value), zeta.value, r.value)
      && MeetsTarget(AngularFrequency(t2.value), zeta.value, r.value)
  {
    if t1.None? || t2.None? || zeta.None? then
      Err(EmptyField)
    else if t1.value == 0.0 || t2.value == 0.0 then
      Err(ZeroPeriod)
    else
      RayleighSingularIff(t1.value, t2.value, zeta.value);
      RayleighCoefficients(t1.value, t2.value, zeta.value)
  }

  /** Only a zero period is refused: a negative period whose magnitude
      differs from the other's yields coefficients. */
  lemma NegativePeriodAccepted(t1: real, t2: real, zeta: real)
    requires t1 < 0.0 && t2 != 0.0 && t2 != t1 && t2 != -t1
    ensures Calculate(Some(t1), Some(t2), Some(zeta)).Ok?
  {
  }

  /** Opposite periods pass the gate and make the system singular. */
  lemma OppositePeriodsSingular(t: real, zeta: real)
    requires t != 0.0
    ensures Calculate(Some(t), Some(-t), Some(zeta)) == Err(Singular)
  {
  }

  /** What the gate returns for filled-in periods that are non-zero and
      neither equal nor opposite, in closed form. */
  lemma CalculateClosedForm(t1: real, t2: real, zeta: real)
    requires t1 != 0.0 && t2 != 0.0 && t1 != t2 && t1 != -t2
    ensures Calculate(Some(t1), Some(t2), Some(zeta))
         == Ok(Coefficients(4.0 * Pi * zeta / (t1 + t2), zeta * t1 * t2 / (Pi * (t1 + t2))))
  {
    RayleighSingularIff(t1, t2, zeta);
    RayleighClosedFormInPeriods(t1, t2, zeta);
  }

  /** Worked example: T1 = 0.75 s, T2 = 0.54 s, zeta = 0.05 gives
      alpha == 0.2·pi/1.29 (about 0.487) and beta == 0.02025/(1.29·pi)
      (about 0.0050). */
  lemma ScenarioTypical(t1: real, t2: real, zeta: real)
    requires t1 == 0.75 && t2 == 0.54 && zeta == 0.05
    ensures Calculate(Some(t1), Some(t2), Some(zeta))
         == Ok(Coefficients(0.2 * Pi / 1.29, 0.02025 / (1.29 * Pi)))
  {
    CalculateClosedForm(t1, t2, zeta);
    ScenarioTypicalValues(t1, t2, zeta, Calculate(Some(t1), Some(t2), Some(zeta)).value);
  }

  /** The arithmetic of the worked example. */
  lemma ScenarioTypicalValues(t1: real, t2: real, zeta: real, c: Coefficients)
    requires t1 == 0.75 && t2 == 0.54 && zeta == 0.05
    requires c == Coefficients(4.0 * Pi * zeta / (t1 + t2), zeta * t1 * t2 / (Pi * (t1 + t2)))
    ensures c == Coefficients(0.2 * Pi / 1.29, 0.02025 / (1.29 * Pi))
  {
    assert 4.0 * Pi * zeta / (t1 + t2) == 0.2 * Pi / 1.29;
    assert zeta * t1 * t2 / (Pi * (t1 + t2)) == 0.02025 / (1.29 * Pi);
  }

  /** Worked examples of the error paths: equal periods are singular, a
      zero period and an empty field are refused before the solve. */
  lemma ScenarioErrors()
    ensures Calculate(Some(0.5), Some(0.5), Some(0.05)) == Err(Singular)
    ensures Calculate(Some(0.0), Some(0.5), Some(0.05)) == Err(ZeroPeriod)
    ensures Calculate(None, Some(0.5), Some(0.05)) == Err(EmptyField)
  {
  }
}
