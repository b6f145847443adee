# Rayleigh damping coefficients

A Dafny model of the calculator's core. The calculator takes two natural
periods T1, T2 and a damping ratio zeta and returns the two coefficients of
the Rayleigh damping model C = alpha·M + beta·K. alpha is the
mass-proportional coefficient and beta the stiffness-proportional one.
They are chosen so that both modes get the damping ratio zeta:

    alpha + beta·w^2 == 2·zeta·w,   w = 2·pi/T, for T = T1 and T = T2.

The model has two modules:

- `Linear2` (linear2.dfy) is the 2x2 linear solve the program delegates to
  the numerical library. It is written as Cramer's rule over exact reals.
  `Solve` returns a vector exactly when the determinant is non-zero. That
  vector satisfies the system and is its only solution. A singular matrix
  yields `None`, which stands for the library's exception. For that case
  the module also proves that the matrix has a non-zero kernel vector, so no
  solution could be unique.
- `Rayleigh` (rayleigh.dfy) holds the solver and the input gate.
  - The solver (`RayleighCoefficients`) converts the periods to angular
    frequencies, builds the system with rows [1, w1^2] and [1, w2^2] and
    right-hand side [2·zeta·w1, 2·zeta·w2], and solves it.
  - The gate (`Calculate`) takes the three already-parsed fields, with
    `None` for an empty one. It returns `Err(EmptyField)`,
    `Err(ZeroPeriod)` or the solver's result, and a singular system gives
    `Err(Singular)`. All three failures reach the program's single error
    handler.

pi is the abstract constant `Rayleigh.Pi`, of which only its positivity is
known. Exact reals stand in for double-precision floats.

Points about the program's behaviour:

- Negative periods are not refused. Only a period exactly equal to 0 is
  refused (`NegativePeriodAccepted`).
- The system is singular for equal periods and also for opposite ones,
  T1 == -T2, since both give w1^2 == w2^2 (`RayleighSingularIff`,
  `OppositePeriodsSingular`).
- The empty-field check lives in front of the solver, in the same handler
  as the other checks, so the model includes it.
- For T1 = 0.75 s, T2 = 0.54 s and zeta = 0.05, the closed form gives
  alpha = 0.2·pi/1.29 ≈ 0.4871 and beta = 0.02025/(1.29·pi) ≈ 0.004997
  (`ScenarioTypical`).

## Model

| member | source | states |
|---|---|---|
| Linear2.Solve | main.py:35 | a solution is returned exactly when the determinant is non-zero, and it satisfies both equations |
| Linear2.CramerSatisfies | main.py:35 | Cramer's vector satisfies the system whenever the determinant is non-zero |
| Linear2.SolveUnique | main.py:35 | for a non-singular matrix, every vector satisfying the system is the one returned |
| Linear2.SingularHasKernel | main.py:35 | a singular matrix has a non-zero kernel vector, so solutions are never unique there |
| Linear2.KernelShiftSatisfies | main.py:35 | a solution plus a kernel vector is a second, different solution |
| Rayleigh.AngularFrequency | main.py:27-28 | w·T == 2·pi, w is never zero, and w > 0 exactly when T > 0 |
| Rayleigh.RayleighSystem | main.py:31-32 | the system with rows [1, w1^2], [1, w2^2] and right-hand side [2·zeta·w1, 2·zeta·w2]; its determinant is w2^2 - w1^2, and RayleighSystemSatisfied characterises its solutions |
| Rayleigh.RayleighSystemSatisfied | main.py:31-32 | a pair solves the system built from [1, w^2] rows and [2·zeta·w] entries exactly when it meets the damping target at both frequencies |
| Rayleigh.RayleighCoefficients | main.py:25-36 | succeeds exactly when w1^2 != w2^2, otherwise fails with Singular; on success (alpha, beta) satisfies alpha + beta·w^2 == 2·zeta·w at both frequencies |
| Rayleigh.DampingRatioAt | main.py:31-32 | at a non-zero frequency the target equation is equivalent to the modal damping ratio alpha/(2w) + beta·w/2 being zeta |
| Rayleigh.SquaresEqualIff | main.py:27-31 | the squared frequencies coincide exactly when T1 == T2 or T1 == -T2 |
| Rayleigh.RayleighSingularIff | main.py:31-35 | the solver fails with Singular exactly when T1 == T2 or T1 == -T2 |
| Rayleigh.RayleighUnique | main.py:31-35 | when w1^2 != w2^2, any pair meeting both targets is the one the solver returns |
| Rayleigh.RayleighSymmetric | main.py:31-32 | swapping T1 and T2 gives the same result, success and failure alike |
| Rayleigh.RayleighLinearInDamping | main.py:32 | scaling zeta by k keeps success or failure and scales both coefficients by k |
| Rayleigh.MeetsTargetScaled | main.py:32 | scaling zeta and both coefficients by the same factor keeps the target met |
| Rayleigh.RayleighZeroDamping | main.py:32 | with zeta = 0 and a non-singular system both coefficients are 0 |
| Rayleigh.ClosedFormMeetsTarget | main.py:31-32 | with w1 + w2 != 0, alpha = 2·zeta·w1·w2/(w1+w2) and beta = 2·zeta/(w1+w2) meet both targets |
| Rayleigh.RayleighClosedForm | main.py:31-36 | on success w1 + w2 != 0 and the result equals that closed form |
| Rayleigh.ClosedFormBetaInPeriods | main.py:27-32 | the closed-form beta equals zeta·T1·T2/(pi·(T1+T2)) |
| Rayleigh.ClosedFormAlphaInPeriods | main.py:27-32 | the closed-form alpha equals 4·pi·zeta/(T1+T2) |
| Rayleigh.RayleighClosedFormInPeriods | main.py:25-36 | on success T1 + T2 != 0, alpha == 4·pi·zeta/(T1+T2) and beta == zeta·T1·T2/(pi·(T1+T2)) |
| Rayleigh.Calculate | main.py:42-53 | EmptyField exactly when a field is empty; ZeroPeriod exactly when all are filled and a period is 0; Singular exactly when the periods are non-zero and equal or opposite; on success both periods are non-zero and both targets are met |
| Rayleigh.NegativePeriodAccepted | main.py:50-53 | a negative period is not refused: with a non-zero other period of different magnitude, the gate returns coefficients |
| Rayleigh.OppositePeriodsSingular | main.py:50-53 | periods T and -T pass the gate and the result is Singular |
| Rayleigh.CalculateClosedForm | main.py:42-53 | for filled-in, non-zero periods that are neither equal nor opposite the gate returns the closed-form pair in terms of the periods |
| Rayleigh.ScenarioTypical | main.py:42-53 | T1 = 0.75, T2 = 0.54, zeta = 0.05 gives alpha = 0.2·pi/1.29 and beta = 0.02025/(1.29·pi) |
| Rayleigh.ScenarioErrors | main.py:42-53 | equal periods 0.5 and 0.5 give Singular, a zero period gives ZeroPeriod, an empty field gives EmptyField |

## Left out

- The user interface: window setup, text fields, button, result cards,
  colours, the error snackbar and the page updates (main.py:13-22, 56-68,
  73-137). These are presentation only.
- Parsing the fields with `float(...)` (main.py:45-47). The model takes
  parsed reals, and `None` stands for an empty field. Text that is not
  empty but is not a number also makes the program fail in the same
  handler; the model does not represent such text.
- Formatting the results in scientific notation (main.py:56-57).
- Floating-point behaviour: rounding, NaN and infinities, and the
  library's LU-based solve. Only an exactly zero determinant counts as
  singular. A nearly singular system, which the program would solve into
  huge values, is not modelled.
- Overflow of the squared frequency: `w1**2` (main.py:31) is a float power
  and raises an overflow error once |w| exceeds about 1.3e154, that is for
  |T| between about 3.5e-308 and 4.7e-154. The handler at main.py:63-66
  catches it, so the program shows an error where the model, over unbounded
  reals, returns coefficients. Smaller periods make w itself infinite,
  because float division does not raise on overflow; the solve then yields
  NaN without raising, which falls under the floating-point line above.
- The numeric value of pi. It is a library constant, and the model knows
  only that it is positive.
- Rayleigh.RayleighCoefficients: requires both periods to be non-zero. The
  program's solver would divide by zero and raise for a zero period, but
  its only caller refuses zero periods first (`Calculate`), and the model
  proves that the gate meets this precondition.
