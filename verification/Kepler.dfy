/** Kepler's equation by fixed-point iteration (ephemeris.py, _eccentric_anomaly), in exact reals. */
module Kepler {
  import opened Basics

  /** All the iteration needs to know of the sine: bounded by 1 and never steeper than 1. */
  ghost predicate SineLike(f: real -> real)
  {
    (forall x :: AtMostOne(f, x)) && forall x, y :: NotSteeper(f, x, y)
  }

  predicate AtMostOne(f: real -> real, x: real) { Abs(f(x)) <= 1.0 }

  predicate NotSteeper(f: real -> real, x: real, y: real) { Abs(f(x) - f(y)) <= Abs(x - y) }

  const TOLERANCE := 0.000_000_000_000_1
  const MAX_STEPS := 30

  /** One step of the loop: mk + ecc * sin(e) */
  function KeplerStep(sin: real -> real, mk: real, ecc: real): real -> real
  {
    (e: real) => mk + ecc * sin(e)
  }

  // ---------------------------------------------------------------- the iteration

  function Iterate(step: real -> real, start: real, k: nat): real
  {
    if k == 0 then start else step(Iterate(step, start, k - 1))
  }

  /** How far step k moved. */
  function Change(step: real -> real, start: real, k: nat): real
    requires k > 0
  {
    Abs(Iterate(step, start, k) - Iterate(step, start, k - 1))
  }

  /** The step the loop stops after, when it has not stopped before step k. */
  function StopFrom(step: real -> real, start: real, k: nat): (n: nat)
    requires 1 <= k <= MAX_STEPS
    ensures k <= n <= MAX_STEPS
    decreases MAX_STEPS - k
  {
    if k == MAX_STEPS || Change(step, start, k) < TOLERANCE then k else StopFrom(step, start, k + 1)
  }

  /** Step n is the first that moved by less than 1e-13, or step 30. */
  ghost predicate Breaks(step: real -> real, start: real, n: nat)
  {
    && 1 <= n <= 30 && (n < 30 ==> Change(step, start, n) < 0.000_000_000_000_1)
    && forall i :: 1 <= i < n ==> Change(step, start, i) >= 0.000_000_000_000_1
  }

  lemma {:induction false} StopFromIs(step: real -> real, start: real, n: nat, k: nat)
    requires Breaks(step, start, n) && 1 <= k <= n
    ensures StopFrom(step, start, k) == n
    decreases n - k
  {
    if k < n { StopFromIs(step, start, n, k + 1); }
  }

  lemma IterateNext(step: real -> real, start: real, k: nat)
    ensures Iterate(step, start, k + 1) == step(Iterate(step, start, k))
  {
  }

  lemma KeplerStepIs(sin: real -> real, mk: real, ecc: real, e: real, s: real)
    requires s == sin(e)
    ensures KeplerStep(sin, mk, ecc)(e) == mk + ecc * s
  {
  }

  lemma StepTaken(sin: real -> real, mk: real, ecc: real, k: nat, prev: real, ek: real)
    requires prev == Iterate(KeplerStep(sin, mk, ecc), mk, k) && ek == mk + ecc * sin(prev)
    ensures ek == Iterate(KeplerStep(sin, mk, ecc), mk, k + 1)
    ensures Change(KeplerStep(sin, mk, ecc), mk, k + 1) == Abs(ek - prev)
  {
    KeplerStepIs(sin, mk, ecc, prev, sin(prev));
    IterateNext(KeplerStep(sin, mk, ecc), mk, k);
  }

  method EccentricAnomaly(sin: real -> real, mk: real, ecc: real) returns (ek: real)
    ensures var step := KeplerStep(sin, mk, ecc); ek == Iterate(step, mk, StopFrom(step, mk, 1))
    ensures var step := KeplerStep(sin, mk, ecc); exists n: nat :: Breaks(step, mk, n) && ek == Iterate(step, mk, n)
  {
    ghost var step := KeplerStep(sin, mk, ecc);
    ghost var n := 0;
    ek := mk;
    for k := 0 to MAX_STEPS
      invariant n == k && ek == Iterate(step, mk, k)
      invariant forall i :: 1 <= i <= k ==> Change(step, mk, i) >= TOLERANCE
    {
      var prev := ek;
      ek := mk + ecc * sin(ek);
      StepTaken(sin, mk, ecc, k, prev, ek);
      n := k + 1;
      if Abs(ek - prev) < TOLERANCE { break; }
    }
    StopFromIs(step, mk, n, 1);
    assert Breaks(step, mk, n);
  }

  // --------------------------------------------------------------- contractions

  ghost predicate Contraction(step: real -> real, q: real)
  {
    q >= 0.0 && forall x, y :: Closer(step, q, x, y)
  }

  predicate Closer(step: real -> real, q: real, x: real, y: real)
  {
    Abs(step(x) - step(y)) <= q * Abs(x - y)
  }

  lemma MulMono(q: real, a: real, b: real)
    requires 0.0 <= q && a <= b
    ensures q * a <= q * b
  {
    assert q * (b - a) >= 0.0;
  }

  lemma Contracts(step: real -> real, q: real, x: real, y: real, d: real)
    requires Contraction(step, q) && Abs(x - y) <= d
    ensures Abs(step(x) - step(y)) <= q * d
  {
    assert Closer(step, q, x, y);
    MulMono(q, Abs(x - y), d);
  }

  /** Step k moves by at most q to the k, when the first moves by at most q. */
  lemma {:induction false} StepBound(step: real -> real, start: real, q: real, k: nat)
    requires Contraction(step, q) && Change(step, start, 1) <= q && k > 0
    ensures Change(step, start, k) <= Power(q, k)
  {
    if k == 1 {
      assert Power(q, 1) == q * Power(q, 0) == q;
    } else {
      StepBound(step, start, q, k - 1);
      Contracts(step, q, Iterate(step, start, k - 1), Iterate(step, start, k - 2), Power(q, k - 1));
    }
  }

  lemma {:induction false} StopBy(step: real -> real, start: real, k: nat, n: nat)
    requires 1 <= k <= n <= MAX_STEPS && Change(step, start, n) < TOLERANCE
    ensures StopFrom(step, start, k) <= n
    ensures Change(step, start, StopFrom(step, start, k)) < TOLERANCE
    decreases n - k
  {
    if k < n && Change(step, start, k) >= TOLERANCE { StopBy(step, start, k + 1, n); }
  }

  function Residual(step: real -> real, e: real): real { Abs(e - step(e)) }

  lemma ResidualUnder(step: real -> real, start: real, q: real, k: nat, t: real)
    requires Contraction(step, q) && k > 0 && Change(step, start, k) <= t
    ensures Residual(step, Iterate(step, start, k)) <= q * t
  {
    Contracts(step, q, Iterate(step, start, k), Iterate(step, start, k - 1), t);
  }

  /** A point with a small residual is near every fixed point. */
  lemma NearFixedPoint(step: real -> real, q: real, e: real, x: real)
    requires Contraction(step, q) && step(x) == x
    ensures (1.0 - q) * Abs(e - x) <= Residual(step, e)
  {
    var d := Abs(e - x);
    assert Closer(step, q, e, x);
    assert (1.0 - q) * d == d - q * d;
  }

  lemma NearWithin(step: real -> real, q: real, e: real, x: real, r: real)
    requires Contraction(step, q) && step(x) == x && Residual(step, e) <= r
    ensures (1.0 - q) * Abs(e - x) <= r
  {
    NearFixedPoint(step, q, e, x);
  }

  lemma OneFixedPoint(step: real -> real, q: real, x: real, y: real)
    requires Contraction(step, q) && q < 1.0 && step(x) == x && step(y) == y
    ensures x == y
  {
    NearFixedPoint(step, q, y, x);
    NoPositive(1.0 - q, Abs(y - x));
  }

  lemma NoPositive(a: real, d: real)
    requires a > 0.0 && d >= 0.0 && a * d <= 0.0
    ensures d == 0.0
  {
    assert d > 0.0 ==> a * d > 0.0;
  }

  function Power(e: real, k: nat): real
  {
    if k == 0 then 1.0 else e * Power(e, k - 1)
  }

  lemma {:induction false} PowerMonotone(e: real, c: real, k: nat)
    requires 0.0 <= e <= c
    ensures 0.0 <= Power(e, k) <= Power(c, k)
  {
    if k > 0 {
      PowerMonotone(e, c, k - 1);
      ProductBound(e, c, Power(e, k - 1), Power(c, k - 1));
    }
  }

  lemma {:induction false} PowerAdd(e: real, a: nat, b: nat)
    ensures Power(e, a + b) == Power(e, a) * Power(e, b)
  {
    if a > 0 {
      PowerAdd(e, a - 1, b);
      assert e * (Power(e, a - 1) * Power(e, b)) == (e * Power(e, a - 1)) * Power(e, b);
    }
  }

  lemma PowerAt003()
    ensures Power(0.03, 9) < TOLERANCE
  {
    assert Power(0.03, 1) == 0.03;
    assert Power(0.03, 2) == 0.0009;
    assert Power(0.03, 3) == 0.000_027;
    PowerAdd(0.03, 3, 3);
    PowerAdd(0.03, 6, 3);
  }

  lemma PowerAt036()
    ensures Power(0.36, 30) < TOLERANCE
  {
    assert Power(0.36, 1) == 0.36;
    assert Power(0.36, 2) == 0.1296;
    assert Power(0.36, 3) == 0.046656;
    PowerAdd(0.36, 2, 3);
    assert Power(0.36, 5) == 0.0060466176;
    PowerAdd(0.36, 5, 5);
    assert Power(0.36, 10) < 0.000_036_562;
    PowerMonotoneSquare(Power(0.36, 10), 0.000_036_562);
    PowerAdd(0.36, 10, 10);
    assert 0.0 <= Power(0.36, 20) <= 0.000_000_001_336_8;
    PowerAdd(0.36, 20, 10);
    ProductBound(Power(0.36, 20), 0.000_000_001_336_8, Power(0.36, 10), 0.000_036_562);
  }

  lemma PowerMonotoneSquare(x: real, b: real)
    requires x <= b && 0.0 <= x
    ensures 0.0 <= x * x <= b * b
  {
    ProductBound(x, b, x, b);
  }

  lemma ProductBound(x: real, a: real, y: real, b: real)
    requires 0.0 <= x <= a && 0.0 <= y <= b
    ensures 0.0 <= x * y <= a * b
  {
    assert x * y >= 0.0;
    assert x * (b - y) >= 0.0 && (a - x) * b >= 0.0;
    assert x * (b - y) == x * b - x * y && (a - x) * b == a * b - x * b;
  }

  // ------------------------------------------------------------ Kepler's equation

  lemma StepArithmetic(mk: real, ecc: real, a: real, b: real, d: real)
    requires 0.0 <= ecc && Abs(a - b) <= d
    ensures Abs((mk + ecc * a) - (mk + ecc * b)) <= ecc * d
  {
    MulMono(ecc, a - b, d);
    MulMono(ecc, b - a, d);
    assert ecc * (a - b) == ecc * a - ecc * b && ecc * (b - a) == ecc * b - ecc * a;
  }

  lemma Lipschitz(sin: real -> real, x: real, y: real)
    requires SineLike(sin)
    ensures Abs(sin(x) - sin(y)) <= Abs(x - y)
  {
    assert NotSteeper(sin, x, y);
  }

  lemma KeplerCloser(sin: real -> real, mk: real, ecc: real, x: real, y: real)
    requires SineLike(sin) && 0.0 <= ecc
    ensures Closer(KeplerStep(sin, mk, ecc), ecc, x, y)
  {
    Lipschitz(sin, x, y);
    StepArithmetic(mk, ecc, sin(x), sin(y), Abs(x - y));
  }

  lemma KeplerContracts(sin: real -> real, mk: real, ecc: real)
    requires SineLike(sin) && 0.0 <= ecc
    ensures Contraction(KeplerStep(sin, mk, ecc), ecc)
  {
    forall x, y ensures Closer(KeplerStep(sin, mk, ecc), ecc, x, y) { KeplerCloser(sin, mk, ecc, x, y); }
  }

  lemma FirstStep(sin: real -> real, mk: real, ecc: real)
    requires SineLike(sin) && 0.0 <= ecc
    ensures Change(KeplerStep(sin, mk, ecc), mk, 1) <= ecc
  {
    var step := KeplerStep(sin, mk, ecc);
    assert Iterate(step, mk, 0) == mk && Iterate(step, mk, 1) == step(mk);
    var s := sin(mk);
    assert AtMostOne(sin, mk);
    MulMono(ecc, s, 1.0);
    MulMono(ecc, -s, 1.0);
    assert ecc * -s == -(ecc * s);
  }

  /** Main result: step k moves by at most ecc to the k. */
  lemma KeplerStepBound(sin: real -> real, mk: real, ecc: real, k: nat)
    requires SineLike(sin) && 0.0 <= ecc && k > 0
    ensures Change(KeplerStep(sin, mk, ecc), mk, k) <= Power(ecc, k)
  {
    KeplerContracts(sin, mk, ecc);
    FirstStep(sin, mk, ecc);
    StepBound(KeplerStep(sin, mk, ecc), mk, ecc, k);
  }

  /** Main result: the break is taken by step n as soon as ecc to the n is under the tolerance; so by
      step 9 for GPS orbits (ecc up to 0.03), and within the 30 steps allowed up to 0.36. */
  lemma LoopConverges(sin: real -> real, mk: real, ecc: real, n: nat)
    requires SineLike(sin) && 0.0 <= ecc && 1 <= n <= 30
    requires Power(ecc, n) < 0.000_000_000_000_1 || (n == 9 && ecc <= 0.03) || (n == 30 && ecc <= 0.36)
    ensures var step := KeplerStep(sin, mk, ecc);
            StopFrom(step, mk, 1) <= n && Change(step, mk, StopFrom(step, mk, 1)) < 0.000_000_000_000_1
  {
    if n == 9 && ecc <= 0.03 {
      PowerMonotone(ecc, 0.03, 9);
      PowerAt003();
    } else if n == 30 && ecc <= 0.36 {
      PowerMonotone(ecc, 0.36, 30);
      PowerAt036();
    }
    KeplerStepBound(sin, mk, ecc, n);
    StopBy(KeplerStep(sin, mk, ecc), mk, 1, n);
  }

  predicate Solves(sin: real -> real, mk: real, ecc: real, x: real)
  {
    x == mk + ecc * sin(x)
  }

  lemma SolvesIsFixed(sin: real -> real, mk: real, ecc: real, x: real)
    requires Solves(sin, mk, ecc, x)
    ensures KeplerStep(sin, mk, ecc)(x) == x
  {
  }

  /** The value the loop returns. */
  function Returned(sin: real -> real, mk: real, ecc: real): real
  {
    Iterate(KeplerStep(sin, mk, ecc), mk, StopFrom(KeplerStep(sin, mk, ecc), mk, 1))
  }

  /** The loop left by its break. */
  predicate BreakTaken(sin: real -> real, mk: real, ecc: real)
  {
    var step := KeplerStep(sin, mk, ecc);
    Change(step, mk, StopFrom(step, mk, 1)) < 0.000_000_000_000_1
  }

  lemma BreakUpTo036(sin: real -> real, mk: real, ecc: real)
    requires SineLike(sin) && 0.0 <= ecc <= 0.36
    ensures BreakTaken(sin, mk, ecc)
  {
    LoopConverges(sin, mk, ecc, 30);
  }

  /** Main result: whenever the break is taken, the value returned has residual at most ecc times the
      tolerance. */
  lemma SmallResidual(sin: real -> real, mk: real, ecc: real)
    requires SineLike(sin) && 0.0 <= ecc && BreakTaken(sin, mk, ecc)
    ensures Residual(KeplerStep(sin, mk, ecc), Returned(sin, mk, ecc)) <= ecc * 0.000_000_000_000_1
  {
    var step := KeplerStep(sin, mk, ecc);
    var n := StopFrom(step, mk, 1);
    KeplerContracts(sin, mk, ecc);
    ResidualUnder(step, mk, ecc, n, TOLERANCE);
  }

  /** Main result: it is within ecc / (1 - ecc) tolerances of the solution, for ecc below 1. */
  lemma NearTheSolution(sin: real -> real, mk: real, ecc: real, x: real, e: real)
    requires SineLike(sin) && 0.0 <= ecc && BreakTaken(sin, mk, ecc)
    requires Solves(sin, mk, ecc, x) && e == Returned(sin, mk, ecc)
    ensures (1.0 - ecc) * Abs(e - x) <= ecc * 0.000_000_000_000_1
  {
    SmallResidual(sin, mk, ecc);
    KeplerContracts(sin, mk, ecc);
    SolvesIsFixed(sin, mk, ecc, x);
    NearWithin(KeplerStep(sin, mk, ecc), ecc, e, x, ecc * TOLERANCE);
  }

  /** Kepler's equation has at most one solution below ecc = 1. */
  lemma SolutionUnique(sin: real -> real, mk: real, ecc: real, x: real, y: real)
    requires SineLike(sin) && 0.0 <= ecc < 1.0 && Solves(sin, mk, ecc, x) && Solves(sin, mk, ecc, y)
    ensures x == y
  {
    KeplerContracts(sin, mk, ecc);
    OneFixedPoint(KeplerStep(sin, mk, ecc), ecc, x, y);
  }

  /** When the 30 steps run out instead, the residual is still at most ecc to the 31. */
  lemma ResidualWithoutBreak(sin: real -> real, mk: real, ecc: real)
    requires SineLike(sin) && 0.0 <= ecc
    requires StopFrom(KeplerStep(sin, mk, ecc), mk, 1) == 30
    ensures Residual(KeplerStep(sin, mk, ecc), Returned(sin, mk, ecc)) <= Power(ecc, 31)
  {
    var step := KeplerStep(sin, mk, ecc);
    KeplerContracts(sin, mk, ecc);
    KeplerStepBound(sin, mk, ecc, MAX_STEPS);
    ResidualUnder(step, mk, ecc, MAX_STEPS, Power(ecc, MAX_STEPS));
  }
}
