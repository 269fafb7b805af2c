/** Shared vocabulary: results, bytes, powers of two and the source language's rounding. */
module Basics {

  datatype Option<+T> = None | Some(value: T)

  /** A call either returns a value or raises ValueError. */
  datatype Result<+T> = Ok(value: T) | ValueError

  type byte = n: int | 0 <= n < 256

  lemma Assoc<T>(a: seq<T>, b: seq<T>, c: seq<T>)
    ensures (a + b) + c == a + (b + c)
  {
  }

  /** 1 << n */
  function Pow2(n: nat): (r: nat)
    ensures r > 0
  {
    if n == 0 then 1 else 2 * Pow2(n - 1)
  }

  /** v << n */
  function Shl(v: nat, n: nat): nat
  {
    if n == 0 then v else 2 * Shl(v, n - 1)
  }

  /** v >> n, rounding toward minus infinity as the source language does */
  function Shr(v: int, n: nat): int
    decreases n
  {
    if n == 0 then v else Shr(v / 2, n - 1)
  }

  function Abs(x: real): (r: real)
    ensures r >= 0.0 && (r == x || r == -x)
  {
    if x < 0.0 then -x else x
  }

  function AbsInt(x: int): nat { if x < 0 then -x else x }

  /** round(x): nearest integer, halves to the even neighbour. */
  function RoundHalfEven(x: real): (r: int)
    ensures Abs(x - r as real) <= 0.5
    ensures Abs(x - r as real) == 0.5 ==> r % 2 == 0
  {
    var lo := x.Floor;
    var frac := x - lo as real;
    if frac < 0.5 then lo
    else if frac > 0.5 then lo + 1
    else if lo % 2 == 0 then lo else lo + 1
  }

  /** The two promises of RoundHalfEven leave one candidate only. */
  lemma RoundUnique(x: real, n: int)
    requires Abs(x - n as real) < 0.5 || (Abs(x - n as real) == 0.5 && n % 2 == 0)
    ensures RoundHalfEven(x) == n
  {
    var r := RoundHalfEven(x);
    assert -1.0 <= (n - r) as real <= 1.0;
    assert n - r == -1 || n - r == 0 || n - r == 1;
  }

  /** x % m for m > 0: the remainder of floored division. */
  function FloorMod(x: real, m: real): real
    requires m > 0.0
  {
    x - m * (x / m).Floor as real
  }

  lemma MulUnit(f: real, m: real)
    requires 0.0 <= f < 1.0 && m > 0.0
    ensures 0.0 <= f * m < m
  {
    assert (1.0 - f) * m > 0.0;
  }

  lemma FloorModRange(x: real, m: real)
    requires m > 0.0
    ensures 0.0 <= FloorMod(x, m) < m
  {
    var q := x / m;
    var k := q.Floor as real;
    var f := q - k;
    MulUnit(f, m);
    assert q * m == x;
    assert f * m == q * m - k * m by { assert (q - k) * m == q * m - k * m; }
    assert k * m == m * k;
    assert FloorMod(x, m) == f * m;
  }
}
