/** Choosing the scale factor and the integer counts of a correction (rtcm2.py). */
module Quantise {
  import opened Basics

  const PRC_SCALE: seq<real> := [0.02, 0.32]
  const RRC_SCALE: seq<real> := [0.002, 0.032]
  const PRC_MAX := 32767
  const RRC_MAX := 127

  function PrcCounts(prc: real, scale: int): int
    requires scale == 0 || scale == 1
  {
    RoundHalfEven(prc / PRC_SCALE[scale])
  }

  function RrcCounts(rrc: real, scale: int): int
    requires scale == 0 || scale == 1
  {
    RoundHalfEven(rrc / RRC_SCALE[scale])
  }

  predicate CountsFit(prc: real, rrc: real, scale: int)
    requires scale == 0 || scale == 1
  {
    AbsInt(PrcCounts(prc, scale)) <= PRC_MAX && AbsInt(RrcCounts(rrc, scale)) <= RRC_MAX
  }

  function Clamp(n: int, max: int): int
  {
    var low := if n < max then n else max;
    if low > -max then low else -max
  }

  /** (scale factor bit, PRC counts, RRC counts) */
  function EncodePrcRrc(prc: real, rrc: real): (r: (int, int, int))
  {
    if CountsFit(prc, rrc, 0) then (0, PrcCounts(prc, 0), RrcCounts(rrc, 0))
    else if CountsFit(prc, rrc, 1) then (1, PrcCounts(prc, 1), RrcCounts(rrc, 1))
    else (1, Clamp(PrcCounts(prc, 1), PRC_MAX), Clamp(RrcCounts(rrc, 1), RRC_MAX))
  }

  /** The value a receiver reads back. */
  function Metres(counts: int, lsb: real): real { counts as real * lsb }

  /** Rounding x to an integer of magnitude at most max, max odd: succeeds strictly below max + 1/2. */
  lemma RoundFits(x: real, max: int)
    requires max > 0 && max % 2 == 1
    ensures AbsInt(RoundHalfEven(x)) <= max <==> Abs(x) < max as real + 0.5
  {
    var r := RoundHalfEven(x);
    if AbsInt(r) <= max {
      assert Abs(x) == max as real + 0.5 ==> AbsInt(r) == max && Abs(x - r as real) == 0.5;
    } else {
      assert Abs(r as real) >= max as real + 1.0;
    }
  }

  /** Fine scale exactly when both fields fit it, the tie at the top of the range falling outside. */
  lemma FineExactlyWhenBothFit(prc: real, rrc: real)
    ensures EncodePrcRrc(prc, rrc).0 == 0 <==> Abs(prc) < 655.35 && Abs(rrc) < 0.255
    ensures EncodePrcRrc(prc, rrc).0 == 0 || EncodePrcRrc(prc, rrc).0 == 1
  {
    RoundFits(prc / 0.02, PRC_MAX);
    RoundFits(rrc / 0.002, RRC_MAX);
  }

  /** Measured in LSBs: a field is within one half of its input, even at one half, or its input is beyond the coarse
      range and the field is the largest magnitude with the input's sign. */
  predicate FieldFaithful(x: real, counts: int, max: int, scale: int)
  {
    if scale == 1 && Abs(x) >= max as real + 0.5
    then counts == if x > 0.0 then max else -max
    else Abs(counts as real - x) <= 0.5 && (Abs(counts as real - x) == 0.5 ==> counts % 2 == 0)
  }

  /** Both reserved values (-32768 and -128) are never produced. */
  lemma NoSentinel(prc: real, rrc: real)
    ensures var (s, p, r) := EncodePrcRrc(prc, rrc); AbsInt(p) <= PRC_MAX && AbsInt(r) <= RRC_MAX
  {
  }

  lemma CoarseField(x: real, max: int)
    requires max > 0 && max % 2 == 1
    ensures FieldFaithful(x, Clamp(RoundHalfEven(x), max), max, 1)
  {
    var n := RoundHalfEven(x);
    RoundFits(x, max);
    if Abs(x) >= max as real + 0.5 {
      assert n > 0 <==> x > 0.0;
    }
  }

  /** Main result: tight error bounds in both fields at the scale that was chosen. */
  lemma QuantiserFaithful(prc: real, rrc: real)
    ensures var (s, p, r) := EncodePrcRrc(prc, rrc);
            FieldFaithful(prc / PRC_SCALE[s], p, PRC_MAX, s) && FieldFaithful(rrc / RRC_SCALE[s], r, RRC_MAX, s)
  {
    if !CountsFit(prc, rrc, 0) {
      CoarseField(prc / PRC_SCALE[1], PRC_MAX);
      CoarseField(rrc / RRC_SCALE[1], RRC_MAX);
    }
  }

  lemma RoundExact(n: int)
    ensures RoundHalfEven(n as real) == n
  {
    RoundUnique(n as real, n);
  }

  /** Main result: encoding what a receiver reads back gives the same scale and counts again. */
  lemma QuantiserIsProjection(prc: real, rrc: real)
    ensures var (s, p, r) := EncodePrcRrc(prc, rrc);
            EncodePrcRrc(Metres(p, PRC_SCALE[s]), Metres(r, RRC_SCALE[s])) == (s, p, r)
  {
    var (s, p, r) := EncodePrcRrc(prc, rrc);
    NoSentinel(prc, rrc);
    RoundExact(p);
    RoundExact(r);
    assert Metres(p, PRC_SCALE[s]) / PRC_SCALE[s] == p as real;
    assert Metres(r, RRC_SCALE[s]) / RRC_SCALE[s] == r as real;
    if s == 1 {
      RoundExact(16 * p);
      RoundExact(16 * r);
      assert Metres(p, 0.32) / 0.02 == (16 * p) as real;
      assert Metres(r, 0.032) / 0.002 == (16 * r) as real;
      CoarseStaysCoarse(prc, rrc);
    }
  }

  /** A correction too big for the fine scale still is after coarse rounding. */
  lemma CoarseStaysCoarse(prc: real, rrc: real)
    requires EncodePrcRrc(prc, rrc).0 == 1
    ensures var (s, p, r) := EncodePrcRrc(prc, rrc); 16 * AbsInt(p) > PRC_MAX || 16 * AbsInt(r) > RRC_MAX
  {
    FineExactlyWhenBothFit(prc, rrc);
    QuantiserFaithful(prc, rrc);
    assert Abs(prc / 0.32) >= 2047.9 || Abs(rrc / 0.032) >= 7.9;
  }
}
