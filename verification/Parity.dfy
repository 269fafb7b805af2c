/** The chained 30-bit word code of GPS and RTCM 2.3 (parity.py; IS-GPS-200 Table 20-XIV). */
module Parity {
  import opened Basics
  import opened Bits

  /** Data positions, counted from 1, that enter D25..D30. */
  const MASKS: seq<seq<int>> := [
    [1, 2, 3, 5, 6, 10, 11, 12, 13, 14, 17, 18, 20, 23],
    [2, 3, 4, 6, 7, 11, 12, 13, 14, 15, 18, 19, 21, 24],
    [1, 3, 4, 5, 7, 8, 12, 13, 14, 15, 16, 19, 20, 22],
    [2, 4, 5, 6, 8, 9, 13, 14, 15, 16, 17, 20, 21, 23],
    [1, 3, 5, 6, 7, 9, 10, 14, 15, 16, 17, 18, 21, 22, 24],
    [3, 5, 6, 8, 9, 10, 11, 13, 15, 19, 22, 23, 24]
  ]

  /** Whether the leading term of D25..D30 is D29* (otherwise it is D30*). */
  const SEED_IS_D29: seq<bool> := [true, false, true, false, false, true]

  /** Membership in MASKS, spelled out. */
  predicate InMask(k: nat, x: int)
    requires k < 6
  {
    match k
    case 0 =>
      x == 1 || x == 2 || x == 3 || x == 5 || x == 6 || x == 10 || x == 11 ||
      x == 12 || x == 13 || x == 14 || x == 17 || x == 18 || x == 20 || x == 23
    case 1 =>
      x == 2 || x == 3 || x == 4 || x == 6 || x == 7 || x == 11 || x == 12 ||
      x == 13 || x == 14 || x == 15 || x == 18 || x == 19 || x == 21 || x == 24
    case 2 =>
      x == 1 || x == 3 || x == 4 || x == 5 || x == 7 || x == 8 || x == 12 ||
      x == 13 || x == 14 || x == 15 || x == 16 || x == 19 || x == 20 || x == 22
    case 3 =>
      x == 2 || x == 4 || x == 5 || x == 6 || x == 8 || x == 9 || x == 13 ||
      x == 14 || x == 15 || x == 16 || x == 17 || x == 20 || x == 21 || x == 23
    case 4 =>
      x == 1 || x == 3 || x == 5 || x == 6 || x == 7 || x == 9 || x == 10 ||
      x == 14 || x == 15 || x == 16 || x == 17 || x == 18 || x == 21 || x == 22 || x == 24
    case _ =>
      x == 3 || x == 5 || x == 6 || x == 8 || x == 9 || x == 10 || x == 11 ||
      x == 13 || x == 15 || x == 19 || x == 22 || x == 23 || x == 24
  }

  lemma MaskMembers(k: nat, x: int)
    requires k < 6
    ensures x in MASKS[k] <==> InMask(k, x)
    ensures |MASKS[k]| == if k < 4 then 14 else if k == 4 then 15 else 13
  {
    match k {
      case 0 =>
        var m := MASKS[0];
        assert m[0] == 1 && m[1] == 2 && m[2] == 3 && m[3] == 5 && m[4] == 6 && m[5] == 10 && m[6] == 11;
        assert m[7] == 12 && m[8] == 13 && m[9] == 14 && m[10] == 17 && m[11] == 18 && m[12] == 20 && m[13] == 23;
      case 1 =>
        var m := MASKS[1];
        assert m[0] == 2 && m[1] == 3 && m[2] == 4 && m[3] == 6 && m[4] == 7 && m[5] == 11 && m[6] == 12;
        assert m[7] == 13 && m[8] == 14 && m[9] == 15 && m[10] == 18 && m[11] == 19 && m[12] == 21 && m[13] == 24;
      case 2 =>
        var m := MASKS[2];
        assert m[0] == 1 && m[1] == 3 && m[2] == 4 && m[3] == 5 && m[4] == 7 && m[5] == 8 && m[6] == 12;
        assert m[7] == 13 && m[8] == 14 && m[9] == 15 && m[10] == 16 && m[11] == 19 && m[12] == 20 && m[13] == 22;
      case 3 =>
        var m := MASKS[3];
        assert m[0] == 2 && m[1] == 4 && m[2] == 5 && m[3] == 6 && m[4] == 8 && m[5] == 9 && m[6] == 13;
        assert m[7] == 14 && m[8] == 15 && m[9] == 16 && m[10] == 17 && m[11] == 20 && m[12] == 21 && m[13] == 23;
      case 4 =>
        var m := MASKS[4];
        assert m[0] == 1 && m[1] == 3 && m[2] == 5 && m[3] == 6 && m[4] == 7 && m[5] == 9 && m[6] == 10;
        assert m[7] == 14 && m[8] == 15 && m[9] == 16 && m[10] == 17 && m[11] == 18 && m[12] == 21 && m[13] == 22 && m[14] == 24;
      case _ =>
        var m := MASKS[5];
        assert m[0] == 3 && m[1] == 5 && m[2] == 6 && m[3] == 8 && m[4] == 9 && m[5] == 10 && m[6] == 11;
        assert m[7] == 13 && m[8] == 15 && m[9] == 19 && m[10] == 22 && m[11] == 23 && m[12] == 24;
    }
  }

  predicate InData(mask: seq<int>)
  {
    forall j :: 0 <= j < |mask| ==> 1 <= mask[j] <= 24
  }

  ghost predicate Distinct(mask: seq<int>)
  {
    InData(mask) && forall i, j :: 0 <= i < j < |mask| ==> mask[i] != mask[j]
  }

  /** Every mask lists its positions in increasing order. */
  lemma MasksDistinct(k: nat)
    requires k < 6
    ensures Distinct(MASKS[k])
  {
    var m := MASKS[k];
    forall j | 0 <= j < |m| ensures 1 <= m[j] <= 24 { MaskMembers(k, m[j]); }
    MaskIncreasing(k);
    Increasing(m);
  }

  lemma MaskIncreasing(k: nat)
    requires k < 6
    ensures forall i :: 0 <= i < |MASKS[k]| - 1 ==> MASKS[k][i] < MASKS[k][i + 1]
  {
  }

  lemma {:induction false} Increasing(m: seq<int>)
    requires forall i :: 0 <= i < |m| - 1 ==> m[i] < m[i + 1]
    ensures forall i, j :: 0 <= i < j < |m| ==> m[i] < m[j]
  {
    if m != [] {
      var n := |m| - 1;
      Increasing(m[..n]);
      forall i | 0 <= i < n ensures m[i] < m[n] {
        assert m[..n][i] == m[i] && m[..n][n - 1] == m[n - 1];
      }
      assert forall i, j :: 0 <= i < j < n ==> m[..n][i] == m[i] && m[..n][j] == m[j];
    }
  }

  // ------------------------------------------------------------ the encoder's word

  /** XOR of the data bits a mask selects. */
  function Row(mask: seq<int>, d: seq<bool>): bool
    requires |d| == 24 && InData(mask)
  {
    if mask == [] then false
    else
      var n := |mask| - 1;
      Row(mask[..n], d) != d[mask[n] - 1]
  }

  function ParityBit(k: nat, d: seq<bool>, d29: bool, d30: bool): bool
    requires k < 6 && |d| == 24
  {
    MasksDistinct(k);
    (if SEED_IS_D29[k] then d29 else d30) != Row(MASKS[k], d)
  }

  function ParityOf(d: seq<bool>, d29: bool, d30: bool): (p: seq<bool>)
    requires |d| == 24
    ensures |p| == 6
  {
    seq(6, k requires 0 <= k < 6 => ParityBit(k, d, d29, d30))
  }

  /** Data bits as transmitted: complemented when D30* is set. Its own inverse. */
  function Complement(d: seq<bool>, d30: bool): (r: seq<bool>)
    ensures |r| == |d| && forall i :: 0 <= i < |d| ==> r[i] == (d[i] != d30)
  {
    seq(|d|, i requires 0 <= i < |d| => d[i] != d30)
  }

  function EncodeBits(d: seq<bool>, d29: bool, d30: bool): (w: seq<bool>)
    requires |d| == 24
    ensures |w| == 30
  {
    Complement(d, d30) + ParityOf(d, d29, d30)
  }

  predicate IsBit(b: int) { b == 0 || b == 1 }

  predicate AllBits(s: seq<int>) { forall b <- s :: IsBit(b) }

  function AsBools(s: seq<int>): (r: seq<bool>)
    ensures |r| == |s| && forall i :: 0 <= i < |s| ==> r[i] == (s[i] == 1)
  {
    seq(|s|, i requires 0 <= i < |s| => s[i] == 1)
  }

  function XorBit(a: int, b: int): int { if a == b then 0 else 1 }

  predicate WordInputs(data: seq<int>, d29star: int, d30star: int)
  {
    |data| == 24 && AllBits(data) && IsBit(d29star) && IsBit(d30star)
  }

  method ParityBits(data: seq<int>, d29star: int, d30star: int) returns (r: Result<seq<int>>)
    ensures r.Ok? <==> WordInputs(data, d29star, d30star)
    ensures r.Ok? ==> AllBits(r.value)
                      && AsBools(r.value) == ParityOf(AsBools(data), d29star == 1, d30star == 1)
  {
    if |data| != 24 { return ValueError; }
    if !AllBits(data) || !IsBit(d29star) || !IsBit(d30star) { return ValueError; }
    var out := [];
    ghost var d := AsBools(data);
    for k := 0 to 6
      invariant |out| == k && AllBits(out)
      invariant forall i :: 0 <= i < k ==> (out[i] == 1) == ParityBit(i, d, d29star == 1, d30star == 1)
    {
      var mask := MASKS[k];
      MasksDistinct(k);
      var p := if SEED_IS_D29[k] then d29star else d30star;
      ghost var seed := p == 1;
      for j := 0 to |mask|
        invariant IsBit(p) && (p == 1) == (seed != Row(mask[..j], d))
      {
        RowStep(mask, j, d);
        assert data[mask[j] - 1] in data;
        p := XorBit(p, data[mask[j] - 1]);
      }
      assert mask[..|mask|] == mask;
      out := out + [p];
    }
    r := Ok(out);
  }

  lemma RowStep(mask: seq<int>, j: nat, d: seq<bool>)
    requires |d| == 24 && InData(mask) && j < |mask|
    ensures Row(mask[..j + 1], d) == (Row(mask[..j], d) != d[mask[j] - 1])
  {
    assert mask[..j + 1][..j] == mask[..j];
  }

  method EncodeWord(data: seq<int>, d29star: int, d30star: int) returns (r: Result<(nat, int, int)>)
    ensures r.Ok? <==> WordInputs(data, d29star, d30star)
    ensures r.Ok? ==>
              var (word, next29, next30) := r.value;
              var w := EncodeBits(AsBools(data), d29star == 1, d30star == 1);
              word == FromBits(w) && IsBit(next29) && IsBit(next30)
              && w[28] == (next29 == 1) && w[29] == (next30 == 1)
  {
    var parity := ParityBits(data, d29star, d30star);
    if parity.ValueError? { return ValueError; }
    var p := parity.value;
    var word: nat := 0;
    ghost var w := EncodeBits(AsBools(data), d29star == 1, d30star == 1);
    for i := 0 to 24
      invariant word == FromBits(w[0..i])
    {
      FromBitsSnoc(w, 0, i);
      WordDataBit(data, d29star, d30star, i);
      word := word * 2 + XorBit(data[i], d30star);
    }
    for i := 0 to 6
      invariant word == FromBits(w[0..24 + i])
    {
      FromBitsSnoc(w, 0, 24 + i);
      WordParityBit(data, d29star, d30star, p, i);
      word := word * 2 + p[i];
    }
    assert w[0..30] == w;
    WordParityBit(data, d29star, d30star, p, 4);
    WordParityBit(data, d29star, d30star, p, 5);
    r := Ok((word, p[4], p[5]));
  }

  lemma WordDataBit(data: seq<int>, d29star: int, d30star: int, i: nat)
    requires WordInputs(data, d29star, d30star) && i < 24
    ensures XorBit(data[i], d30star) == if EncodeBits(AsBools(data), d29star == 1, d30star == 1)[i] then 1 else 0
  {
    assert data[i] in data;
  }

  lemma WordParityBit(data: seq<int>, d29star: int, d30star: int, p: seq<int>, i: nat)
    requires WordInputs(data, d29star, d30star) && i < 6
    requires AllBits(p) && AsBools(p) == ParityOf(AsBools(data), d29star == 1, d30star == 1)
    ensures p[i] == if EncodeBits(AsBools(data), d29star == 1, d30star == 1)[24 + i] then 1 else 0
  {
    assert p[i] in p;
    assert AsBools(p)[i] == (p[i] == 1);
  }

  // ------------------------------------------------------- checking a received word

  /** Source data of a check window: D29*, D30*, then the 30 transmitted bits. */
  function SourceOf(w: seq<bool>): (d: seq<bool>)
    requires |w| == 32
    ensures |d| == 24
  {
    Complement(w[2..26], w[1])
  }

  function SyndromeBit(w: seq<bool>, k: nat): bool
    requires |w| == 32 && k < 6
  {
    ParityBit(k, SourceOf(w), w[0], w[1]) != w[26 + k]
  }

  function Syndrome(w: seq<bool>): (s: seq<bool>)
    requires |w| == 32
    ensures |s| == 6
  {
    [SyndromeBit(w, 0), SyndromeBit(w, 1), SyndromeBit(w, 2), SyndromeBit(w, 3), SyndromeBit(w, 4), SyndromeBit(w, 5)]
  }

  /** The receiver's test: the six recomputed parity bits are the received ones. */
  predicate Passes(w: seq<bool>)
    requires |w| == 32
  {
    ParityOf(SourceOf(w), w[0], w[1]) == w[26..]
  }

  lemma PassesIffZeroSyndrome(w: seq<bool>)
    requires |w| == 32
    ensures Passes(w) <==> Syndrome(w) == [false, false, false, false, false, false]
  {
    forall k: nat | k < 6 { SyndromeCompares(w, k); }
    SameWhenNoneDiffers(ParityOf(SourceOf(w), w[0], w[1]), w[26..], Syndrome(w));
  }

  lemma SyndromeCompares(w: seq<bool>, k: nat)
    requires |w| == 32 && k < 6
    ensures Syndrome(w)[k] == (ParityOf(SourceOf(w), w[0], w[1])[k] != w[26..][k])
  {
  }

  lemma SameWhenNoneDiffers(a: seq<bool>, b: seq<bool>, s: seq<bool>)
    requires |a| == 6 && |b| == 6 && |s| == 6 && forall k: nat :: k < 6 ==> s[k] == (a[k] != b[k])
    ensures a == b <==> s == [false, false, false, false, false, false]
  {
    assert s == [s[0], s[1], s[2], s[3], s[4], s[5]];
  }

  /** The check accepts exactly the encoder's words, and gives back their data. */
  lemma PassesIffEncoded(w: seq<bool>)
    requires |w| == 32
    ensures Passes(w) <==> w[2..] == EncodeBits(SourceOf(w), w[0], w[1])
  {
    var d := SourceOf(w);
    var e := EncodeBits(d, w[0], w[1]);
    assert Complement(d, w[1]) == w[2..26];
    assert w[2..] == w[2..26] + w[26..];
    assert e[24..] == ParityOf(d, w[0], w[1]);
    assert w[2..][24..] == w[26..];
  }

  lemma EncodedPasses(d: seq<bool>, d29: bool, d30: bool)
    requires |d| == 24
    ensures var w := [d29, d30] + EncodeBits(d, d29, d30); Passes(w) && SourceOf(w) == d
  {
    var w := [d29, d30] + EncodeBits(d, d29, d30);
    assert w[2..26] == Complement(d, d30);
    assert SourceOf(w) == d;
    assert w[26..] == ParityOf(d, d29, d30);
  }

  // ----------------------------------------------------------------- distance

  function Flip(w: seq<bool>, i: nat): (r: seq<bool>)
    requires i < |w|
    ensures |r| == |w|
  {
    w[i := !w[i]]
  }

  /** How bit i of the window enters check k, with the D30* inversion folded in. */
  predicate ColumnBit(i: nat, k: nat)
    requires i < 32 && k < 6
  {
    if i == 0 then SEED_IS_D29[k]
    else if i == 1 then SEED_IS_D29[k] == (k >= 4)
    else if i < 26 then InMask(k, i - 1)
    else k == i - 26
  }

  function Column(i: nat): (c: seq<bool>)
    requires i < 32
    ensures |c| == 6
  {
    [ColumnBit(i, 0), ColumnBit(i, 1), ColumnBit(i, 2), ColumnBit(i, 3), ColumnBit(i, 4), ColumnBit(i, 5)]
  }

  function Xor6(a: seq<bool>, b: seq<bool>): (r: seq<bool>)
    requires |a| == 6 && |b| == 6
    ensures |r| == 6
  {
    [a[0] != b[0], a[1] != b[1], a[2] != b[2], a[3] != b[3], a[4] != b[4], a[5] != b[5]]
  }

  predicate OddWeight(s: seq<bool>)
    requires |s| == 6
  {
    (((((s[0] != s[1]) != s[2]) != s[3]) != s[4]) != s[5])
  }

  lemma ColumnsOdd(i: nat)
    requires i < 32
    ensures OddWeight(Column(i))
  {
  }

  lemma ColumnsDistinct(i: nat, j: nat)
    requires i < 32 && j < 32 && i != j
    ensures Column(i) != Column(j)
  {
    var a, b := Column(i), Column(j);
    assert a[0] != b[0] || a[1] != b[1] || a[2] != b[2] || a[3] != b[3] || a[4] != b[4] || a[5] != b[5];
  }

  /** Which bit has the odd column that starts with these five bits. */
  const ERROR_BIT: seq<nat> := [
    31, 30, 29, 10, 28, 23, 9, 17, 27, 25, 1, 22, 20, 8, 5, 16,
    26, 11, 24, 18, 0, 2, 21, 6, 12, 19, 3, 7, 13, 4, 14, 15
  ]

  function Weigh(c: bool, v: nat): nat { if c then v else 0 }

  /** The columns are all the odd-weight vectors, so an odd syndrome names one bit. */
  lemma OddIsColumn(c: seq<bool>) returns (i: nat)
    requires |c| == 6 && OddWeight(c)
    ensures i < 32 && Column(i) == c
  {
    var x := Weigh(c[0], 16) + Weigh(c[1], 8) + Weigh(c[2], 4) + Weigh(c[3], 2) + Weigh(c[4], 1);
    i := ERROR_BIT[x];
    assert Column(i)[0] == c[0] && Column(i)[1] == c[1] && Column(i)[2] == c[2];
    assert Column(i)[3] == c[3] && Column(i)[4] == c[4] && Column(i)[5] == c[5];
  }

  lemma {:induction false} RowFlip(mask: seq<int>, d: seq<bool>, i: nat)
    requires |d| == 24 && i < 24 && Distinct(mask)
    ensures Row(mask, Flip(d, i)) == (Row(mask, d) != ((i + 1) in mask))
  {
    if mask != [] {
      var n := |mask| - 1;
      RowFlip(mask[..n], d, i);
      assert (i + 1) in mask <==> (i + 1) in mask[..n] || i + 1 == mask[n];
    }
  }

  lemma {:induction false} RowComplement(mask: seq<int>, d: seq<bool>)
    requires |d| == 24 && Distinct(mask)
    ensures Row(mask, Complement(d, true)) == (Row(mask, d) != (|mask| % 2 == 1))
  {
    if mask != [] {
      var n := |mask| - 1;
      RowComplement(mask[..n], d);
    }
  }

  /** Flipping one bit of a window adds that bit's column to the syndrome. */
  lemma SyndromeBitFlip(w: seq<bool>, i: nat, k: nat)
    requires |w| == 32 && i < 32 && k < 6
    ensures SyndromeBit(Flip(w, i), k) == (SyndromeBit(w, k) != ColumnBit(i, k))
  {
    var v := Flip(w, i);
    MasksDistinct(k);
    if i == 1 {
      assert SourceOf(v) == Complement(SourceOf(w), true);
      RowComplement(MASKS[k], SourceOf(w));
      MaskMembers(k, 0);
    } else if 2 <= i < 26 {
      assert SourceOf(v) == Flip(SourceOf(w), i - 2);
      RowFlip(MASKS[k], SourceOf(w), i - 2);
      MaskMembers(k, i - 1);
    } else {
      assert SourceOf(v) == SourceOf(w);
    }
  }

  lemma SyndromeFlip(w: seq<bool>, i: nat)
    requires |w| == 32 && i < 32
    ensures Syndrome(Flip(w, i)) == Xor6(Syndrome(w), Column(i))
  {
    forall k: nat | k < 6 { SyndromeBitFlip(w, i, k); }
  }

  /** Hamming distance. */
  function Distance(a: seq<bool>, b: seq<bool>): nat
    requires |a| == |b|
  {
    if a == [] then 0
    else Distance(a[..|a| - 1], b[..|a| - 1]) + (if a[|a| - 1] == b[|a| - 1] then 0 else 1)
  }

  lemma {:induction false} DistanceZero(a: seq<bool>, b: seq<bool>)
    requires |a| == |b|
    ensures Distance(a, b) == 0 <==> a == b
  {
    if a != [] {
      var n := |a| - 1;
      DistanceZero(a[..n], b[..n]);
      if a[..n] == b[..n] && a[n] == b[n] {
        forall i | 0 <= i < |a| ensures a[i] == b[i] {
          if i < n { assert a[i] == a[..n][i] == b[..n][i]; }
        }
      }
    }
  }

  lemma {:induction false} FirstDifference(a: seq<bool>, b: seq<bool>) returns (i: nat)
    requires |a| == |b| && Distance(a, b) > 0
    ensures i < |a| && a[i] != b[i] && Distance(Flip(a, i), b) == Distance(a, b) - 1
  {
    var n := |a| - 1;
    if a[n] != b[n] {
      i := n;
      assert Flip(a, i)[..n] == a[..n];
    } else {
      i := FirstDifference(a[..n], b[..n]);
      assert Flip(a, i)[..n] == Flip(a[..n], i);
    }
  }

  const ZERO6: seq<bool> := [false, false, false, false, false, false]

  lemma Xor6Facts(a: seq<bool>, b: seq<bool>)
    requires |a| == 6 && |b| == 6
    ensures OddWeight(Xor6(a, b)) == (OddWeight(a) != OddWeight(b))
    ensures Xor6(a, b) == ZERO6 <==> a == b
    ensures Xor6(ZERO6, b) == b
    ensures !OddWeight(ZERO6)
  {
    assert Xor6(ZERO6, b) == b;
    Xor6Zero(a, b);
  }

  lemma Xor6Zero(a: seq<bool>, b: seq<bool>)
    requires |a| == 6 && |b| == 6
    ensures Xor6(a, b) == ZERO6 <==> a == b
  {
    var x := Xor6(a, b);
    if x == ZERO6 {
      assert !x[0] && !x[1] && !x[2] && !x[3] && !x[4] && !x[5];
      assert forall m :: 0 <= m < 6 ==> a[m] == b[m];
    }
  }

  lemma OneFlip(w: seq<bool>, i: nat)
    requires |w| == 32 && i < 32
    ensures Passes(w) ==> Syndrome(Flip(w, i)) == Column(i)
    ensures OddWeight(Syndrome(Flip(w, i))) == !OddWeight(Syndrome(w))
    ensures OddWeight(Syndrome(w)) && Passes(Flip(w, i)) ==> Syndrome(w) == Column(i)
    ensures OddWeight(Syndrome(w)) ==> !Passes(w)
  {
    SyndromeFlip(w, i);
    ColumnsOdd(i);
    Xor6Facts(Syndrome(w), Column(i));
    PassesIffZeroSyndrome(w);
    PassesIffZeroSyndrome(Flip(w, i));
  }

  /** Main result: the window code has distance at least 4. */
  lemma DetectsThreeErrors(sent: seq<bool>, got: seq<bool>)
    requires |sent| == 32 && |got| == 32 && Passes(sent)
    requires 1 <= Distance(sent, got) <= 3
    ensures !Passes(got)
  {
    PassesIffZeroSyndrome(sent);
    var i := FirstDifference(sent, got);
    var a := Flip(sent, i);
    OneFlip(sent, i);
    DistanceZero(a, got);
    if a == got {
      OneFlip(a, 0);
    } else {
      var j := FirstDifference(a, got);
      ColumnsDistinct(i, j);
      var b := Flip(a, j);
      OneFlip(a, j);
      DistanceZero(b, got);
      if b != got {
        var k := FirstDifference(b, got);
        var c := Flip(b, k);
        OneFlip(b, k);
        OneFlip(c, 0);
        DistanceZero(c, got);
      }
    }
  }

  /** The bound is tight: four flips that go unnoticed in every window. */
  lemma FourErrorsCanHide(w: seq<bool>)
    requires |w| == 32 && Passes(w)
    ensures var v := Flip(Flip(Flip(Flip(w, 10), 29), 30), 31); Distance(w, v) == 4 && Passes(v)
  {
    FourFlipsApart(w);
    FourFlipsPass(w);
  }

  lemma FourFlipsApart(w: seq<bool>)
    requires |w| == 32
    ensures Distance(w, Flip(Flip(Flip(Flip(w, 10), 29), 30), 31)) == 4
  {
    var a := Flip(w, 10);
    var b := Flip(a, 29);
    var c := Flip(b, 30);
    DistanceZero(w, w);
    FlipDistance(w, w, 10);
    FlipDistance(w, a, 29);
    FlipDistance(w, b, 30);
    FlipDistance(w, c, 31);
  }

  lemma FourFlipsPass(w: seq<bool>)
    requires |w| == 32 && Passes(w)
    ensures Passes(Flip(Flip(Flip(Flip(w, 10), 29), 30), 31))
  {
    var a := Flip(w, 10);
    var b := Flip(a, 29);
    var c := Flip(b, 30);
    var v := Flip(c, 31);
    SyndromeFlip(w, 10);
    SyndromeFlip(a, 29);
    SyndromeFlip(b, 30);
    SyndromeFlip(c, 31);
    FourColumnsCancel();
    PassesIffZeroSyndrome(w);
    PassesIffZeroSyndrome(v);
  }

  lemma FourColumnsCancel()
    ensures Xor6(Xor6(Xor6(Xor6(ZERO6, Column(10)), Column(29)), Column(30)), Column(31)) == ZERO6
  {
    assert Column(10) == [false, false, false, true, true, true];
  }

  lemma {:induction false} FlipDistance(w: seq<bool>, v: seq<bool>, i: nat)
    requires |w| == |v| && i < |w| && w[i] == v[i]
    ensures Distance(w, Flip(v, i)) == Distance(w, v) + 1
  {
    var n := |w| - 1;
    if i < n {
      FlipDistance(w[..n], v[..n], i);
      assert Flip(v, i)[..n] == Flip(v[..n], i);
    } else {
      assert Flip(v, i)[..n] == v[..n];
    }
  }

  /** Two errors always show an even, non-zero syndrome; one error shows its own column. */
  lemma SyndromeTellsOneFromTwo(sent: seq<bool>, i: nat, j: nat)
    requires |sent| == 32 && Passes(sent) && i < 32 && j < 32 && i != j
    ensures Syndrome(Flip(sent, i)) == Column(i) && OddWeight(Column(i))
    ensures !Passes(Flip(Flip(sent, i), j)) && !OddWeight(Syndrome(Flip(Flip(sent, i), j)))
  {
    PassesIffZeroSyndrome(sent);
    OneFlip(sent, i);
    OneFlip(Flip(sent, i), j);
    ColumnsOdd(i);
    ColumnsDistinct(i, j);
  }

  /** A window with an odd syndrome is one flip away from a word of the code, in one way only. */
  lemma OddSyndromeHasOneRepair(w: seq<bool>) returns (i: nat)
    requires |w| == 32 && OddWeight(Syndrome(w))
    ensures i < 32 && forall j: nat :: j < 32 ==> (Passes(Flip(w, j)) <==> j == i)
  {
    i := OddIsColumn(Syndrome(w));
    forall j: nat | j < 32 ensures Passes(Flip(w, j)) <==> j == i {
      FlipPasses(w, j);
      if j != i { ColumnsDistinct(i, j); }
    }
  }

  lemma FlipPasses(w: seq<bool>, j: nat)
    requires |w| == 32 && j < 32
    ensures Passes(Flip(w, j)) <==> Syndrome(w) == Column(j)
  {
    SyndromeFlip(w, j);
    PassesIffZeroSyndrome(Flip(w, j));
    Xor6Zero(Syndrome(w), Column(j));
  }

  // ------------------------------------------------------------------- streams

  /** Transmitted bits of a string of 24-bit data words: each word's D29, D30 seed the next. */
  function ChainTx(data: seq<bool>, d29: bool, d30: bool): (tx: seq<bool>)
    requires |data| % 24 == 0
    ensures |tx| == |data| / 24 * 30
    decreases |data|
  {
    if data == [] then []
    else
      var w := EncodeBits(data[..24], d29, d30);
      w + ChainTx(data[24..], w[28], w[29])
  }

  /** A stream is its two seed bits followed by the transmitted bits. */
  function Stream(data: seq<bool>, d29: bool, d30: bool): (s: seq<bool>)
    requires |data| % 24 == 0
  {
    [d29, d30] + ChainTx(data, d29, d30)
  }

  /** The seed left for the next word: D29, D30 of the last word sent. */
  function SeedAfter(data: seq<bool>, d29: bool, d30: bool): (bool, bool)
    requires |data| % 24 == 0
    decreases |data|
  {
    if data == [] then (d29, d30)
    else
      var w := EncodeBits(data[..24], d29, d30);
      SeedAfter(data[24..], w[28], w[29])
  }

  lemma ChainCons(d: seq<bool>, rest: seq<bool>, d29: bool, d30: bool)
    requires |d| == 24 && |rest| % 24 == 0
    ensures var w := EncodeBits(d, d29, d30);
            && ChainTx(d + rest, d29, d30) == w + ChainTx(rest, w[28], w[29])
            && SeedAfter(d + rest, d29, d30) == SeedAfter(rest, w[28], w[29])
  {
    assert (d + rest)[..24] == d && (d + rest)[24..] == rest;
  }

  /** Encoding more data later continues where the earlier data left off. */
  lemma {:induction false} ChainAppend(a: seq<bool>, b: seq<bool>, d29: bool, d30: bool)
    requires |a| % 24 == 0 && |b| % 24 == 0
    ensures var (s29, s30) := SeedAfter(a, d29, d30);
            && ChainTx(a + b, d29, d30) == ChainTx(a, d29, d30) + ChainTx(b, s29, s30)
            && SeedAfter(a + b, d29, d30) == SeedAfter(b, s29, s30)
    decreases |a|
  {
    if a == [] {
      assert a + b == b;
    } else {
      var d, rest := a[..24], a[24..];
      ChainAppendWord(d, rest, b, d29, d30);
      assert a == d + rest;
    }
  }

  lemma {:induction false} ChainAppendWord(d: seq<bool>, rest: seq<bool>, b: seq<bool>, d29: bool, d30: bool)
    requires |d| == 24 && |rest| % 24 == 0 && |b| % 24 == 0
    ensures var (s29, s30) := SeedAfter(d + rest, d29, d30);
            && ChainTx((d + rest) + b, d29, d30) == ChainTx(d + rest, d29, d30) + ChainTx(b, s29, s30)
            && SeedAfter((d + rest) + b, d29, d30) == SeedAfter(b, s29, s30)
    decreases |d + rest|, 0
  {
    var w := EncodeBits(d, d29, d30);
    var (s29, s30) := SeedAfter(rest, w[28], w[29]);
    ChainAppend(rest, b, w[28], w[29]);
    ChainCons(d, rest, d29, d30);
    ChainCons(d, rest + b, d29, d30);
    Assoc(d, rest, b);
    Assoc(w, ChainTx(rest, w[28], w[29]), ChainTx(b, s29, s30));
  }

  lemma LastTwoBits(seed: seq<bool>, w: seq<bool>, t: seq<bool>)
    requires |seed| == 2 && |w| == 30
    ensures var s, u := seed + (w + t), [w[28], w[29]] + t;
            s[|s| - 2] == u[|u| - 2] && s[|s| - 1] == u[|u| - 1]
  {
  }

  /** The seed kept is the last two bits on the air, or the initial seed when nothing was sent. */
  lemma {:induction false} SeedIsLastTwoBits(data: seq<bool>, d29: bool, d30: bool)
    requires |data| % 24 == 0
    ensures var s := Stream(data, d29, d30); SeedAfter(data, d29, d30) == (s[|s| - 2], s[|s| - 1])
    decreases |data|
  {
    if data != [] {
      var d, rest := data[..24], data[24..];
      assert data == d + rest;
      var w := EncodeBits(d, d29, d30);
      SeedIsLastTwoBits(rest, w[28], w[29]);
      SeedStep(d, rest, d29, d30);
    }
  }

  lemma SeedStep(d: seq<bool>, rest: seq<bool>, d29: bool, d30: bool)
    requires |d| == 24 && |rest| % 24 == 0
    ensures var w := EncodeBits(d, d29, d30);
            var s, u := Stream(d + rest, d29, d30), Stream(rest, w[28], w[29]);
            && SeedAfter(d + rest, d29, d30) == SeedAfter(rest, w[28], w[29])
            && (s[|s| - 2], s[|s| - 1]) == (u[|u| - 2], u[|u| - 1])
  {
    var w := EncodeBits(d, d29, d30);
    ChainCons(d, rest, d29, d30);
    LastTwoBits([d29, d30], w, ChainTx(rest, w[28], w[29]));
  }

  /** The word-aligned receiver: None for a word whose check fails, its source data otherwise. */
  function DecodeEach(stream: seq<bool>): (out: seq<Option<seq<bool>>>)
    decreases |stream|
  {
    if |stream| < 32 then []
    else [DecodeWindow(stream[..32])] + DecodeEach(stream[30..])
  }

  function DecodeWindow(w: seq<bool>): Option<seq<bool>>
    requires |w| == 32
  {
    if Passes(w) then Some(SourceOf(w)) else None
  }

  /** Whole words after the two seed bits. */
  function WordCount(stream: seq<bool>): nat { if |stream| < 2 then 0 else (|stream| - 2) / 30 }

  /** The 32 bits word k's check depends on. */
  function Window(stream: seq<bool>, k: nat): (w: seq<bool>)
    requires k < WordCount(stream)
    ensures |w| == 32
  {
    stream[30 * k..30 * k + 32]
  }

  lemma WindowAfter(stream: seq<bool>, k: nat)
    requires k + 1 < WordCount(stream)
    ensures k < WordCount(stream[30..]) && Window(stream[30..], k) == Window(stream, k + 1)
  {
    var p := 30 * k;
    assert stream[30..][p..p + 32] == stream[30 + p..30 + p + 32];
  }

  /** Every word is judged on its own 32-bit window alone. */
  lemma {:induction false} DecodeIsLocal(stream: seq<bool>, k: nat)
    requires k < WordCount(stream)
    ensures |DecodeEach(stream)| == WordCount(stream)
    ensures DecodeEach(stream)[k] == DecodeWindow(Window(stream, k))
    decreases |stream|
  {
    DecodeCount(stream);
    if k > 0 {
      WindowAfter(stream, k - 1);
      DecodeIsLocal(stream[30..], k - 1);
    }
  }

  lemma {:induction false} DecodeCount(stream: seq<bool>)
    ensures |DecodeEach(stream)| == WordCount(stream)
    decreases |stream|
  {
    if |stream| >= 32 { DecodeCount(stream[30..]); }
  }

  function Somes<T>(s: seq<T>): (r: seq<Option<T>>)
    ensures |r| == |s| && forall i :: 0 <= i < |s| ==> r[i] == Some(s[i])
  {
    seq(|s|, i requires 0 <= i < |s| => Some(s[i]))
  }

  function Words24(data: seq<bool>): (ws: seq<seq<bool>>)
    requires |data| % 24 == 0
    ensures |ws| == |data| / 24 && forall w <- ws :: |w| == 24
    decreases |data|
  {
    if data == [] then [] else [data[..24]] + Words24(data[24..])
  }

  lemma DecodeEncoded(d: seq<bool>, d29: bool, d30: bool)
    requires |d| == 24
    ensures DecodeWindow([d29, d30] + EncodeBits(d, d29, d30)) == Some(d)
  {
    EncodedPasses(d, d29, d30);
  }

  lemma StreamStep(data: seq<bool>, d29: bool, d30: bool)
    requires |data| % 24 == 0 && data != []
    ensures var s := Stream(data, d29, d30);
            var w := EncodeBits(data[..24], d29, d30);
            |s| >= 32 && s[..32] == [d29, d30] + w && s[30..] == Stream(data[24..], w[28], w[29])
  {
    var w := EncodeBits(data[..24], d29, d30);
    SeedWordTail([d29, d30], w, ChainTx(data[24..], w[28], w[29]));
  }

  lemma SeedWordTail(seed: seq<bool>, w: seq<bool>, t: seq<bool>)
    requires |seed| == 2 && |w| == 30
    ensures var s := seed + (w + t);
            |s| >= 32 && s[..32] == seed + w && s[30..] == [w[28], w[29]] + t
  {
  }

  lemma SomesCons<T>(x: T, xs: seq<T>)
    ensures Somes([x] + xs) == [Some(x)] + Somes(xs)
  {
  }

  lemma DecodeHead(stream: seq<bool>, d: seq<bool>)
    requires |stream| >= 32 && DecodeWindow(stream[..32]) == Some(d)
    ensures DecodeEach(stream) == [Some(d)] + DecodeEach(stream[30..])
  {
  }

  lemma StreamHead(data: seq<bool>, d29: bool, d30: bool)
    requires |data| % 24 == 0 && data != []
    ensures var w := EncodeBits(data[..24], d29, d30);
            DecodeEach(Stream(data, d29, d30)) == [Some(data[..24])] + DecodeEach(Stream(data[24..], w[28], w[29]))
  {
    StreamStep(data, d29, d30);
    DecodeEncoded(data[..24], d29, d30);
    DecodeHead(Stream(data, d29, d30), data[..24]);
  }

  lemma Words24Cons(data: seq<bool>)
    requires |data| % 24 == 0 && data != []
    ensures Words24(data) == [data[..24]] + Words24(data[24..])
  {
  }

  /** Main result: the receiver finds no violation in an encoded stream and returns its data words. */
  lemma {:induction false} DecodeUndoesChain(data: seq<bool>, d29: bool, d30: bool)
    requires |data| % 24 == 0
    ensures DecodeEach(Stream(data, d29, d30)) == Somes(Words24(data))
    decreases |data|
  {
    if data != [] {
      var d, rest := data[..24], data[24..];
      var w := EncodeBits(d, d29, d30);
      StreamHead(data, d29, d30);
      DecodeUndoesChain(rest, w[28], w[29]);
      SomesCons(d, Words24(rest));
      Words24Cons(data);
    }
  }

  /** The same window, or one with up to three wrong bits: kept or refused, never misread. */
  lemma NearWindow(a: seq<bool>, b: seq<bool>)
    requires |a| == 32 && |b| == 32 && Passes(a) && Distance(a, b) <= 3
    ensures DecodeWindow(b) == if a == b then DecodeWindow(a) else None
  {
    DistanceZero(a, b);
    if a != b { DetectsThreeErrors(a, b); }
  }

  lemma NearStream(sent: seq<bool>, words: seq<seq<bool>>, got: seq<bool>, k: nat)
    requires |got| == |sent| && k < WordCount(got) && DecodeEach(sent) == Somes(words)
    requires Distance(Window(sent, k), Window(got, k)) <= 3
    ensures |DecodeEach(got)| == |words| == WordCount(got)
    ensures DecodeEach(got)[k] ==
            if Window(got, k) == Window(sent, k) then Some(words[k]) else None
  {
    DecodeIsLocal(sent, k);
    DecodeIsLocal(got, k);
    assert Somes(words)[k] == Some(words[k]);
    NearWindow(Window(sent, k), Window(got, k));
  }

  /** Receiving with at most three wrong bits per window never yields wrong data. */
  lemma WrongDataNeverAccepted(data: seq<bool>, d29: bool, d30: bool, got: seq<bool>, k: nat)
    requires |data| % 24 == 0
    requires |got| == |Stream(data, d29, d30)| && k < WordCount(got)
    requires Distance(Window(Stream(data, d29, d30), k), Window(got, k)) <= 3
    ensures |DecodeEach(got)| == |Words24(data)| == WordCount(got)
    ensures DecodeEach(got)[k] ==
            if Window(got, k) == Window(Stream(data, d29, d30), k)
            then Some(Words24(data)[k]) else None
  {
    DecodeUndoesChain(data, d29, d30);
    NearStream(Stream(data, d29, d30), Words24(data), got, k);
  }

  /** Self-synchronisation: a receiver started at word k with a guessed seed agrees from its
      second word on, and its first word passes only when the guess was right. */
  lemma SelfSynchronises(stream: seq<bool>, k: nat, g29: bool, g30: bool)
    requires k < WordCount(stream)
    ensures var late := [g29, g30] + stream[30 * k + 2..];
            && WordCount(late) == WordCount(stream) - k
            && |DecodeEach(late)| == WordCount(late) && |DecodeEach(stream)| == WordCount(stream)
            && (forall i :: 1 <= i < WordCount(late) ==> DecodeEach(late)[i] == DecodeEach(stream)[k + i])
            && (DecodeEach(stream)[k].Some? ==>
                  DecodeEach(late)[0] == if [g29, g30] == stream[30 * k..30 * k + 2]
                                         then DecodeEach(stream)[k] else None)
  {
    var late := [g29, g30] + stream[30 * k + 2..];
    DecodeCount(late);
    DecodeCount(stream);
    forall i | 1 <= i < WordCount(late)
      ensures DecodeEach(late)[i] == DecodeEach(stream)[k + i]
    {
      LateWord(stream, k, [g29, g30], i);
    }
    FirstLateWord(stream, k, [g29, g30]);
  }

  lemma LateWindow(stream: seq<bool>, k: nat, seed: seq<bool>, i: nat)
    requires |seed| == 2 && 1 <= i && k + i < WordCount(stream)
    ensures i < WordCount(seed + stream[30 * k + 2..])
    ensures Window(seed + stream[30 * k + 2..], i) == Window(stream, k + i)
  {
    SameSlice(stream, 30 * k, seed, 30 * i, 30 * i + 32);
    assert 30 * k + 30 * i == 30 * (k + i);
  }

  lemma LateWord(stream: seq<bool>, k: nat, seed: seq<bool>, i: nat)
    requires |seed| == 2 && 1 <= i && k + i < WordCount(stream)
    ensures |DecodeEach(seed + stream[30 * k + 2..])| > i && |DecodeEach(stream)| > k + i
    ensures DecodeEach(seed + stream[30 * k + 2..])[i] == DecodeEach(stream)[k + i]
  {
    LateWindow(stream, k, seed, i);
    DecodeIsLocal(seed + stream[30 * k + 2..], i);
    DecodeIsLocal(stream, k + i);
  }

  lemma FirstLateWord(stream: seq<bool>, k: nat, seed: seq<bool>)
    requires |seed| == 2 && k < WordCount(stream)
    ensures |DecodeEach(seed + stream[30 * k + 2..])| > 0 && |DecodeEach(stream)| > k
    ensures DecodeEach(stream)[k].Some? ==>
              DecodeEach(seed + stream[30 * k + 2..])[0] ==
              if seed == stream[30 * k..30 * k + 2] then DecodeEach(stream)[k] else None
  {
    var late := seed + stream[30 * k + 2..];
    DecodeIsLocal(late, 0);
    DecodeIsLocal(stream, k);
    LateFirstWindow(stream, 30 * k, seed);
    SameBody(Window(stream, k), Window(late, 0));
  }

  lemma LateFirstWindow(stream: seq<bool>, p: nat, seed: seq<bool>)
    requires |seed| == 2 && p + 32 <= |stream|
    ensures var a, b := stream[p..p + 32], (seed + stream[p + 2..])[0..32];
            a[..2] == stream[p..p + 2] && b[..2] == seed && a[2..] == b[2..]
  {
  }

  /** Two windows that differ at most in their seed bits. */
  lemma SameBody(a: seq<bool>, b: seq<bool>)
    requires |a| == 32 && |b| == 32 && a[2..] == b[2..]
    ensures DecodeWindow(a).Some? ==> DecodeWindow(b) == if b[..2] == a[..2] then DecodeWindow(a) else None
  {
    assert a == a[..2] + a[2..] && b == b[..2] + b[2..];
    PrefixDistance(a, b);
    if Passes(a) { NearWindow(a, b); }
  }

  lemma SameSlice(s: seq<bool>, c: nat, seed: seq<bool>, p: nat, q: nat)
    requires |seed| == 2 <= p <= q && c + q <= |s|
    ensures (seed + s[c + 2..])[p..q] == s[c + p..c + q]
  {
  }

  lemma {:induction false} PrefixDistance(a: seq<bool>, b: seq<bool>)
    requires |a| == |b| >= 2 && a[2..] == b[2..]
    ensures Distance(a, b) <= 2
  {
    if |a| > 2 {
      var n := |a| - 1;
      assert a[n] == a[2..][n - 2] && b[n] == b[2..][n - 2];
      assert a[..n][2..] == a[2..][..n - 2] && b[..n][2..] == b[2..][..n - 2];
      PrefixDistance(a[..n], b[..n]);
    } else {
      assert Distance(a[..1], b[..1]) <= 1 by { assert a[..1][..0] == [] && b[..1][..0] == []; }
    }
  }
}
