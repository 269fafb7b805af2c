/** A second formulation of the word check, table and population count over 32 bits
    (tests/test_parity.py, after RTKLIB's decode_word), and its agreement with the first. */
module Rtklib {
  import opened Bits
  import opened Parity

  /** Bit 31 is D29*, bit 30 is D30*, then the 24 data bits, then the 6 parity bits. */
  const HAMMING: seq<nat> := [0xBB1F3480, 0x5D8F9A40, 0xAEC7CD00, 0x5763E680, 0x6BB1F340, 0x8B7A89C0]

  /** Whether the first n bits of w & h, counted from the most significant, hold an odd number of ones. */
  function OddOnes(w: seq<bool>, h: seq<bool>, n: nat): bool
    requires n <= |w| && n <= |h|
  {
    n > 0 && OddOnes(w, h, n - 1) != (w[n - 1] && h[n - 1])
  }

  /** The 24 data bits complemented when D30* is set: word ^ 0x3FFFFFC0. */
  function Uninverted(w: seq<bool>): (v: seq<bool>)
    requires |w| == 32
    ensures |v| == 32
  {
    w[..2] + Complement(w[2..26], w[1]) + w[26..]
  }

  /** (parity ok, data bits) */
  function DecodeWord(w: seq<bool>): (bool, seq<bool>)
    requires |w| == 32
  {
    var v := Uninverted(w);
    (seq(6, k requires 0 <= k < 6 => OddOnes(v, ToBits(HAMMING[k], 32), 32)) == w[26..], v[2..26])
  }

  /** What bit p of table entry k selects. */
  predicate Selects(k: nat, p: nat)
    requires k < 6
  {
    if p == 0 then SEED_IS_D29[k]
    else if p == 1 then !SEED_IS_D29[k]
    else p < 26 && InMask(k, p - 1)
  }

  /** The number the first n selections spell. */
  function Prefix(k: nat, n: nat): nat
    requires k < 6
  {
    if n == 0 then 0 else 2 * Prefix(k, n - 1) + (if Selects(k, n - 1) then 1 else 0)
  }

  lemma TableRow0()
    ensures HAMMING[0] == Prefix(0, 32)
  {
    assert Prefix(0, 8) == 0xBB && Prefix(0, 16) == 0xBB1F && Prefix(0, 24) == 0xBB1F34;
  }

  lemma TableRow1()
    ensures HAMMING[1] == Prefix(1, 32)
  {
    assert Prefix(1, 8) == 0x5D && Prefix(1, 16) == 0x5D8F && Prefix(1, 24) == 0x5D8F9A;
  }

  lemma TableRow2()
    ensures HAMMING[2] == Prefix(2, 32)
  {
    assert Prefix(2, 8) == 0xAE && Prefix(2, 16) == 0xAEC7 && Prefix(2, 24) == 0xAEC7CD;
  }

  lemma TableRow3()
    ensures HAMMING[3] == Prefix(3, 32)
  {
    assert Prefix(3, 8) == 0x57 && Prefix(3, 16) == 0x5763 && Prefix(3, 24) == 0x5763E6;
  }

  lemma TableRow4()
    ensures HAMMING[4] == Prefix(4, 32)
  {
    assert Prefix(4, 8) == 0x6B && Prefix(4, 16) == 0x6BB1 && Prefix(4, 24) == 0x6BB1F3;
  }

  lemma TableRow5()
    ensures HAMMING[5] == Prefix(5, 32)
  {
    assert Prefix(5, 8) == 0x8B && Prefix(5, 16) == 0x8B7A && Prefix(5, 24) == 0x8B7A89;
  }

  lemma TablePrefix(k: nat)
    requires k < 6
    ensures HAMMING[k] == Prefix(k, 32)
  {
    match k {
      case 0 => TableRow0();
      case 1 => TableRow1();
      case 2 => TableRow2();
      case 3 => TableRow3();
      case 4 => TableRow4();
      case _ => TableRow5();
    }
  }

  lemma PushBit(u: nat, b: bool, n: nat)
    ensures ToBits(2 * u + (if b then 1 else 0), n + 1) == ToBits(u, n) + [b]
  {
    var v := 2 * u + (if b then 1 else 0);
    assert v / 2 == u && (v % 2 == 1) == b;
    ToBitsStep(v, n + 1);
  }

  lemma PrefixStep(k: nat, n: nat)
    requires k < 6 && n > 0
    ensures ToBits(Prefix(k, n), n) == ToBits(Prefix(k, n - 1), n - 1) + [Selects(k, n - 1)]
  {
    PushBit(Prefix(k, n - 1), Selects(k, n - 1), n - 1);
  }

  lemma {:induction false} PrefixBit(k: nat, n: nat, p: nat)
    requires k < 6 && p < n
    ensures ToBits(Prefix(k, n), n)[p] == Selects(k, p)
  {
    PrefixStep(k, n);
    if p < n - 1 { PrefixBit(k, n - 1, p); }
  }

  // ------------------------------------------------- position lists as selections

  /** XOR of the first n data bits that are on the list. */
  function Listed(mask: seq<int>, d: seq<bool>, n: nat): bool
    requires n <= |d|
  {
    n > 0 && Listed(mask, d, n - 1) != (d[n - 1] && n in mask)
  }

  lemma {:induction false} ListedNone(d: seq<bool>, n: nat)
    requires n <= |d|
    ensures !Listed([], d, n)
  {
    if n > 0 { ListedNone(d, n - 1); }
  }

  lemma {:induction false} ListedSnoc(mask: seq<int>, x: int, d: seq<bool>, n: nat)
    requires n <= |d| && x !in mask && 1 <= x <= |d|
    ensures Listed(mask + [x], d, n) == (Listed(mask, d, n) != (x <= n && d[x - 1]))
  {
    if n > 0 {
      ListedSnoc(mask, x, d, n - 1);
      assert n in mask + [x] <==> n in mask || n == x;
    }
  }

  lemma {:induction false} RowIsListed(mask: seq<int>, d: seq<bool>)
    requires |d| == 24 && Distinct(mask)
    ensures Row(mask, d) == Listed(mask, d, 24)
  {
    if mask == [] {
      ListedNone(d, 24);
    } else {
      var n := |mask| - 1;
      assert mask[n] !in mask[..n];
      RowIsListed(mask[..n], d);
      ListedSnoc(mask[..n], mask[n], d, 24);
      assert mask == mask[..n] + [mask[n]];
    }
  }

  lemma {:induction false} OnesAreListed(k: nat, v: seq<bool>, h: seq<bool>, n: nat)
    requires k < 6 && |v| == 32 && |h| == 32 && n <= 24
    requires forall p: nat :: p < 32 ==> h[p] == Selects(k, p)
    ensures OddOnes(v, h, 2 + n) == ((if SEED_IS_D29[k] then v[0] else v[1]) != Listed(MASKS[k], v[2..26], n))
  {
    if n == 0 {
      assert h[0] == Selects(k, 0) && h[1] == Selects(k, 1);
      assert OddOnes(v, h, 1) == (v[0] && h[0]);
    } else {
      OnesAreListed(k, v, h, n - 1);
      assert h[2 + n - 1] == Selects(k, 2 + n - 1);
      MaskMembers(k, n);
    }
  }

  lemma {:induction false} NoOnesAfter(v: seq<bool>, h: seq<bool>, n: nat)
    requires |v| == 32 && |h| == 32 && 26 <= n <= 32
    requires forall p: nat :: 26 <= p < 32 ==> !h[p]
    ensures OddOnes(v, h, n) == OddOnes(v, h, 26)
  {
    if n > 26 { NoOnesAfter(v, h, n - 1); }
  }

  /** Each table entry computes the parity bit of its position list. */
  lemma SameParity(k: nat, w: seq<bool>)
    requires k < 6 && |w| == 32
    ensures OddOnes(Uninverted(w), ToBits(HAMMING[k], 32), 32) == ParityBit(k, SourceOf(w), w[0], w[1])
  {
    var v, h := Uninverted(w), ToBits(HAMMING[k], 32);
    TablePrefix(k);
    forall p: nat | p < 32 ensures h[p] == Selects(k, p) { PrefixBit(k, 32, p); }
    OnesAreListed(k, v, h, 24);
    NoOnesAfter(v, h, 32);
    MasksDistinct(k);
    assert v[2..26] == SourceOf(w);
    RowIsListed(MASKS[k], SourceOf(w));
  }

  /** Main result: the two receivers agree on every word, good or bad. */
  lemma SameDecoder(w: seq<bool>)
    requires |w| == 32
    ensures DecodeWord(w) == (Passes(w), SourceOf(w))
  {
    forall k: nat | k < 6
      ensures OddOnes(Uninverted(w), ToBits(HAMMING[k], 32), 32) == ParityOf(SourceOf(w), w[0], w[1])[k]
    {
      SameParity(k, w);
    }
    var p := ParityOf(SourceOf(w), w[0], w[1]);
    assert seq(6, k requires 0 <= k < 6 => OddOnes(Uninverted(w), ToBits(HAMMING[k], 32), 32)) == p;
    assert Uninverted(w)[2..26] == SourceOf(w);
  }

  /** It reads every encoded word back. */
  lemma ReadsEncodedWords(d: seq<bool>, d29: bool, d30: bool)
    requires |d| == 24
    ensures DecodeWord([d29, d30] + EncodeBits(d, d29, d30)) == (true, d)
  {
    SameDecoder([d29, d30] + EncodeBits(d, d29, d30));
    EncodedPasses(d, d29, d30);
  }
}
