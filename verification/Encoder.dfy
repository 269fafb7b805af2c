/** 6-of-8 framing and the encoder object that chains the parity seed (rtcm2.py). */
module Encoder {
  import opened Basics
  import opened Bits
  import opened Parity
  import opened Rtcm2

  // ------------------------------------------------------------------ framing

  /** The six data bits a receiver takes from one byte, low bit first; None when not 01xxxxxx. */
  function DeframeByte(b: byte): (r: Option<seq<bool>>)
    ensures r.Some? ==> |r.value| == 6
  {
    if b / 64 != 1 then None
    else Some([b % 2 == 1, Shr(b, 1) % 2 == 1, Shr(b, 2) % 2 == 1, Shr(b, 3) % 2 == 1, Shr(b, 4) % 2 == 1, Shr(b, 5) % 2 == 1])
  }

  /** Bytes that are not 01xxxxxx are skipped. */
  function Deframe(bytes: seq<byte>): seq<bool>
  {
    if bytes == [] then []
    else (match DeframeByte(bytes[0]) case None => [] case Some(g) => g) + Deframe(bytes[1..])
  }

  function Digit(b: bool): nat { if b then 1 else 0 }

  /** One byte on the wire: 01, then the six bits in reverse order. */
  function FrameGroup(g: seq<bool>): byte
    requires |g| == 6
  {
    64 + (32 * Digit(g[5]) + 16 * Digit(g[4]) + 8 * Digit(g[3]) + 4 * Digit(g[2]) + 2 * Digit(g[1]) + Digit(g[0]))
  }

  /** The bytes that carry a string of 6-bit groups. */
  function Frame(bits: seq<bool>): (bytes: seq<byte>)
    ensures |bytes| == |bits| / 6
    decreases |bits|
  {
    if |bits| < 6 then [] else [FrameGroup(bits[..6])] + Frame(bits[6..])
  }

  /** Sum of ((value >> i) & 1) << (5 - i) over i < n. */
  function ReverseSum(value: int, n: nat): (r: nat)
    requires n <= 6
  {
    if n == 0 then 0 else ReverseSum(value, n - 1) + Shl(Shr(value, n - 1) % 2, 5 - (n - 1))
  }

  lemma ReverseTerm(value: int, i: nat)
    requires i < 6
    ensures Shr(value, i) % 2 == Digit(ToBits(value, 6)[5 - i])
  {
    assert ToBits(value, 6)[5 - i] == (Shr(value, 5 - (5 - i)) % 2 == 1);
  }

  lemma ShlDigits(d: nat)
    ensures Shl(d, 0) == d && Shl(d, 1) == 2 * d && Shl(d, 2) == 4 * d
    ensures Shl(d, 3) == 8 * d && Shl(d, 4) == 16 * d && Shl(d, 5) == 32 * d
  {
  }

  lemma ReverseTotal(value: int, d0: nat, d1: nat, d2: nat, d3: nat, d4: nat, d5: nat)
    requires Shr(value, 0) % 2 == d0 && Shr(value, 1) % 2 == d1 && Shr(value, 2) % 2 == d2
    requires Shr(value, 3) % 2 == d3 && Shr(value, 4) % 2 == d4 && Shr(value, 5) % 2 == d5
    ensures ReverseSum(value, 6) == 32 * d0 + 16 * d1 + 8 * d2 + 4 * d3 + 2 * d4 + d5
  {
    ShlDigits(d0);
    ShlDigits(d1);
    ShlDigits(d2);
    ShlDigits(d3);
    ShlDigits(d4);
    ShlDigits(d5);
    assert ReverseSum(value, 1) == Shl(d0, 5);
    assert ReverseSum(value, 2) == ReverseSum(value, 1) + Shl(d1, 4);
    assert ReverseSum(value, 3) == ReverseSum(value, 2) + Shl(d2, 3);
    assert ReverseSum(value, 4) == ReverseSum(value, 3) + Shl(d3, 2);
    assert ReverseSum(value, 5) == ReverseSum(value, 4) + Shl(d4, 1);
  }

  /** 0x40 | reverse6(group) is the byte the framing calls for. */
  method Reverse6(value: int) returns (r: nat)
    ensures 64 + r == FrameGroup(ToBits(value, 6))
  {
    r := 0;
    for i := 0 to 6
      invariant r == ReverseSum(value, i)
    {
      r := r + Shl(Shr(value, i) % 2, 5 - i);
    }
    ReverseTerm(value, 0);
    ReverseTerm(value, 1);
    ReverseTerm(value, 2);
    ReverseTerm(value, 3);
    ReverseTerm(value, 4);
    ReverseTerm(value, 5);
    ghost var s := ToBits(value, 6);
    ReverseTotal(value, Digit(s[5]), Digit(s[4]), Digit(s[3]), Digit(s[2]), Digit(s[1]), Digit(s[0]));
  }

  /** Reversal is undone by reading the byte low bit first. */
  lemma FrameGroupBack(s: seq<bool>)
    requires |s| == 6
    ensures DeframeByte(FrameGroup(s)) == Some(s)
  {
    var r := 32 * Digit(s[5]) + 16 * Digit(s[4]) + 8 * Digit(s[3]) + 4 * Digit(s[2]) + 2 * Digit(s[1]) + Digit(s[0]);
    DeframeDigits(s[0], s[1], s[2], s[3], s[4], s[5], r);
    assert FrameGroup(s) == 64 + r;
    assert s == [s[0], s[1], s[2], s[3], s[4], s[5]];
  }

  lemma DeframeDigits(a: bool, b: bool, c: bool, d: bool, e: bool, f: bool, r: nat)
    requires r == 32 * Digit(f) + 16 * Digit(e) + 8 * Digit(d) + 4 * Digit(c) + 2 * Digit(b) + Digit(a)
    ensures r < 64 && DeframeByte(64 + r) == Some([a, b, c, d, e, f])
  {
    LowSix(r);
    SixBits(a, b, c, d, e, f, r);
  }

  lemma LowSix(r: nat)
    requires r < 64
    ensures Shr(64 + r, 1) % 2 == Shr(r, 1) % 2 && Shr(64 + r, 2) % 2 == Shr(r, 2) % 2
    ensures Shr(64 + r, 3) % 2 == Shr(r, 3) % 2 && Shr(64 + r, 4) % 2 == Shr(r, 4) % 2
    ensures Shr(64 + r, 5) % 2 == Shr(r, 5) % 2 && (64 + r) % 2 == r % 2 && (64 + r) / 64 == 1
  {
    assert (64 + r) / 2 == 32 + r / 2;
    assert (32 + r / 2) / 2 == 16 + r / 2 / 2;
    assert (16 + r / 2 / 2) / 2 == 8 + r / 2 / 2 / 2;
    assert (8 + r / 2 / 2 / 2) / 2 == 4 + r / 2 / 2 / 2 / 2;
    assert (4 + r / 2 / 2 / 2 / 2) / 2 == 2 + r / 2 / 2 / 2 / 2 / 2;
  }

  lemma SixBits(a: bool, b: bool, c: bool, d: bool, e: bool, f: bool, r: nat)
    requires r == 32 * Digit(f) + 16 * Digit(e) + 8 * Digit(d) + 4 * Digit(c) + 2 * Digit(b) + Digit(a)
    ensures (r % 2 == 1) == a && (Shr(r, 1) % 2 == 1) == b && (Shr(r, 2) % 2 == 1) == c
    ensures (Shr(r, 3) % 2 == 1) == d && (Shr(r, 4) % 2 == 1) == e && (Shr(r, 5) % 2 == 1) == f
  {
    assert r / 2 == 16 * Digit(f) + 8 * Digit(e) + 4 * Digit(d) + 2 * Digit(c) + Digit(b);
    assert r / 2 / 2 == 8 * Digit(f) + 4 * Digit(e) + 2 * Digit(d) + Digit(c);
    assert r / 2 / 2 / 2 == 4 * Digit(f) + 2 * Digit(e) + Digit(d);
    assert r / 2 / 2 / 2 / 2 == 2 * Digit(f) + Digit(e);
    assert r / 2 / 2 / 2 / 2 / 2 == Digit(f);
  }

  lemma {:induction false} DeframeUndoesFrame(bits: seq<bool>, groups: nat)
    requires |bits| == 6 * groups
    ensures Deframe(Frame(bits)) == bits
    decreases groups
  {
    if groups > 0 {
      FrameGroupBack(bits[..6]);
      DeframeUndoesFrame(bits[6..], groups - 1);
      assert Frame(bits)[1..] == Frame(bits[6..]);
      assert bits == bits[..6] + bits[6..];
    }
  }

  lemma {:induction false} FrameConcat(a: seq<bool>, b: seq<bool>, groups: nat)
    requires |a| == 6 * groups
    ensures Frame(a + b) == Frame(a) + Frame(b)
    decreases groups
  {
    if groups == 0 {
      assert a + b == b;
    } else {
      assert (a + b)[..6] == a[..6] && (a + b)[6..] == a[6..] + b;
      FrameConcat(a[6..], b, groups - 1);
      Assoc([FrameGroup(a[..6])], Frame(a[6..]), Frame(b));
    }
  }

  lemma FrameNext(s: seq<bool>, p: nat, g: nat)
    requires p == 6 * g && p + 6 <= |s|
    ensures Frame(s[..p + 6]) == Frame(s[..p]) + [FrameGroup(s[p..p + 6])]
  {
    var group := s[p..p + 6];
    assert s[..p + 6] == s[..p] + group;
    FrameConcat(s[..p], group, g);
    FrameOne(group);
  }

  lemma FrameOne(group: seq<bool>)
    requires |group| == 6
    ensures Frame(group) == [FrameGroup(group)]
  {
    assert group[..6] == group && group[6..] == [];
  }

  /** (word30 >> (24 - g * 6)) & 0x3F */
  function GroupOf(word30: nat, g: nat): nat
    requires g < 5
  {
    LowBits(Shr(word30, 30 - 6 - g * 6), 6)
  }

  lemma SixLowBits(word30: nat, p: nat)
    requires p + 6 <= 30
    ensures ToBits(LowBits(Shr(word30, 30 - p - 6), 6), 6) == ToBits(word30, 30)[p..p + 6]
  {
    ToBitsSlice(word30, 30, p, 6);
    ToFromBits(ToBits(Shr(word30, 30 - p - 6), 6));
  }

  lemma GroupStep(s: seq<bool>, g: nat, group: seq<bool>)
    requires |s| == 30 && g < 5 && group == s[6 * g..6 * g + 6]
    ensures Frame(s[..6 * g + 6]) == Frame(s[..6 * g]) + [FrameGroup(group)]
  {
    FrameNext(s, 6 * g, g);
  }

  lemma GroupNext(word30: nat, g: nat)
    requires g < 5
    ensures Frame(ToBits(word30, 30)[..6 * g + 6]) ==
            Frame(ToBits(word30, 30)[..6 * g]) + [FrameGroup(ToBits(GroupOf(word30, g), 6))]
  {
    SixLowBits(word30, 6 * g);
    assert GroupOf(word30, g) == LowBits(Shr(word30, 30 - 6 * g - 6), 6);
    GroupStep(ToBits(word30, 30), g, ToBits(GroupOf(word30, g), 6));
  }

  /** Five bytes for one 30-bit word, most significant group first. */
  method Word30ToBytes(word30: nat) returns (out: seq<byte>)
    ensures out == Frame(ToBits(word30, 30))
  {
    out := [];
    for g := 0 to 5
      invariant out == Frame(ToBits(word30, 30)[..6 * g])
    {
      var reversed := Reverse6(GroupOf(word30, g));
      GroupNext(word30, g);
      out := out + [64 + reversed];
    }
    assert ToBits(word30, 30)[..30] == ToBits(word30, 30);
  }

  // ------------------------------------------------------------------ encoder

  /** The bytes that carry a string of data words sent with a given seed. */
  function Wire(data: seq<bool>, seed: (bool, bool)): (bytes: seq<byte>)
    requires |data| % 24 == 0
  {
    Frame(ChainTx(data, seed.0, seed.1))
  }

  function SeedLeft(data: seq<bool>, seed: (bool, bool)): (bool, bool)
    requires |data| % 24 == 0
  {
    SeedAfter(data, seed.0, seed.1)
  }

  lemma WireAppend(a: seq<bool>, b: seq<bool>, seed: (bool, bool))
    requires |a| % 24 == 0 && |b| % 24 == 0
    ensures Wire(a + b, seed) == Wire(a, seed) + Wire(b, SeedLeft(a, seed))
    ensures SeedLeft(a + b, seed) == SeedLeft(b, SeedLeft(a, seed))
  {
    ChainAppend(a, b, seed.0, seed.1);
    var t := ChainTx(a, seed.0, seed.1);
    FrameConcat(t, ChainTx(b, SeedLeft(a, seed).0, SeedLeft(a, seed).1), |a| / 24 * 5);
  }

  /** [(dw >> (23 - i)) & 1 for i in range(24)] */
  function SourceBits(dw: int): (bits: seq<int>)
    ensures |bits| == 24 && AllBits(bits) && AsBools(bits) == ToBits(dw, 24)
  {
    seq(24, i requires 0 <= i < 24 => Shr(dw, 23 - i) % 2)
  }

  lemma OneWord(dw: int, seed: (bool, bool), word30: nat)
    requires word30 == FromBits(EncodeBits(ToBits(dw, 24), seed.0, seed.1))
    ensures var w := EncodeBits(ToBits(dw, 24), seed.0, seed.1);
            && Frame(ToBits(word30, 30)) == Wire(ToBits(dw, 24), seed)
            && SeedLeft(ToBits(dw, 24), seed) == (w[28], w[29])
  {
    ToFromBits(EncodeBits(ToBits(dw, 24), seed.0, seed.1));
    SeedAfterWord(ToBits(dw, 24), seed.0, seed.1);
  }

  class Rtcm2Encoder {
    var d29: int
    var d30: int

    /** The seed inputs the parity computation accepts. */
    predicate SeedOk()
      reads this
    {
      IsBit(d29) && IsBit(d30)
    }

    function Seed(): (bool, bool)
      reads this
    {
      (d29 == 1, d30 == 1)
    }

    constructor (d29star: int, d30star: int)
      ensures d29 == d29star && d30 == d30star
    {
      d29, d30 := d29star, d30star;
    }

    method EncodeOne(dw: int) returns (r: Result<seq<byte>>)
      modifies this
      ensures r.Ok? == old(SeedOk())
      ensures r.Ok? ==> SeedOk()
                        && r.value == Wire(ToBits(dw, 24), old(Seed()))
                        && Seed() == SeedLeft(ToBits(dw, 24), old(Seed()))
      ensures !r.Ok? ==> d29 == old(d29) && d30 == old(d30)
    {
      var bits := SourceBits(dw);
      var encoded := EncodeWord(bits, d29, d30);
      if encoded.ValueError? { return ValueError; }
      OneWord(dw, Seed(), encoded.value.0);
      d29, d30 := encoded.value.1, encoded.value.2;
      var bytes := Word30ToBytes(encoded.value.0);
      r := Ok(bytes);
    }

    method EncodeWords(dataWords: seq<int>) returns (r: Result<seq<byte>>)
      modifies this
      ensures r.Ok? <==> dataWords == [] || old(SeedOk())
      ensures r.Ok? && old(SeedOk()) ==> SeedOk()
      ensures r.Ok? ==> r.value == Wire(WordsBits(dataWords), old(Seed()))
                        && Seed() == SeedLeft(WordsBits(dataWords), old(Seed()))
      ensures !r.Ok? ==> d29 == old(d29) && d30 == old(d30)
    {
      var out := [];
      ghost var s0, ok0 := Seed(), SeedOk();
      assert dataWords[..0] == [];
      for i := 0 to |dataWords|
        invariant ok0 || i == 0
        invariant SeedOk() == ok0
        invariant i == 0 ==> d29 == old(d29) && d30 == old(d30)
        invariant out == Wire(WordsBits(dataWords[..i]), s0)
        invariant Seed() == SeedLeft(WordsBits(dataWords[..i]), s0)
      {
        var one := EncodeOne(dataWords[i]);
        if one.ValueError? { return ValueError; }
        EncodedStep(dataWords, i, s0);
        out := out + one.value;
      }
      assert dataWords[..|dataWords|] == dataWords;
      r := Ok(out);
    }

    method EncodeType1(h: Header, cs: seq<Correction>) returns (r: Result<seq<byte>>)
      modifies this
      ensures r.Ok? <==> Type1Accepted(h, cs) && old(SeedOk())
      ensures r.Ok? ==> SeedOk()
                        && r.value == Wire(Type1Bits(h, cs), old(Seed()))
                        && Seed() == SeedLeft(Type1Bits(h, cs), old(Seed()))
      ensures r.Ok? ==> Type1At(Type1Bits(h, cs), h, cs)
      ensures !r.Ok? ==> d29 == old(d29) && d30 == old(d30)
    {
      var words := PackType1Body(h, cs);
      if words.ValueError? { return ValueError; }
      r := EncodeWords(words.value);
    }

    method EncodeType3(h: Header, ecef: Ecef) returns (r: Result<seq<byte>>)
      modifies this
      ensures r.Ok? <==> Type3Accepted(h, ecef) && old(SeedOk())
      ensures r.Ok? ==> SeedOk()
                        && r.value == Wire(Type3Bits(h, ecef), old(Seed()))
                        && Seed() == SeedLeft(Type3Bits(h, ecef), old(Seed()))
      ensures r.Ok? ==> Type3At(Type3Bits(h, ecef), h, ecef)
      ensures !r.Ok? ==> d29 == old(d29) && d30 == old(d30)
    {
      var words := PackType3Body(h, ecef);
      if words.ValueError? { return ValueError; }
      r := EncodeWords(words.value);
    }
  }

  lemma SeedAfterWord(d: seq<bool>, d29: bool, d30: bool)
    requires |d| == 24
    ensures var w := EncodeBits(d, d29, d30);
            ChainTx(d, d29, d30) == w && SeedAfter(d, d29, d30) == (w[28], w[29])
  {
    assert d + [] == d;
    ChainCons(d, [], d29, d30);
  }

  lemma EncodedStep(ws: seq<int>, i: nat, seed: (bool, bool))
    requires i < |ws|
    ensures var left, d := SeedLeft(WordsBits(ws[..i]), seed), ToBits(ws[i], 24);
            && Wire(WordsBits(ws[..i + 1]), seed) == Wire(WordsBits(ws[..i]), seed) + Wire(d, left)
            && SeedLeft(WordsBits(ws[..i + 1]), seed) == SeedLeft(d, left)
  {
    assert ws[..i + 1][..i] == ws[..i];
    WireAppend(WordsBits(ws[..i]), ToBits(ws[i], 24), seed);
  }
}
