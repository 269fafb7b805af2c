/** MSB-first packing and unpacking of integer fields (bits.py). */
module Bits {
  import opened Basics

  // ---------------------------------------------------------------- bit strings

  /** The n low bits of v in two's complement, most significant first. */
  function ToBits(v: int, n: nat): (s: seq<bool>)
    ensures |s| == n
  {
    seq(n, i requires 0 <= i < n => Shr(v, n - 1 - i) % 2 == 1)
  }

  lemma ToBitsStep(v: int, n: nat)
    requires n > 0
    ensures ToBits(v, n) == ToBits(v / 2, n - 1) + [v % 2 == 1]
  {
    var a, b := ToBits(v, n), ToBits(v / 2, n - 1);
    forall i | 0 <= i < n - 1 ensures a[i] == b[i] {
      assert Shr(v, n - 1 - i) == Shr(v / 2, n - 1 - i - 1);
    }
    assert n - 1 - (n - 1) == 0 && Shr(v, 0) == v;
    assert a[n - 1] == (v % 2 == 1);
    assert a == b + [v % 2 == 1];
  }

  /** The number a bit string spells. */
  function FromBits(s: seq<bool>): nat
  {
    if s == [] then 0 else 2 * FromBits(s[..|s| - 1]) + (if s[|s| - 1] then 1 else 0)
  }

  /** The two's-complement number a non-empty bit string spells. */
  function FromBitsSigned(s: seq<bool>): int
    requires s != []
  {
    if s[0] then FromBits(s) - Pow2(|s|) else FromBits(s)
  }

  /** v & ((1 << n) - 1) */
  function LowBits(v: int, n: nat): nat
  {
    FromBits(ToBits(v, n))
  }

  function Repeat(b: bool, n: nat): (s: seq<bool>)
    ensures |s| == n && forall i :: 0 <= i < n ==> s[i] == b
  {
    seq(n, _ => b)
  }

  lemma {:induction false} FromBitsBound(s: seq<bool>)
    ensures FromBits(s) < Pow2(|s|)
  {
    if s != [] { FromBitsBound(s[..|s| - 1]); }
  }

  lemma {:induction false} ToFromBits(s: seq<bool>)
    ensures ToBits(FromBits(s), |s|) == s
  {
    if s != [] {
      ToFromBits(s[..|s| - 1]);
      ToBitsStep(FromBits(s), |s|);
      assert FromBits(s) / 2 == FromBits(s[..|s| - 1]);
    }
  }

  lemma {:induction false} FromToBits(v: int, n: nat)
    requires 0 <= v < Pow2(n)
    ensures FromBits(ToBits(v, n)) == v
  {
    if n > 0 {
      FromToBits(v / 2, n - 1);
      ToBitsStep(v, n);
      assert ToBits(v, n)[..n - 1] == ToBits(v / 2, n - 1);
    }
  }

  lemma {:induction false} FromToBitsSigned(v: int, n: nat)
    requires n > 0 && 0 - Pow2(n - 1) <= v < Pow2(n - 1)
    ensures FromBitsSigned(ToBits(v, n)) == v
    decreases n
  {
    ToBitsStep(v, n);
    if n == 1 {
      var b := v % 2 == 1;
      assert ToBits(v, 1) == [b];
      assert [b][..0] == [] && FromBits([b]) == (if b then 1 else 0);
      assert Pow2(0) == 1 && Pow2(1) == 2;
    } else {
      FromToBitsSigned(v / 2, n - 1);
      var s := ToBits(v, n);
      assert s[..n - 1] == ToBits(v / 2, n - 1);
      assert s[0] == s[..n - 1][0];
    }
  }

  /** Concatenating bit strings is shifting and adding numbers. */
  lemma {:induction false} FromBitsConcat(a: seq<bool>, b: seq<bool>)
    ensures FromBits(a + b) == Shl(FromBits(a), |b|) + FromBits(b)
  {
    if b == [] {
      assert a + b == a;
    } else {
      var b' := b[..|b| - 1];
      FromBitsConcat(a, b');
      assert (a + b)[..|a + b| - 1] == a + b';
    }
  }

  lemma {:induction false} ToBitsConcat(hi: nat, m: nat, lo: nat, n: nat)
    requires lo < Pow2(n)
    ensures ToBits(Shl(hi, n) + lo, m + n) == ToBits(hi, m) + ToBits(lo, n)
    ensures hi < Pow2(m) ==> Shl(hi, n) + lo < Pow2(m + n)
  {
    if n > 0 {
      ToBitsConcat(hi, m, lo / 2, n - 1);
      var v := Shl(hi, n) + lo;
      ToBitsStep(v, m + n);
      ToBitsStep(lo, n);
      assert v / 2 == Shl(hi, n - 1) + lo / 2 && v % 2 == lo % 2;
      assert m + n - 1 == m + (n - 1);
    }
  }

  lemma {:induction false} ShrAdds(v: int, a: nat, b: nat)
    ensures Shr(Shr(v, a), b) == Shr(v, a + b)
    decreases a
  {
    if a > 0 { ShrAdds(v / 2, a - 1, b); }
  }

  lemma ToBitsSlice(v: int, len: nat, p: nat, n: nat)
    requires p + n <= len
    ensures ToBits(v, len)[p..p + n] == ToBits(Shr(v, len - p - n), n)
  {
    var u := Shr(v, len - p - n);
    forall i | 0 <= i < n ensures ToBits(v, len)[p + i] == ToBits(u, n)[i] {
      ShrAdds(v, len - p - n, n - 1 - i);
      assert len - p - n + (n - 1 - i) == len - 1 - (p + i);
    }
  }

  /** An unaligned read is a shift and a mask of the number the whole string spells. */
  lemma SliceIsShiftAndMask(s: seq<bool>, p: nat, n: nat)
    requires p + n <= |s|
    ensures FromBits(s[p..p + n]) == LowBits(Shr(FromBits(s), |s| - p - n), n)
  {
    ToFromBits(s);
    ToBitsSlice(FromBits(s), |s|, p, n);
  }

  // ------------------------------------------------------------------- bytes

  /** (data[pos >> 3] >> (7 - (pos & 7))) & 1 */
  function BitOf(data: seq<byte>, pos: nat): (b: nat)
    requires pos < 8 * |data|
    ensures b < 2
  {
    Shr(data[pos / 8], 7 - pos % 8) % 2
  }

  function BytesBits(bytes: seq<byte>): (s: seq<bool>)
    ensures |s| == 8 * |bytes|
  {
    seq(8 * |bytes|, p requires 0 <= p < 8 * |bytes| => BitOf(bytes, p) == 1)
  }

  /** int.to_bytes(len, "big") of a value that fits. */
  function BigEndian(v: nat, len: nat): (bytes: seq<byte>)
    ensures |bytes| == len
  {
    seq(len, i requires 0 <= i < len => ByteAt(v, len - 1 - i))
  }

  /** (v >> (8 * k)) & 0xFF */
  function ByteAt(v: nat, k: nat): byte
  {
    LowByte(Shr(v, 8 * k))
  }

  /** x & 0xFF */
  function LowByte(x: int): (b: byte)
  {
    FromBitsBound(ToBits(x, 8));
    assert Pow2(8) == 256;
    LowBits(x, 8)
  }

  lemma LowByteBits(x: int, j: nat)
    requires j < 8
    ensures Shr(LowByte(x), 7 - j) % 2 == 1 <==> Shr(x, 7 - j) % 2 == 1
  {
    ToFromBits(ToBits(x, 8));
    assert ToBits(LowByte(x), 8)[j] == ToBits(x, 8)[j];
  }

  lemma BigEndianBits(v: nat, len: nat)
    ensures BytesBits(BigEndian(v, len)) == ToBits(v, 8 * len)
  {
    forall p | 0 <= p < 8 * len
      ensures BytesBits(BigEndian(v, len))[p] == ToBits(v, 8 * len)[p]
    {
      var hi, lo := 8 * (len - 1 - p / 8), 7 - p % 8;
      assert BigEndian(v, len)[p / 8] == ByteAt(v, len - 1 - p / 8) == LowByte(Shr(v, hi));
      LowByteBits(Shr(v, hi), p % 8);
      ShrAdds(v, hi, lo);
      assert hi + lo == 8 * len - 1 - p;
    }
  }

  /** (-nbits) % 8 */
  function PadLength(nbits: nat): (r: nat)
    ensures r < 8 && (nbits + r) % 8 == 0
  {
    (8 - nbits % 8) % 8
  }

  // ------------------------------------------------------------------ fields

  predicate FitsUnsigned(value: int, width: int)
  {
    width >= 1 && 0 <= value < Pow2(width)
  }

  predicate FitsSigned(value: int, width: int)
  {
    width >= 1 && 0 - Pow2(width - 1) <= value < Pow2(width - 1)
  }

  datatype Kind = Kind(signed: bool, width: int) {
    function Decode(s: seq<bool>): int
      requires s != []
    {
      if signed then FromBitsSigned(s) else FromBits(s)
    }
  }

  datatype Field = Field(value: int, kind: Kind) {
    predicate Fits()
      ensures Fits() ==> kind.width >= 1
    {
      if kind.signed then FitsSigned(value, kind.width) else FitsUnsigned(value, kind.width)
    }

    function Encode(): (s: seq<bool>)
      requires kind.width >= 0
    {
      ToBits(value, kind.width)
    }
  }

  function Unsigned(value: int, width: int): Field { Field(value, Kind(false, width)) }

  function Signed(value: int, width: int): Field { Field(value, Kind(true, width)) }

  predicate AllFit(fields: seq<Field>)
  {
    forall f <- fields :: f.Fits()
  }

  function Kinds(fields: seq<Field>): (ks: seq<Kind>)
    ensures |ks| == |fields| && forall i :: 0 <= i < |fields| ==> ks[i] == fields[i].kind
  {
    seq(|fields|, i requires 0 <= i < |fields| => fields[i].kind)
  }

  function Values(fields: seq<Field>): (vs: seq<int>)
    ensures |vs| == |fields| && forall i :: 0 <= i < |fields| ==> vs[i] == fields[i].value
  {
    seq(|fields|, i requires 0 <= i < |fields| => fields[i].value)
  }

  function FieldsBits(fields: seq<Field>): seq<bool>
    requires AllFit(fields)
  {
    if fields == [] then []
    else assert fields[0] in fields; fields[0].Encode() + FieldsBits(fields[1..])
  }

  /** Successive reads; stops early where a reader would raise. */
  function ReadFields(stream: seq<bool>, kinds: seq<Kind>): seq<int>
  {
    if kinds == [] || !(1 <= kinds[0].width <= |stream|) then []
    else
      var w := kinds[0].width;
      [kinds[0].Decode(stream[..w])] + ReadFields(stream[w..], kinds[1..])
  }

  function TotalWidth(kinds: seq<Kind>): int
  {
    if kinds == [] then 0 else kinds[0].width + TotalWidth(kinds[1..])
  }

  lemma {:induction false} FieldsLength(fields: seq<Field>)
    requires AllFit(fields)
    ensures |FieldsBits(fields)| == TotalWidth(Kinds(fields))
  {
    if fields != [] {
      var f, tail := fields[0], fields[1..];
      assert f in fields && fields == [f] + tail;
      FieldsLength(tail);
      FieldsCons(f, tail);
      assert Kinds(fields)[1..] == Kinds(tail);
    }
  }

  /** A field that fits survives encoding, whatever its sign. */
  lemma FieldRoundTrip(f: Field)
    requires f.Fits()
    ensures f.kind.Decode(f.Encode()) == f.value
  {
    if f.kind.signed { FromToBitsSigned(f.value, f.kind.width); } else { FromToBits(f.value, f.kind.width); }
  }

  lemma FieldsCons(f: Field, tail: seq<Field>)
    ensures Values([f] + tail) == [f.value] + Values(tail)
    ensures Kinds([f] + tail) == [f.kind] + Kinds(tail)
    ensures f.Fits() && AllFit(tail) ==>
              AllFit([f] + tail) && FieldsBits([f] + tail) == f.Encode() + FieldsBits(tail)
  {
    assert ([f] + tail)[1..] == tail;
  }

  lemma {:induction false} FieldsSnoc(head: seq<Field>, f: Field)
    requires AllFit(head) && f.Fits()
    ensures AllFit(head + [f]) && FieldsBits(head + [f]) == FieldsBits(head) + f.Encode()
  {
    if head == [] {
      FieldsCons(f, []);
      assert [f] == [] + [f] == [f] + [];
    } else {
      var g, tail := head[0], head[1..];
      assert g in head && head == [g] + tail;
      FieldsSnoc(tail, f);
      FieldsCons(g, tail);
      FieldsCons(g, tail + [f]);
      Assoc([g], tail, [f]);
      Assoc(g.Encode(), FieldsBits(tail), f.Encode());
    }
  }

  lemma ReadFirst(k: Kind, code: seq<bool>, kinds: seq<Kind>, more: seq<bool>)
    requires |code| == k.width >= 1
    ensures ReadFields(code + more, [k] + kinds) == [k.Decode(code)] + ReadFields(more, kinds)
  {
    var stream := code + more;
    assert stream[..k.width] == code && stream[k.width..] == more;
    assert ([k] + kinds)[1..] == kinds;
  }

  /** Main result: any list of fields that fit reads back, whatever follows it in the stream. */
  lemma {:induction false} FieldsRoundTrip(fields: seq<Field>, rest: seq<bool>)
    requires AllFit(fields)
    ensures ReadFields(FieldsBits(fields) + rest, Kinds(fields)) == Values(fields)
  {
    if fields != [] {
      var f, tail := fields[0], fields[1..];
      assert f in fields && fields == [f] + tail;
      FieldsRoundTrip(tail, rest);
      FieldsCons(f, tail);
      FieldRoundTrip(f);
      ReadFirst(f.kind, f.Encode(), Kinds(tail), FieldsBits(tail) + rest);
      Assoc(f.Encode(), FieldsBits(tail), rest);
    }
  }

  // ----------------------------------------------------------------- BitWriter

  class BitWriter {
    var acc: nat
    var nbits: nat

    ghost predicate Valid()
      reads this
    {
      acc < Pow2(nbits)
    }

    /** The bits written so far. */
    ghost function Contents(): (s: seq<bool>)
      reads this
      ensures |s| == nbits
    {
      ToBits(acc, nbits)
    }

    constructor ()
      ensures Valid() && Contents() == []
    {
      acc, nbits := 0, 0;
    }

    method WriteUnsigned(value: int, width: int) returns (ok: bool)
      requires Valid()
      modifies this
      ensures Valid()
      ensures ok == FitsUnsigned(value, width)
      ensures Contents() == if ok then old(Contents()) + ToBits(value, width) else old(Contents())
    {
      if width < 1 { return false; }
      if !(0 <= value < Pow2(width)) { return false; }
      ToBitsConcat(acc, nbits, value, width);
      acc := Shl(acc, width) + value;
      nbits := nbits + width;
      return true;
    }

    method WriteSigned(value: int, width: int) returns (ok: bool)
      requires Valid()
      modifies this
      ensures Valid()
      ensures ok == FitsSigned(value, width)
      ensures Contents() == if ok then old(Contents()) + ToBits(value, width) else old(Contents())
    {
      if width < 1 { return false; }
      var lo, hi := 0 - Pow2(width - 1), Pow2(width - 1) - 1;
      if !(lo <= value <= hi) { return false; }
      ToFromBits(ToBits(value, width));
      FromBitsBound(ToBits(value, width));
      ok := WriteUnsigned(LowBits(value, width), width);
    }

    method ToBytes(padBit: int) returns (r: Result<seq<byte>>)
      requires Valid()
      ensures r.Ok? <==> padBit == 0 || padBit == 1
      ensures r.Ok? ==> BytesBits(r.value) == Contents() + Repeat(padBit == 1, PadLength(nbits))
    {
      if padBit != 0 && padBit != 1 { return ValueError; }
      var rem := PadLength(nbits);
      var a, total := acc, nbits + rem;
      if rem != 0 {
        a := Shl(a, rem) + Fill(padBit == 1, rem);
      }
      PaddedBytes(acc, nbits, padBit == 1, rem, total / 8);
      r := Ok(BigEndian(a, total / 8));
    }
  }

  /** ((1 << n) - 1) if b else 0 */
  function Fill(b: bool, n: nat): (v: nat)
    ensures v < Pow2(n)
  {
    if b then Pow2(n) - 1 else 0
  }

  lemma {:induction false} FillBits(b: bool, n: nat)
    ensures ToBits(Fill(b, n), n) == Repeat(b, n)
  {
    if n > 0 {
      FillBits(b, n - 1);
      ToBitsStep(Fill(b, n), n);
      assert Fill(b, n) / 2 == Fill(b, n - 1);
    }
  }

  lemma PaddedBytes(acc: nat, n: nat, b: bool, rem: nat, len: nat)
    requires n + rem == 8 * len
    ensures BytesBits(BigEndian(Shl(acc, rem) + Fill(b, rem), len)) == ToBits(acc, n) + Repeat(b, rem)
  {
    FillBits(b, rem);
    ToBitsConcat(acc, n, Fill(b, rem), rem);
    BigEndianBits(Shl(acc, rem) + Fill(b, rem), len);
  }

  /** The fields before the first that does not fit. */
  function FittingPrefix(fields: seq<Field>): (p: seq<Field>)
    ensures AllFit(p) && p <= fields
    ensures |p| < |fields| ==> !fields[|p|].Fits()
  {
    if fields == [] || !fields[0].Fits() then [] else [fields[0]] + FittingPrefix(fields[1..])
  }

  lemma {:induction false} FittingPrefixIs(fields: seq<Field>, i: nat)
    requires i <= |fields| && AllFit(fields[..i]) && (i < |fields| ==> !fields[i].Fits())
    ensures FittingPrefix(fields) == fields[..i]
  {
    if i > 0 {
      var head := fields[..i];
      assert head[0] in head;
      assert fields[1..][..i - 1] == head[1..] && head == [fields[0]] + head[1..];
      FittingPrefixIs(fields[1..], i - 1);
    }
  }

  lemma AppendField(head: seq<bool>, fields: seq<Field>, i: nat)
    requires i < |fields| && AllFit(fields[..i]) && fields[i].Fits()
    ensures AllFit(fields[..i + 1])
    ensures head + FieldsBits(fields[..i + 1]) == (head + FieldsBits(fields[..i])) + fields[i].Encode()
  {
    assert fields[..i + 1] == fields[..i] + [fields[i]];
    FieldsSnoc(fields[..i], fields[i]);
    Assoc(head, FieldsBits(fields[..i]), fields[i].Encode());
  }

  lemma PrefixAppend(fields: seq<Field>, i: nat)
    requires i < |fields| && AllFit(fields[..i]) && fields[i].Fits()
    ensures AllFit(fields[..i + 1])
    ensures FieldsBits(fields[..i + 1]) == FieldsBits(fields[..i]) + fields[i].Encode()
  {
    AppendField([], fields, i);
    assert [] + FieldsBits(fields[..i + 1]) == FieldsBits(fields[..i + 1]);
    assert [] + FieldsBits(fields[..i]) == FieldsBits(fields[..i]);
  }

  /** The position at which field i begins. */
  function Start(fields: seq<Field>, i: nat): int
    requires i <= |fields|
  {
    if i == 0 then 0 else Start(fields, i - 1) + fields[i - 1].kind.width
  }

  lemma {:induction false} PrefixLength(fields: seq<Field>, i: nat)
    requires AllFit(fields) && i <= |fields|
    ensures AllFit(fields[..i]) && |FieldsBits(fields[..i])| == Start(fields, i)
  {
    if i > 0 {
      PrefixLength(fields, i - 1);
      assert fields[i - 1] in fields;
      PrefixAppend(fields, i - 1);
    }
  }

  /** The bits of field i stand at its start. */
  lemma {:induction false} FieldSlice(fields: seq<Field>, i: nat, j: nat)
    requires AllFit(fields) && i < j <= |fields|
    ensures fields[i].Fits() && AllFit(fields[..j])
    ensures var s, p, w := FieldsBits(fields[..j]), Start(fields, i), fields[i].kind.width;
            0 <= p && p + w <= |s| && s[p..p + w] == fields[i].Encode()
    decreases j
  {
    assert fields[i] in fields && fields[j - 1] in fields;
    PrefixLength(fields, j - 1);
    PrefixAppend(fields, j - 1);
    var before, last := FieldsBits(fields[..j - 1]), fields[j - 1].Encode();
    if j == i + 1 {
      assert (before + last)[|before|..] == last;
    } else {
      FieldSlice(fields, i, j - 1);
      var p, w := Start(fields, i), fields[i].kind.width;
      assert (before + last)[p..p + w] == before[p..p + w];
    }
  }

  /** The unsigned number in n bits at position p; 0 where they run past the end. */
  function At(bits: seq<bool>, p: nat, n: nat): nat
  {
    if p + n <= |bits| then FromBits(bits[p..p + n]) else 0
  }

  /** The two's-complement number there. */
  function SignedAt(bits: seq<bool>, p: nat, n: nat): int
    requires n > 0
  {
    if p + n <= |bits| then FromBitsSigned(bits[p..p + n]) else 0
  }

  lemma FieldAt(fields: seq<Field>, i: nat, p: nat, n: nat)
    requires AllFit(fields) && i < |fields| && p == Start(fields, i) && n == fields[i].kind.width && n > 0
    ensures !fields[i].kind.signed ==> At(FieldsBits(fields), p, n) == fields[i].value
    ensures fields[i].kind.signed ==> SignedAt(FieldsBits(fields), p, n) == fields[i].value
  {
    FieldSlice(fields, i, |fields|);
    assert fields[..|fields|] == fields;
    FieldRoundTrip(fields[i]);
  }

  lemma AtFront(s: seq<bool>, b: seq<bool>, p: nat, n: nat)
    requires p + n <= |s|
    ensures At(s + b, p, n) == At(s, p, n)
  {
    assert (s + b)[p..p + n] == s[p..p + n];
  }

  /** Reading inside a part of a longer string is reading the part. */
  lemma AtInside(a: seq<bool>, s: seq<bool>, b: seq<bool>, p: nat, n: nat)
    requires p + n <= |s|
    ensures At(a + s + b, |a| + p, n) == At(s, p, n)
    ensures n > 0 ==> SignedAt(a + s + b, |a| + p, n) == SignedAt(s, p, n)
  {
    assert (a + s + b)[|a| + p..|a| + p + n] == s[p..p + n];
  }

  /** Writes a list of fields in order and stops where a write raises, keeping what came before. */
  method WriteFields(w: BitWriter, fields: seq<Field>) returns (ok: bool)
    requires w.Valid()
    modifies w
    ensures w.Valid()
    ensures ok == AllFit(fields)
    ensures ok ==> w.Contents() == old(w.Contents()) + FieldsBits(fields)
    ensures w.Contents() == old(w.Contents()) + FieldsBits(FittingPrefix(fields))
  {
    assert fields[..0] == [];
    for i := 0 to |fields|
      invariant w.Valid()
      invariant AllFit(fields[..i])
      invariant w.Contents() == old(w.Contents()) + FieldsBits(fields[..i])
    {
      var f := fields[i];
      if f.kind.signed {
        ok := w.WriteSigned(f.value, f.kind.width);
      } else {
        ok := w.WriteUnsigned(f.value, f.kind.width);
      }
      if !ok {
        assert f in fields;
        FittingPrefixIs(fields, i);
        return;
      }
      AppendField(old(w.Contents()), fields, i);
    }
    assert fields[..|fields|] == fields;
    FittingPrefixIs(fields, |fields|);
    ok := true;
  }

  // ----------------------------------------------------------------- BitReader

  lemma SignBit(s: seq<bool>)
    requires s != []
    ensures s[0] <==> Shr(FromBits(s), |s| - 1) % 2 == 1
  {
    ToFromBits(s);
  }

  lemma FromBitsSnoc(stream: seq<bool>, from: nat, to: nat)
    requires from <= to < |stream|
    ensures FromBits(stream[from..to + 1]) == 2 * FromBits(stream[from..to]) + (if stream[to] then 1 else 0)
  {
    var s := stream[from..to + 1];
    assert s[..|s| - 1] == stream[from..to];
  }

  ghost function BitsValue(data: seq<byte>, from: nat, to: nat): nat
    requires from <= to <= 8 * |data|
  {
    FromBits(BytesBits(data)[from..to])
  }

  lemma ReadStep(data: seq<byte>, from: nat, to: nat)
    requires from <= to < 8 * |data|
    ensures BitsValue(data, from, to + 1) == BitsValue(data, from, to) * 2 + BitOf(data, to)
  {
    FromBitsSnoc(BytesBits(data), from, to);
  }

  class BitReader {
    const data: seq<byte>
    var pos: nat

    ghost predicate Valid()
      reads this
    {
      pos <= 8 * |data|
    }

    constructor (data: seq<byte>)
      ensures Valid() && pos == 0 && this.data == data
    {
      this.data := data;
      pos := 0;
    }

    function Remaining(): (n: nat)
      requires Valid()
      reads this
      ensures pos + n == |BytesBits(data)|
    {
      |data| * 8 - pos
    }

    method ReadUnsigned(width: int) returns (r: Result<nat>)
      requires Valid()
      modifies this
      ensures Valid()
      ensures r.Ok? <==> 1 <= width <= old(Remaining())
      ensures r.Ok? ==> pos == old(pos) + width
                        && r.value == BitsValue(data, old(pos), pos)
      ensures !r.Ok? ==> pos == old(pos)
    {
      if width < 1 { return ValueError; }
      if width > Remaining() { return ValueError; }
      var value: nat := 0;
      ghost var from := pos;
      for i := 0 to width
        invariant pos == from + i
        invariant value == BitsValue(data, from, pos)
      {
        ReadStep(data, from, pos);
        value := value * 2 + BitOf(data, pos);
        pos := pos + 1;
      }
      r := Ok(value);
    }

    method ReadSigned(width: int) returns (r: Result<int>)
      requires Valid()
      modifies this
      ensures Valid()
      ensures r.Ok? <==> 1 <= width <= old(Remaining())
      ensures r.Ok? ==> pos == old(pos) + width
                        && r.value == FromBitsSigned(BytesBits(data)[old(pos)..pos])
      ensures !r.Ok? ==> pos == old(pos)
    {
      var u := ReadUnsigned(width);
      if u.ValueError? { return ValueError; }
      var value: int := u.value;
      ghost var s := BytesBits(data)[old(pos)..pos];
      SignBit(s);
      if Shr(value, width - 1) % 2 == 1 {
        value := value - Pow2(width);
      }
      r := Ok(value);
    }
  }

  lemma ReadNext(stream: seq<bool>, pos: nat, kinds: seq<Kind>, i: nat, vs: seq<int>)
    requires pos <= |stream| && i < |kinds| && 1 <= kinds[i].width <= |stream| - pos
    ensures vs + ReadFields(stream[pos..], kinds[i..]) ==
            (vs + [kinds[i].Decode(stream[pos..pos + kinds[i].width])])
            + ReadFields(stream[pos + kinds[i].width..], kinds[i + 1..])
  {
    var rest, w := stream[pos..], kinds[i].width;
    assert rest[..w] == stream[pos..pos + w] && rest[w..] == stream[pos + w..];
    assert kinds[i..][1..] == kinds[i + 1..];
    Assoc(vs, [kinds[i].Decode(stream[pos..pos + w])], ReadFields(stream[pos + w..], kinds[i + 1..]));
  }

  method ReadField(r: BitReader, k: Kind) returns (value: Result<int>)
    requires r.Valid()
    modifies r
    ensures r.Valid()
    ensures value.Ok? <==> 1 <= k.width <= old(r.Remaining())
    ensures value.Ok? ==> r.pos == old(r.pos) + k.width
                          && value.value == k.Decode(BytesBits(r.data)[old(r.pos)..r.pos])
  {
    if k.signed {
      value := r.ReadSigned(k.width);
    } else {
      value := r.ReadUnsigned(k.width);
    }
  }

  lemma NoMore(stream: seq<bool>, pos: nat, kinds: seq<Kind>, i: nat, vs: seq<int>)
    requires pos <= |stream| && i <= |kinds|
    requires i < |kinds| ==> !(1 <= kinds[i].width <= |stream| - pos)
    ensures vs + ReadFields(stream[pos..], kinds[i..]) == vs
  {
  }

  /** Successive reads of the given kinds, up to the first that raises. */
  method ReadEach(r: BitReader, kinds: seq<Kind>) returns (vs: seq<int>)
    requires r.Valid() && r.pos == 0
    modifies r
    ensures vs == ReadFields(BytesBits(r.data), kinds)
  {
    ghost var stream := BytesBits(r.data);
    vs := [];
    assert stream[0..] == stream && kinds[0..] == kinds;
    for i := 0 to |kinds|
      invariant r.Valid()
      invariant ReadFields(stream, kinds) == vs + ReadFields(stream[r.pos..], kinds[i..])
    {
      ghost var from := r.pos;
      var value := ReadField(r, kinds[i]);
      if value.ValueError? {
        NoMore(stream, from, kinds, i, vs);
        return;
      }
      ReadNext(stream, from, kinds, i, vs);
      vs := vs + [value.value];
    }
    NoMore(stream, r.pos, kinds, |kinds|, vs);
  }

  method WriteAll(fields: seq<Field>, padBit: int) returns (bytes: seq<byte>)
    requires AllFit(fields) && (padBit == 0 || padBit == 1)
    ensures BytesBits(bytes) == FieldsBits(fields) + Repeat(padBit == 1, PadLength(|FieldsBits(fields)|))
  {
    var w := new BitWriter();
    var ok := WriteFields(w, fields);
    var r := w.ToBytes(padBit);
    bytes := r.value;
    assert [] + FieldsBits(fields) == FieldsBits(fields);
  }

  /** Main result, as one program: write any fields that fit, take the bytes with either pad bit, and
      reading the same kinds gives the values back. */
  method WriteThenRead(fields: seq<Field>, padBit: int) returns (vs: seq<int>)
    requires AllFit(fields) && (padBit == 0 || padBit == 1)
    ensures vs == Values(fields)
  {
    var bytes := WriteAll(fields, padBit);
    FieldsRoundTrip(fields, Repeat(padBit == 1, PadLength(|FieldsBits(fields)|)));
    var r := new BitReader(bytes);
    vs := ReadEach(r, Kinds(fields));
  }
}
