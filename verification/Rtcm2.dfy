/** RTCM 2.3 Type 1 and Type 3 messages as data bits (rtcm2.py). */
module Rtcm2 {
  import opened Basics
  import opened Bits
  import opened Quantise

  const PREAMBLE := 0x66
  const TYPE1 := 1
  const TYPE3 := 3
  const ECEF_SCALE := 0.01
  const ECEF_MAX := 0x7fff_ffff

  datatype Correction = Correction(prn: int, prc: real, rrc: real, iod: int, udre: int)

  datatype Ecef = Ecef(x: real, y: real, z: real)

  /** What both message types carry in their first two words. */
  datatype Header = Header(station: int, zcount: int, seqno: int, health: int) {
    predicate Valid()
    {
      0 <= station < 1024 && 0 <= zcount < 8192 && 0 <= seqno < 8 && 0 <= health < 8
    }
  }

  /** One satellite as it goes on the air; a PRN of 32 is carried as 0. */
  datatype SatRecord = SatRecord(scale: int, udre: int, prn: int, prc: int, rrc: int, iod: int) {
    predicate Valid()
    {
      && 0 <= scale < 2 && 0 <= udre < 4 && 1 <= prn <= 32 && 0 <= iod < 256
      && -32768 <= prc < 32768 && -128 <= rrc < 128
    }
  }

  // ------------------------------------------------------------------ layout

  function HeaderFields(mtype: int, h: Header, n: int): seq<Field>
  {
    [Unsigned(PREAMBLE, 8), Unsigned(mtype, 6), Unsigned(h.station, 10), Unsigned(h.zcount, 13),
     Unsigned(h.seqno, 3), Unsigned(n, 5), Unsigned(h.health, 3)]
  }

  function RecordFields(r: SatRecord): seq<Field>
  {
    [Unsigned(r.scale, 1), Unsigned(r.udre, 2), Unsigned(r.prn % 32, 5), Signed(r.prc, 16),
     Signed(r.rrc, 8), Unsigned(r.iod, 8)]
  }

  function EcefFields(x: int, y: int, z: int): seq<Field>
  {
    [Signed(x, 32), Signed(y, 32), Signed(z, 32)]
  }

  lemma Widths()
    ensures Pow2(1) == 2 && Pow2(2) == 4 && Pow2(3) == 8 && Pow2(5) == 32 && Pow2(6) == 64
    ensures Pow2(7) == 128 && Pow2(8) == 256 && Pow2(10) == 1024 && Pow2(13) == 8192
    ensures Pow2(15) == 32768 && Pow2(31) == 0x8000_0000
  {
    assert Pow2(4) == 16 && Pow2(12) == 4096;
    assert Pow2(16) == 65536 && Pow2(20) == 0x10_0000 && Pow2(24) == 0x100_0000 && Pow2(28) == 0x1000_0000;
  }

  lemma HeaderFits(mtype: int, h: Header, n: int)
    requires h.Valid() && 0 <= mtype < 64
    ensures AllFit(HeaderFields(mtype, h, n)) <==> 0 <= n < 32
  {
    Widths();
    var f := HeaderFields(mtype, h, n);
    assert f[5] in f;
  }

  lemma RecordFits(r: SatRecord)
    requires r.Valid()
    ensures AllFit(RecordFields(r))
  {
    Widths();
  }

  const HEADER_KINDS: seq<Kind> :=
    [Kind(false, 8), Kind(false, 6), Kind(false, 10), Kind(false, 13), Kind(false, 3), Kind(false, 5), Kind(false, 3)]
  const RECORD_KINDS: seq<Kind> :=
    [Kind(false, 1), Kind(false, 2), Kind(false, 5), Kind(true, 16), Kind(true, 8), Kind(false, 8)]
  const ECEF_KINDS: seq<Kind> := [Kind(true, 32), Kind(true, 32), Kind(true, 32)]

  lemma LayoutWidths()
    ensures TotalWidth(HEADER_KINDS) == 48 && TotalWidth(RECORD_KINDS) == 40 && TotalWidth(ECEF_KINDS) == 96
  {
  }

  function HeaderBits(mtype: int, h: Header, n: int): (s: seq<bool>)
    requires h.Valid() && 0 <= mtype < 64 && 0 <= n < 32
    ensures |s| == 48
  {
    var f := HeaderFields(mtype, h, n);
    HeaderFits(mtype, h, n);
    assert Kinds(f) == HEADER_KINDS;
    FieldsLength(f);
    LayoutWidths();
    FieldsBits(f)
  }

  function RecordBits(r: SatRecord): (s: seq<bool>)
    requires r.Valid()
    ensures |s| == 40
  {
    var f := RecordFields(r);
    RecordFits(r);
    assert Kinds(f) == RECORD_KINDS;
    FieldsLength(f);
    LayoutWidths();
    FieldsBits(f)
  }

  function RecordsBits(recs: seq<SatRecord>): (s: seq<bool>)
    requires forall r <- recs :: r.Valid()
    ensures |s| == 40 * |recs|
  {
    if recs == [] then []
    else
      var n := |recs| - 1;
      assert recs[n] in recs;
      RecordsBits(recs[..n]) + RecordBits(recs[n])
  }

  lemma RecordsBitsSnoc(recs: seq<SatRecord>, r: SatRecord)
    requires (forall q <- recs :: q.Valid()) && r.Valid()
    ensures (forall q <- recs + [r] :: q.Valid())
    ensures RecordsBits(recs + [r]) == RecordsBits(recs) + RecordBits(r)
  {
    assert (recs + [r])[..|recs|] == recs;
  }

  // ------------------------------------------------------------------- Type 1

  predicate CorrectionValid(c: Correction)
  {
    1 <= c.prn <= 32 && 0 <= c.udre < 4 && 0 <= c.iod < 256
  }

  function RecordOf(c: Correction): (r: SatRecord)
    ensures CorrectionValid(c) ==> r.Valid()
  {
    var (scale, prc, rrc) := EncodePrcRrc(c.prc, c.rrc);
    SatRecord(scale, c.udre, c.prn, prc, rrc, c.iod)
  }

  function RecordsOf(cs: seq<Correction>): (rs: seq<SatRecord>)
    ensures |rs| == |cs| && forall i :: 0 <= i < |cs| ==> rs[i] == RecordOf(cs[i])
  {
    seq(|cs|, i requires 0 <= i < |cs| => RecordOf(cs[i]))
  }

  /** ceil(nbits / 24) */
  function DataWords(nbits: nat): (n: nat)
    ensures 24 * n - 24 < nbits <= 24 * n
  {
    (nbits + 23) / 24
  }

  predicate AllValid(cs: seq<Correction>)
  {
    forall c <- cs :: CorrectionValid(c)
  }

  /** The calls that do not raise: in-range fields and at most 18 satellites. */
  predicate Type1Accepted(h: Header, cs: seq<Correction>)
  {
    h.Valid() && AllValid(cs) && |cs| <= 18
  }

  lemma WholeWords(k: nat)
    ensures 24 * k % 24 == 0
  {
  }

  function FillLength(n: nat): (f: nat)
    ensures f < 24 && (40 * n + f) == 24 * DataWords(40 * n)
  {
    24 * DataWords(40 * n) - 40 * n
  }

  lemma ValidRecords(cs: seq<Correction>)
    requires AllValid(cs)
    ensures forall r <- RecordsOf(cs) :: r.Valid()
  {
    forall r | r in RecordsOf(cs) ensures r.Valid() {
      var i :| 0 <= i < |cs| && RecordsOf(cs)[i] == r;
      assert cs[i] in cs;
    }
  }

  /** Header, then one 40-bit record per satellite, then zero fill to a whole number of words. */
  function Type1Bits(h: Header, cs: seq<Correction>): (s: seq<bool>)
    requires Type1Accepted(h, cs)
    ensures |s| == 48 + 24 * DataWords(40 * |cs|) && |s| % 24 == 0
  {
    ValidRecords(cs);
    WholeWords(2 + DataWords(40 * |cs|));
    HeaderBits(TYPE1, h, DataWords(40 * |cs|)) + RecordsBits(RecordsOf(cs)) + Repeat(false, FillLength(|cs|))
  }

  // -------------------------------------------------- what stands at each bit position

  /** The two header words, field by field. */
  predicate HeaderAt(bits: seq<bool>, mtype: int, h: Header, n: int)
  {
    && |bits| >= 48 && At(bits, 0, 8) == 0x66 && At(bits, 8, 6) == mtype && At(bits, 14, 10) == h.station
    && At(bits, 24, 13) == h.zcount && At(bits, 37, 3) == h.seqno && At(bits, 40, 5) == n && At(bits, 45, 3) == h.health
  }

  /** The satellite record at position p; a PRN of 0 stands for 32. */
  function RecordAt(bits: seq<bool>, p: nat): SatRecord
  {
    var prn := At(bits, p + 3, 5);
    SatRecord(At(bits, p, 1), At(bits, p + 1, 2), if prn == 0 then 32 else prn,
              SignedAt(bits, p + 8, 16), SignedAt(bits, p + 24, 8), At(bits, p + 32, 8))
  }

  /** n counts of lsb are x to the nearest count, halves to the even one; beyond the range they are the
      largest magnitude with the sign of x. */
  predicate Counted(n: int, x: real, lsb: real, max: int)
  {
    && -max <= n <= max
    && if Abs(x) < (max as real + 0.5) * lsb
       then Abs(n as real * lsb - x) <= lsb / 2.0 && (Abs(n as real * lsb - x) == lsb / 2.0 ==> n % 2 == 0)
       else n == if x > 0.0 then max else -max
  }

  /** A record carries a correction: its own satellite, UDRE and issue of data, fine scale exactly when
      both fields fit it, and both fields to the nearest count of 0.02 m and 0.002 m/s, or 0.32 m and
      0.032 m/s. */
  predicate Carries(r: SatRecord, c: Correction)
  {
    && r.prn == c.prn && r.udre == c.udre && r.iod == c.iod && (r.scale == 0 || r.scale == 1)
    && (r.scale == 0 <==> Abs(c.prc) < 655.35 && Abs(c.rrc) < 0.255)
    && Counted(r.prc, c.prc, if r.scale == 0 then 0.02 else 0.32, 32767)
    && Counted(r.rrc, c.rrc, if r.scale == 0 then 0.002 else 0.032, 127)
  }

  /** From position p on, 40 bits for each correction. */
  predicate RecordsAt(bits: seq<bool>, p: nat, cs: seq<Correction>)
  {
    p + 40 * |cs| <= |bits| && forall k :: 0 <= k < |cs| ==> Carries(RecordAt(bits, p + 40 * k), cs[k])
  }

  /** A Type 1: header, one record for each correction, zero fill to the end of the last word. */
  predicate Type1At(bits: seq<bool>, h: Header, cs: seq<Correction>)
  {
    var n := (|bits| - 48) / 24;
    && |bits| == 48 + 24 * n && 24 * n - 24 < 40 * |cs| <= 24 * n
    && HeaderAt(bits, 1, h, n) && RecordsAt(bits, 48, cs)
    && forall p :: 48 + 40 * |cs| <= p < |bits| ==> !bits[p]
  }

  /** Centimetres to the nearest, halves to the even one. */
  predicate Centimetres(n: int, x: real)
  {
    Abs(n as real * 0.01 - x) <= 0.005 && (Abs(n as real * 0.01 - x) == 0.005 ==> n % 2 == 0)
  }

  predicate EcefAt(bits: seq<bool>, p: nat, e: Ecef)
  {
    && p + 96 <= |bits| && Centimetres(SignedAt(bits, p, 32), e.x)
    && Centimetres(SignedAt(bits, p + 32, 32), e.y) && Centimetres(SignedAt(bits, p + 64, 32), e.z)
  }

  /** A Type 3: header and the position, in six words. */
  predicate Type3At(bits: seq<bool>, h: Header, e: Ecef)
  {
    |bits| == 144 && HeaderAt(bits, 3, h, 4) && EcefAt(bits, 48, e)
  }

  lemma HeaderReads(mtype: int, h: Header, n: int)
    requires h.Valid() && 0 <= mtype < 64 && 0 <= n < 32
    ensures HeaderAt(HeaderBits(mtype, h, n), mtype, h, n)
  {
    var f := HeaderFields(mtype, h, n);
    HeaderFits(mtype, h, n);
    assert Start(f, 1) == 8;
    assert Start(f, 2) == 14;
    assert Start(f, 3) == 24;
    assert Start(f, 4) == 37;
    assert Start(f, 5) == 40;
    assert Start(f, 6) == 45;
    FieldAt(f, 0, 0, 8);
    FieldAt(f, 1, 8, 6);
    FieldAt(f, 2, 14, 10);
    FieldAt(f, 3, 24, 13);
    FieldAt(f, 4, 37, 3);
    FieldAt(f, 5, 40, 5);
    FieldAt(f, 6, 45, 3);
  }

  lemma HeaderAhead(mtype: int, h: Header, n: int, more: seq<bool>)
    requires h.Valid() && 0 <= mtype < 64 && 0 <= n < 32
    ensures HeaderAt(HeaderBits(mtype, h, n) + more, mtype, h, n)
  {
    var s := HeaderBits(mtype, h, n);
    HeaderReads(mtype, h, n);
    AtFront(s, more, 0, 8);
    AtFront(s, more, 8, 6);
    AtFront(s, more, 14, 10);
    AtFront(s, more, 24, 13);
    AtFront(s, more, 37, 3);
    AtFront(s, more, 40, 5);
    AtFront(s, more, 45, 3);
  }

  lemma RecordReads(r: SatRecord)
    requires r.Valid()
    ensures RecordAt(RecordBits(r), 0) == r
  {
    var f := RecordFields(r);
    RecordFits(r);
    assert Start(f, 1) == 1;
    assert Start(f, 2) == 3;
    assert Start(f, 3) == 8;
    assert Start(f, 4) == 24;
    assert Start(f, 5) == 32;
    FieldAt(f, 0, 0, 1);
    FieldAt(f, 1, 1, 2);
    FieldAt(f, 2, 3, 5);
    FieldAt(f, 3, 8, 16);
    FieldAt(f, 4, 24, 8);
    FieldAt(f, 5, 32, 8);
  }

  lemma RecordInside(a: seq<bool>, s: seq<bool>, b: seq<bool>, p: nat)
    requires p + 40 <= |s|
    ensures RecordAt(a + s + b, |a| + p) == RecordAt(s, p)
  {
    AtInside(a, s, b, p, 1);
    AtInside(a, s, b, p + 1, 2);
    AtInside(a, s, b, p + 3, 5);
    AtInside(a, s, b, p + 8, 16);
    AtInside(a, s, b, p + 24, 8);
    AtInside(a, s, b, p + 32, 8);
  }

  lemma RecordInFront(a: seq<bool>, b: seq<bool>, p: nat)
    requires p + 40 <= |a|
    ensures RecordAt(a + b, p) == RecordAt(a, p)
  {
    RecordInside([], a, b, p);
    assert [] + a + b == a + b;
  }

  lemma RecordBehind(a: seq<bool>, b: seq<bool>)
    requires |b| == 40
    ensures RecordAt(a + b, |a|) == RecordAt(b, 0)
  {
    RecordInside(a, b, [], 0);
    assert a + b + [] == a + b;
  }

  lemma {:induction false} RecordsRead(recs: seq<SatRecord>, k: nat)
    requires (forall r <- recs :: r.Valid()) && k < |recs|
    ensures RecordAt(RecordsBits(recs), 40 * k) == recs[k]
  {
    var n := |recs| - 1;
    assert recs[n] in recs && recs == recs[..n] + [recs[n]];
    RecordsBitsSnoc(recs[..n], recs[n]);
    if k == n {
      RecordReads(recs[n]);
      RecordBehind(RecordsBits(recs[..n]), RecordBits(recs[n]));
    } else {
      RecordsRead(recs[..n], k);
      RecordInFront(RecordsBits(recs[..n]), RecordBits(recs[n]), 40 * k);
    }
  }

  // Faithful in LSBs is faithful in metres.

  lemma FinePrcCounted(x: real, n: int)
    requires -32767 <= n <= 32767 && FieldFaithful(x / 0.02, n, 32767, 0)
    requires Abs(x) < 655.35
    ensures Counted(n, x, 0.02, 32767)
  {
  }

  lemma CoarsePrcCounted(x: real, n: int)
    requires -32767 <= n <= 32767 && FieldFaithful(x / 0.32, n, 32767, 1)
    ensures Counted(n, x, 0.32, 32767)
  {
  }

  lemma FineRrcCounted(x: real, n: int)
    requires -127 <= n <= 127 && FieldFaithful(x / 0.002, n, 127, 0)
    requires Abs(x) < 0.255
    ensures Counted(n, x, 0.002, 127)
  {
  }

  lemma CoarseRrcCounted(x: real, n: int)
    requires -127 <= n <= 127 && FieldFaithful(x / 0.032, n, 127, 1)
    ensures Counted(n, x, 0.032, 127)
  {
  }

  lemma FieldsCounted(prc: real, rrc: real)
    ensures var (s, p, r) := EncodePrcRrc(prc, rrc);
            && (s == 0 <==> Abs(prc) < 655.35 && Abs(rrc) < 0.255)
            && Counted(p, prc, if s == 0 then 0.02 else 0.32, 32767)
            && Counted(r, rrc, if s == 0 then 0.002 else 0.032, 127)
  {
    var (s, p, r) := EncodePrcRrc(prc, rrc);
    FineExactlyWhenBothFit(prc, rrc);
    NoSentinel(prc, rrc);
    QuantiserFaithful(prc, rrc);
    if s == 0 {
      FinePrcCounted(prc, p);
      FineRrcCounted(rrc, r);
    } else {
      CoarsePrcCounted(prc, p);
      CoarseRrcCounted(rrc, r);
    }
  }

  /** The record made of a correction carries it. */
  lemma RecordCarries(c: Correction)
    ensures Carries(RecordOf(c), c)
  {
    FieldsCounted(c.prc, c.rrc);
    FineExactlyWhenBothFit(c.prc, c.rrc);
  }

  lemma OneRecordRead(a: seq<bool>, s: seq<bool>, b: seq<bool>, p: nat, r: SatRecord, c: Correction)
    requires p + 40 <= |s| && RecordAt(s, p) == r == RecordOf(c)
    ensures Carries(RecordAt(a + s + b, |a| + p), c)
  {
    RecordCarries(c);
    RecordInside(a, s, b, p);
  }

  predicate StandsAt(s: seq<bool>, recs: seq<SatRecord>, k: nat)
    requires k < |recs|
  {
    RecordAt(s, 40 * k) == recs[k]
  }

  lemma RecordsStand(a: seq<bool>, s: seq<bool>, b: seq<bool>, recs: seq<SatRecord>, cs: seq<Correction>)
    requires |recs| == |cs| && |s| == 40 * |cs| && forall k :: 0 <= k < |cs| ==> recs[k] == RecordOf(cs[k])
    requires forall k :: 0 <= k < |cs| ==> StandsAt(s, recs, k)
    ensures RecordsAt(a + s + b, |a|, cs)
  {
    forall k | 0 <= k < |cs| ensures Carries(RecordAt(a + s + b, |a| + 40 * k), cs[k]) {
      assert StandsAt(s, recs, k);
      OneRecordRead(a, s, b, 40 * k, recs[k], cs[k]);
    }
  }

  lemma AllRecordsRead(a: seq<bool>, cs: seq<Correction>, b: seq<bool>)
    requires AllValid(cs)
    ensures (ValidRecords(cs); RecordsAt(a + RecordsBits(RecordsOf(cs)) + b, |a|, cs))
  {
    ValidRecords(cs);
    var recs, s := RecordsOf(cs), RecordsBits(RecordsOf(cs));
    forall k | 0 <= k < |cs| ensures StandsAt(s, recs, k) { RecordsRead(recs, k); }
    RecordsStand(a, s, b, recs, cs);
  }

  lemma RecordsReadAlone(cs: seq<Correction>)
    requires AllValid(cs)
    ensures (ValidRecords(cs); RecordsAt(RecordsBits(RecordsOf(cs)), 0, cs))
  {
    AllRecordsRead([], cs, []);
    ValidRecords(cs);
    var s := RecordsBits(RecordsOf(cs));
    assert [] + s + [] == s;
  }

  /** Main result: an accepted Type 1 reads, position by position, as its header and corrections. */
  lemma Type1Reads(h: Header, cs: seq<Correction>)
    requires Type1Accepted(h, cs)
    ensures Type1At(Type1Bits(h, cs), h, cs)
  {
    var n := DataWords(40 * |cs|);
    ValidRecords(cs);
    var head, body, fill := HeaderBits(TYPE1, h, n), RecordsBits(RecordsOf(cs)), Repeat(false, FillLength(|cs|));
    HeaderAhead(TYPE1, h, n, body + fill);
    Assoc(head, body, fill);
    AllRecordsRead(head, cs, fill);
    FillReads(head + body, fill);
  }

  lemma FillReads(a: seq<bool>, fill: seq<bool>)
    requires forall i :: 0 <= i < |fill| ==> !fill[i]
    ensures forall p :: |a| <= p < |a + fill| ==> !(a + fill)[p]
  {
  }

  /** The 24-bit words of a message, in order. */
  function WordsBits(ws: seq<int>): (s: seq<bool>)
    ensures |s| == 24 * |ws| && |s| % 24 == 0
  {
    WholeWords(|ws|);
    if ws == [] then [] else WordsBits(ws[..|ws| - 1]) + ToBits(ws[|ws| - 1], 24)
  }

  method CopyBit(from: BitReader, to: BitWriter)
    requires from.Valid() && to.Valid() && from.Remaining() > 0
    modifies from, to
    ensures from.Valid() && to.Valid() && from.pos == old(from.pos) + 1
    ensures to.Contents() == old(to.Contents()) + [BytesBits(from.data)[old(from.pos)]]
  {
    SingleBit(BytesBits(from.data), from.pos);
    var bit := from.ReadUnsigned(1);
    var ok := to.WriteUnsigned(bit.value, 1);
  }

  lemma SingleBit(s: seq<bool>, p: nat)
    requires p < |s|
    ensures FitsUnsigned(FromBits(s[p..p + 1]), 1) && ToBits(FromBits(s[p..p + 1]), 1) == [s[p]]
  {
    var t := s[p..p + 1];
    FromBitsBound(t);
    ToFromBits(t);
    assert t == [s[p]];
  }

  method CopyBits(from: BitReader, to: BitWriter, n: nat)
    requires from.Valid() && to.Valid() && from.pos == 0 && n <= from.Remaining()
    modifies from, to
    ensures from.Valid() && to.Valid() && from.pos == n
    ensures to.Contents() == old(to.Contents()) + BytesBits(from.data)[..n]
  {
    ghost var stream := BytesBits(from.data);
    for i := 0 to n
      invariant from.Valid() && to.Valid() && from.pos == i
      invariant to.Contents() == old(to.Contents()) + stream[..i]
    {
      CopyBit(from, to);
      assert stream[..i + 1] == stream[..i] + [stream[i]];
    }
  }

  /** BitReader(w.to_bytes()) */
  method Reopen(w: BitWriter) returns (reader: BitReader)
    requires w.Valid()
    ensures fresh(reader) && reader.Valid() && reader.pos == 0
    ensures w.nbits <= |BytesBits(reader.data)| && BytesBits(reader.data)[..w.nbits] == w.Contents()
  {
    var bytes := w.ToBytes(0);
    reader := new BitReader(bytes.value);
  }

  /** Everything one writer holds, appended to another one bit at a time. */
  method CopyAll(from: BitWriter, to: BitWriter)
    requires from.Valid() && to.Valid() && from != to
    modifies to
    ensures to.Valid() && to.Contents() == old(to.Contents()) + from.Contents()
  {
    var reader := Reopen(from);
    CopyBits(reader, to, from.nbits);
  }

  /** [reader.read_unsigned(24) for _ in range(count)] over what a writer holds. */
  method ReadDataWords(w: BitWriter, count: nat) returns (ws: seq<int>)
    requires w.Valid() && w.nbits == 24 * count
    ensures |ws| == count && WordsBits(ws) == w.Contents()
  {
    var reader := Reopen(w);
    ghost var s := BytesBits(reader.data);
    ws := [];
    for i := 0 to count
      invariant reader.Valid() && BytesBits(reader.data) == s && reader.pos == 24 * i
      invariant |ws| == i && WordsBits(ws) == s[..24 * i]
    {
      var word := reader.ReadUnsigned(24);
      WordsBitsSnoc(ws, word.value, s, 24 * i);
      ws := ws + [word.value];
    }
  }

  lemma WordsBitsSnoc(ws: seq<int>, v: nat, s: seq<bool>, p: nat)
    requires p + 24 <= |s| && WordsBits(ws) == s[..p] && v == FromBits(s[p..p + 24])
    ensures WordsBits(ws + [v]) == s[..p + 24]
  {
    ToFromBits(s[p..p + 24]);
    assert (ws + [v])[..|ws|] == ws;
    assert s[..p + 24] == s[..p] + s[p..p + 24];
  }

  method PackRecords(cs: seq<Correction>) returns (r: Result<BitWriter>)
    ensures r.Ok? <==> AllValid(cs)
    ensures r.Ok? ==> fresh(r.value) && r.value.Valid()
    ensures r.Ok? ==> (ValidRecords(cs); r.value.Contents() == RecordsBits(RecordsOf(cs)))
    ensures r.Ok? ==> RecordsAt(r.value.Contents(), 0, cs)
  {
    var sat := new BitWriter();
    for i := 0 to |cs|
      invariant fresh(sat) && sat.Valid() && AllValid(cs[..i])
      invariant (ValidRecords(cs[..i]); sat.Contents() == RecordsBits(RecordsOf(cs[..i])))
    {
      var c := cs[i];
      if !CorrectionValid(c) {
        assert c in cs;
        return ValueError;
      }
      var rec := RecordOf(c);
      RecordFits(rec);
      var ok := WriteFields(sat, RecordFields(rec));
      assert cs[..i + 1] == cs[..i] + [c];
      RecordsOfSnoc(cs[..i], c);
    }
    assert cs[..|cs|] == cs;
    RecordsReadAlone(cs);
    r := Ok(sat);
  }

  lemma RecordsOfSnoc(cs: seq<Correction>, c: Correction)
    requires AllValid(cs) && CorrectionValid(c)
    ensures AllValid(cs + [c])
    ensures (ValidRecords(cs); ValidRecords(cs + [c]);
             RecordsBits(RecordsOf(cs + [c])) == RecordsBits(RecordsOf(cs)) + RecordBits(RecordOf(c)))
  {
    ValidRecords(cs);
    ValidRecords(cs + [c]);
    assert RecordsOf(cs + [c]) == RecordsOf(cs) + [RecordOf(c)];
    RecordsBitsSnoc(RecordsOf(cs), RecordOf(c));
  }

  method PackType1Body(h: Header, cs: seq<Correction>) returns (r: Result<seq<int>>)
    ensures r.Ok? <==> Type1Accepted(h, cs)
    ensures r.Ok? ==> WordsBits(r.value) == Type1Bits(h, cs) && Type1At(WordsBits(r.value), h, cs)
  {
    if !h.Valid() { return ValueError; }
    var packed := PackRecords(cs);
    if packed.ValueError? { return ValueError; }
    var sat := packed.value;
    ValidRecords(cs);
    assert sat.nbits == 40 * |cs|;
    var nWords := DataWords(sat.nbits);
    var hdr := new BitWriter();
    HeaderFits(TYPE1, h, nWords);
    var ok := WriteFields(hdr, HeaderFields(TYPE1, h, nWords));
    if !ok { return ValueError; }
    assert hdr.Contents() == HeaderBits(TYPE1, h, nWords);
    var words := Assemble(hdr, sat, nWords);
    Type1Reads(h, cs);
    r := Ok(words);
  }

  /** Header and records one bit at a time, zero fill, then out again as 24-bit words. */
  method Assemble(hdr: BitWriter, sat: BitWriter, nWords: nat) returns (words: seq<int>)
    requires hdr.Valid() && sat.Valid() && hdr.nbits == 48 && sat.nbits <= 24 * nWords
    ensures WordsBits(words) ==
            hdr.Contents() + sat.Contents() + Repeat(false, 24 * nWords - sat.nbits)
  {
    var totalBits := 48 + nWords * 24;
    assert totalBits / 24 == nWords + 2 && totalBits == 24 * (nWords + 2);
    var stream := new BitWriter();
    CopyAll(hdr, stream);
    CopyAll(sat, stream);
    FillZeros(stream, totalBits);
    words := ReadDataWords(stream, totalBits / 24);
  }

  /** Fill bits, ignored by decoders. */
  method FillZeros(stream: BitWriter, totalBits: nat)
    requires stream.Valid() && stream.nbits <= totalBits
    modifies stream
    ensures stream.Valid()
    ensures stream.Contents() == old(stream.Contents()) + Repeat(false, totalBits - old(stream.nbits))
  {
    ghost var before := stream.nbits;
    while stream.nbits < totalBits
      invariant stream.Valid() && before <= stream.nbits <= totalBits
      invariant stream.Contents() == old(stream.Contents()) + Repeat(false, stream.nbits - before)
    {
      ghost var n := stream.nbits;
      var ok := stream.WriteUnsigned(0, 1);
      assert Pow2(1) == 2;
      assert ToBits(0, 1) == [false];
      assert Repeat(false, n + 1 - before) == Repeat(false, n - before) + [false];
    }
  }

  // ------------------------------------------------------------------- Type 3

  function EcefCounts(coord: real): int { RoundHalfEven(coord / ECEF_SCALE) }

  predicate CoordFits(coord: real)
  {
    -ECEF_MAX - 1 <= EcefCounts(coord) <= ECEF_MAX
  }

  /** The metres whose nearest count, half to even, fits 32 bits. */
  predicate InReach(coord: real) { -21474836.485 <= coord < 21474836.475 }

  lemma CoordFitsExactly(coord: real)
    ensures CoordFits(coord) <==> InReach(coord)
  {
  }

  predicate Type3Accepted(h: Header, ecef: Ecef)
  {
    h.Valid() && CoordFits(ecef.x) && CoordFits(ecef.y) && CoordFits(ecef.z)
  }

  function EcefBits(ecef: Ecef): (s: seq<bool>)
    requires CoordFits(ecef.x) && CoordFits(ecef.y) && CoordFits(ecef.z)
    ensures |s| == 96
  {
    Widths();
    var f := EcefFields(EcefCounts(ecef.x), EcefCounts(ecef.y), EcefCounts(ecef.z));
    assert Kinds(f) == ECEF_KINDS;
    FieldsLength(f);
    LayoutWidths();
    FieldsBits(f)
  }

  function Type3Bits(h: Header, ecef: Ecef): (s: seq<bool>)
    requires Type3Accepted(h, ecef)
    ensures |s| == 144
  {
    HeaderBits(TYPE3, h, 4) + EcefBits(ecef)
  }

  method WriteCoord(stream: BitWriter, coord: real) returns (ok: bool)
    requires stream.Valid()
    modifies stream
    ensures stream.Valid() && ok == CoordFits(coord)
    ensures ok ==> stream.Contents() == old(stream.Contents()) + ToBits(EcefCounts(coord), 32)
  {
    var counts := RoundHalfEven(coord / ECEF_SCALE);
    if !(-ECEF_MAX - 1 <= counts <= ECEF_MAX) { return false; }
    Widths();
    ok := stream.WriteSigned(counts, 32);
  }

  method WriteEcef(stream: BitWriter, ecef: Ecef) returns (ok: bool)
    requires stream.Valid()
    modifies stream
    ensures stream.Valid()
    ensures ok <==> CoordFits(ecef.x) && CoordFits(ecef.y) && CoordFits(ecef.z)
    ensures ok <==> InReach(ecef.x) && InReach(ecef.y) && InReach(ecef.z)
    ensures ok ==> stream.Contents() == old(stream.Contents()) + EcefBits(ecef)
    ensures ok ==> EcefAt(stream.Contents(), old(stream.nbits), ecef)
  {
    var coords := [ecef.x, ecef.y, ecef.z];
    ghost var fields := EcefFields(EcefCounts(ecef.x), EcefCounts(ecef.y), EcefCounts(ecef.z));
    ghost var head := stream.Contents();
    EcefFits(ecef);
    CoordFitsExactly(ecef.x);
    CoordFitsExactly(ecef.y);
    CoordFitsExactly(ecef.z);
    for i := 0 to 3
      invariant stream.Valid() && AllFit(fields[..i])
      invariant stream.Contents() == head + FieldsBits(fields[..i])
    {
      ok := WriteCoord(stream, coords[i]);
      CoordField(coords[i]);
      assert fields[i] == Signed(EcefCounts(coords[i]), 32) && fields[i] in fields;
      if !ok { return; }
      AppendField(head, fields, i);
    }
    assert fields[..3] == fields;
    EcefBehind(head, ecef);
    ok := true;
  }

  lemma EcefReads(e: Ecef)
    requires CoordFits(e.x) && CoordFits(e.y) && CoordFits(e.z)
    ensures EcefAt(EcefBits(e), 0, e)
  {
    var f := EcefFields(EcefCounts(e.x), EcefCounts(e.y), EcefCounts(e.z));
    EcefFits(e);
    assert Start(f, 1) == 32;
    assert Start(f, 2) == 64;
    FieldAt(f, 0, 0, 32);
    FieldAt(f, 1, 32, 32);
    FieldAt(f, 2, 64, 32);
  }

  lemma EcefBehind(a: seq<bool>, e: Ecef)
    requires CoordFits(e.x) && CoordFits(e.y) && CoordFits(e.z)
    ensures EcefAt(a + EcefBits(e), |a|, e)
  {
    var s := EcefBits(e);
    EcefReads(e);
    AtInside(a, s, [], 0, 32);
    AtInside(a, s, [], 32, 32);
    AtInside(a, s, [], 64, 32);
    assert a + s + [] == a + s;
  }

  /** Main result: an accepted Type 3 reads, position by position, as its header and coordinates. */
  lemma Type3Reads(h: Header, e: Ecef)
    requires Type3Accepted(h, e)
    ensures Type3At(Type3Bits(h, e), h, e)
  {
    HeaderAhead(TYPE3, h, 4, EcefBits(e));
    EcefBehind(HeaderBits(TYPE3, h, 4), e);
  }

  lemma CoordField(coord: real)
    ensures Signed(EcefCounts(coord), 32).Fits() <==> CoordFits(coord)
  {
    Widths();
  }

  lemma EcefFits(ecef: Ecef)
    ensures AllFit(EcefFields(EcefCounts(ecef.x), EcefCounts(ecef.y), EcefCounts(ecef.z))) <==>
            CoordFits(ecef.x) && CoordFits(ecef.y) && CoordFits(ecef.z)
  {
    CoordField(ecef.x);
    CoordField(ecef.y);
    CoordField(ecef.z);
    var f := EcefFields(EcefCounts(ecef.x), EcefCounts(ecef.y), EcefCounts(ecef.z));
    assert f[0] in f && f[1] in f && f[2] in f;
  }

  method PackType3Body(h: Header, ecef: Ecef) returns (r: Result<seq<int>>)
    ensures r.Ok? <==> Type3Accepted(h, ecef)
    ensures r.Ok? <==> h.Valid() && InReach(ecef.x) && InReach(ecef.y) && InReach(ecef.z)
    ensures r.Ok? ==> WordsBits(r.value) == Type3Bits(h, ecef) && Type3At(WordsBits(r.value), h, ecef)
  {
    CoordFitsExactly(ecef.x);
    CoordFitsExactly(ecef.y);
    CoordFitsExactly(ecef.z);
    if !h.Valid() { return ValueError; }
    var stream := new BitWriter();
    HeaderFits(TYPE3, h, 4);
    var ok := WriteFields(stream, HeaderFields(TYPE3, h, 4));
    assert stream.Contents() == HeaderBits(TYPE3, h, 4);
    ok := WriteEcef(stream, ecef);
    if !ok { return ValueError; }
    var words := ReadDataWords(stream, 6);
    Type3Reads(h, ecef);
    r := Ok(words);
  }
}
