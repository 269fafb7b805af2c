/** A word-aligned receiver, and the proof that it undoes the encoder over whole streams. */
module Decoder {
  import opened Basics
  import opened Bits
  import opened Parity
  import opened Rtcm2
  import opened Encoder

  datatype Message =
    | Type1(h: Header, sats: seq<SatRecord>)
    | Type3(h: Header, x: int, y: int, z: int)

  // ------------------------------------------------------------------ receiver

  /** (message type, header, number of data words); None without the preamble. */
  function ParseHeader(bits: seq<bool>): Option<(int, Header, int)>
  {
    var v := ReadFields(bits, HEADER_KINDS);
    if |v| != 7 || v[0] != PREAMBLE then None
    else Some((v[1], Header(v[2], v[3], v[4], v[6]), v[5]))
  }

  function ParseRecord(bits: seq<bool>): Option<SatRecord>
  {
    var v := ReadFields(bits, RECORD_KINDS);
    if |v| != 6 then None
    else Some(SatRecord(v[0], v[1], if v[2] == 0 then 32 else v[2], v[3], v[4], v[5]))
  }

  /** 40-bit records while they fit. */
  function ParseRecords(body: seq<bool>): seq<SatRecord>
    decreases |body|
  {
    if |body| < 40 then []
    else match ParseRecord(body[..40])
      case None => []
      case Some(r) => [r] + ParseRecords(body[40..])
  }

  function ParseBody(mtype: int, h: Header, body: seq<bool>): Option<Message>
  {
    if mtype == TYPE3 then
      var v := ReadFields(body, ECEF_KINDS);
      if |v| == 3 then Some(Type3(h, v[0], v[1], v[2])) else None
    else if mtype == TYPE1 then Some(Type1(h, ParseRecords(body)))
    else None
  }

  /** Cuts data words into messages: two header words, then as many as the header counts. */
  function SplitMessages(data: seq<bool>): Option<seq<Message>>
    decreases |data|
  {
    if data == [] then Some([])
    else if |data| < 48 then None
    else match ParseHeader(data[..48])
      case None => None
      case Some((mtype, h, n)) =>
        if n < 0 || |data| < 48 + 24 * n then None
        else match (ParseBody(mtype, h, data[48..48 + 24 * n]), SplitMessages(data[48 + 24 * n..]))
          case (Some(m), Some(ms)) => Some([m] + ms)
          case _ => None
  }

  function Join(words: seq<Option<seq<bool>>>): seq<bool>
  {
    if words == [] then []
    else (match words[0] case None => [] case Some(w) => w) + Join(words[1..])
  }

  /** None at the first parity violation or malformed message. */
  function DecodeStream(bytes: seq<byte>, seed: (bool, bool)): Option<seq<Message>>
  {
    var words := DecodeEach([seed.0, seed.1] + Deframe(bytes));
    if None in words then None else SplitMessages(Join(words))
  }

  // --------------------------------------------------------------- encoder runs

  datatype Call = SendType1(h: Header, cs: seq<Correction>) | SendType3(h: Header, ecef: Ecef) {
    predicate Accepted()
    {
      match this
      case SendType1(h, cs) => Type1Accepted(h, cs)
      case SendType3(h, ecef) => Type3Accepted(h, ecef)
    }

    function Bits(): (s: seq<bool>)
      requires Accepted()
      ensures |s| % 24 == 0 && |s| >= 48
    {
      match this
      case SendType1(h, cs) => Type1Bits(h, cs)
      case SendType3(h, ecef) => Type3Bits(h, ecef)
    }

    /** What a receiver should make of the call. */
    function Meaning(): Message
    {
      match this
      case SendType1(h, cs) => Type1(h, RecordsOf(cs))
      case SendType3(h, e) => Type3(h, EcefCounts(e.x), EcefCounts(e.y), EcefCounts(e.z))
    }
  }

  /** Bytes returned and seed kept by one encoder over a list of calls; a call that raises
      returns nothing and keeps the seed. */
  function Run(calls: seq<Call>, seed: (bool, bool)): (r: (seq<byte>, (bool, bool)))
  {
    if calls == [] then ([], seed)
    else if !calls[0].Accepted() then Run(calls[1..], seed)
    else
      var (rest, left) := Run(calls[1..], SeedLeft(calls[0].Bits(), seed));
      (Wire(calls[0].Bits(), seed) + rest, left)
  }

  /** The calls that did not raise. */
  function Kept(calls: seq<Call>): (ks: seq<Call>)
    ensures forall c <- ks :: c.Accepted()
  {
    if calls == [] then []
    else if calls[0].Accepted() then [calls[0]] + Kept(calls[1..])
    else Kept(calls[1..])
  }

  function Meanings(calls: seq<Call>): (ms: seq<Message>)
    ensures |ms| == |calls| && forall i :: 0 <= i < |calls| ==> ms[i] == calls[i].Meaning()
  {
    seq(|calls|, i requires 0 <= i < |calls| => calls[i].Meaning())
  }

  /** All data words of a list of accepted calls. */
  function KeptBits(calls: seq<Call>): (s: seq<bool>)
    requires forall c <- calls :: c.Accepted()
    ensures |s| % 24 == 0
  {
    if calls == [] then []
    else
      assert calls[0] in calls;
      var head, tail := calls[0].Bits(), KeptBits(calls[1..]);
      WholeSum(|head|, |tail|);
      head + tail
  }

  lemma WholeSum(a: nat, b: nat)
    requires a % 24 == 0 && b % 24 == 0
    ensures (a + b) % 24 == 0
  {
  }

  lemma {:induction false} RunIsOneChain(calls: seq<Call>, seed: (bool, bool))
    ensures Run(calls, seed) == (Wire(KeptBits(Kept(calls)), seed), SeedLeft(KeptBits(Kept(calls)), seed))
    decreases |calls|
  {
    if calls != [] {
      var c, rest := calls[0], calls[1..];
      if c.Accepted() {
        RunIsOneChain(rest, SeedLeft(c.Bits(), seed));
        WireAppend(c.Bits(), KeptBits(Kept(rest)), seed);
        KeptBitsCons(c, Kept(rest));
      } else {
        RunIsOneChain(rest, seed);
      }
    }
  }

  lemma KeptBitsCons(c: Call, rest: seq<Call>)
    requires c.Accepted() && forall d <- rest :: d.Accepted()
    ensures (forall d <- [c] + rest :: d.Accepted()) && KeptBits([c] + rest) == c.Bits() + KeptBits(rest)
  {
    assert ([c] + rest)[1..] == rest;
  }

  // ------------------------------------------------------------- reading back

  lemma HeaderBack(mtype: int, h: Header, n: int)
    requires h.Valid() && 0 <= mtype < 64 && 0 <= n < 32
    ensures ParseHeader(HeaderBits(mtype, h, n)) == Some((mtype, h, n))
  {
    var f := HeaderFields(mtype, h, n);
    HeaderFits(mtype, h, n);
    assert Kinds(f) == HEADER_KINDS;
    FieldsRoundTrip(f, []);
    assert HeaderBits(mtype, h, n) + [] == HeaderBits(mtype, h, n);
  }

  lemma RecordBack(r: SatRecord)
    requires r.Valid()
    ensures ParseRecord(RecordBits(r)) == Some(r)
  {
    var f := RecordFields(r);
    RecordFits(r);
    assert Kinds(f) == RECORD_KINDS;
    FieldsRoundTrip(f, []);
    assert RecordBits(r) + [] == RecordBits(r);
  }

  lemma {:induction false} RecordsBitsCons(r: SatRecord, recs: seq<SatRecord>)
    requires r.Valid() && forall q <- recs :: q.Valid()
    ensures forall q <- [r] + recs :: q.Valid()
    ensures RecordsBits([r] + recs) == RecordBits(r) + RecordsBits(recs)
  {
    if recs == [] {
      RecordsBitsSnoc([], r);
      assert [] + [r] == [r] + [];
    } else {
      var n := |recs| - 1;
      var init, last := recs[..n], recs[n];
      assert last in recs && recs == init + [last];
      RecordsBitsCons(r, init);
      RecordsBitsSnoc(init, last);
      RecordsBitsSnoc([r] + init, last);
      Assoc([r], init, [last]);
      Assoc(RecordBits(r), RecordsBits(init), RecordBits(last));
    }
  }

  /** The fill is shorter than a record, so a reader recovers exactly the records sent. */
  lemma {:induction false} RecordsBack(recs: seq<SatRecord>, fill: seq<bool>)
    requires (forall r <- recs :: r.Valid()) && |fill| < 40
    ensures ParseRecords(RecordsBits(recs) + fill) == recs
  {
    if recs != [] {
      var r, rest := recs[0], recs[1..];
      assert r in recs && recs == [r] + rest;
      RecordsBitsCons(r, rest);
      RecordBack(r);
      RecordsBack(rest, fill);
      NextRecord(r, RecordsBits(rest) + fill);
      Assoc(RecordBits(r), RecordsBits(rest), fill);
    }
  }

  lemma NextRecord(r: SatRecord, more: seq<bool>)
    requires r.Valid() && ParseRecord(RecordBits(r)) == Some(r)
    ensures ParseRecords(RecordBits(r) + more) == [r] + ParseRecords(more)
  {
    var s := RecordBits(r) + more;
    assert s[..40] == RecordBits(r) && s[40..] == more;
  }

  lemma EcefBack(h: Header, ecef: Ecef)
    requires Type3Accepted(h, ecef)
    ensures ParseBody(TYPE3, h, EcefBits(ecef)) == Some(SendType3(h, ecef).Meaning())
  {
    var f := EcefFields(EcefCounts(ecef.x), EcefCounts(ecef.y), EcefCounts(ecef.z));
    Widths();
    assert Kinds(f) == ECEF_KINDS;
    FieldsRoundTrip(f, []);
    assert EcefBits(ecef) + [] == EcefBits(ecef);
  }

  /** Header, data words and the message they spell, for either kind of call. */
  lemma CallShape(c: Call) returns (mtype: int, n: nat, body: seq<bool>)
    requires c.Accepted()
    ensures 0 <= mtype < 64 && n < 32 && c.h.Valid() && |body| == 24 * n
    ensures c.Bits() == HeaderBits(mtype, c.h, n) + body
    ensures ParseBody(mtype, c.h, body) == Some(c.Meaning())
  {
    match c {
      case SendType1(h, cs) =>
        mtype, n := TYPE1, DataWords(40 * |cs|);
        ValidRecords(cs);
        var recs, fill := RecordsBits(RecordsOf(cs)), Repeat(false, FillLength(|cs|));
        body := recs + fill;
        RecordsBack(RecordsOf(cs), fill);
        Assoc(HeaderBits(TYPE1, h, n), recs, fill);
      case SendType3(h, ecef) =>
        mtype, n, body := TYPE3, 4, EcefBits(ecef);
        EcefBack(h, ecef);
    }
  }

  lemma SplitFirst(mtype: int, h: Header, n: nat, body: seq<bool>, m: Message, more: seq<bool>)
    requires h.Valid() && 0 <= mtype < 64 && n < 32 && |body| == 24 * n
    requires ParseBody(mtype, h, body) == Some(m)
    ensures SplitMessages(HeaderBits(mtype, h, n) + body + more) ==
            match SplitMessages(more) case None => None case Some(ms) => Some([m] + ms)
  {
    var head := HeaderBits(mtype, h, n);
    var s := head + body + more;
    HeaderBack(mtype, h, n);
    assert s[..48] == head;
    assert s[48..48 + 24 * n] == body;
    assert s[48 + 24 * n..] == more;
  }

  lemma SplitCall(c: Call, more: seq<bool>)
    requires c.Accepted()
    ensures SplitMessages(c.Bits() + more) ==
            match SplitMessages(more) case None => None case Some(ms) => Some([c.Meaning()] + ms)
  {
    var mtype, n, body := CallShape(c);
    SplitFirst(mtype, c.h, n, body, c.Meaning(), more);
  }

  lemma {:induction false} SplitBack(calls: seq<Call>)
    requires forall c <- calls :: c.Accepted()
    ensures SplitMessages(KeptBits(calls)) == Some(Meanings(calls))
  {
    if calls != [] {
      var c, rest := calls[0], calls[1..];
      assert c in calls && calls == [c] + rest;
      SplitBack(rest);
      SplitBackCons(c, rest);
    }
  }

  lemma SplitBackCons(c: Call, rest: seq<Call>)
    requires c.Accepted() && (forall d <- rest :: d.Accepted()) && (forall d <- [c] + rest :: d.Accepted())
    requires SplitMessages(KeptBits(rest)) == Some(Meanings(rest))
    ensures SplitMessages(KeptBits([c] + rest)) == Some(Meanings([c] + rest))
  {
    SplitCall(c, KeptBits(rest));
    KeptBitsCons(c, rest);
    MeaningsCons(c, rest);
  }

  lemma MeaningsCons(c: Call, rest: seq<Call>)
    ensures Meanings([c] + rest) == [c.Meaning()] + Meanings(rest)
  {
  }

  lemma {:induction false} JoinBack(data: seq<bool>)
    requires |data| % 24 == 0
    ensures Join(Somes(Words24(data))) == data
    decreases |data|
  {
    if data != [] {
      Words24Cons(data);
      SomesCons(data[..24], Words24(data[24..]));
      JoinBack(data[24..]);
      assert data == data[..24] + data[24..];
    }
  }

  lemma WireDeframed(data: seq<bool>, seed: (bool, bool))
    requires |data| % 24 == 0
    ensures Deframe(Wire(data, seed)) == ChainTx(data, seed.0, seed.1)
  {
    DeframeUndoesFrame(ChainTx(data, seed.0, seed.1), |data| / 24 * 5);
  }

  /** Any data words sent with a seed are received without a violation by a receiver with that seed. */
  lemma WireBack(data: seq<bool>, seed: (bool, bool))
    requires |data| % 24 == 0
    ensures DecodeStream(Wire(data, seed), seed) == SplitMessages(data)
  {
    WireDeframed(data, seed);
    DecodeUndoesChain(data, seed.0, seed.1);
    DecodeWords(Wire(data, seed), seed, Words24(data));
    JoinBack(data);
  }

  lemma DecodeWords(bytes: seq<byte>, seed: (bool, bool), words: seq<seq<bool>>)
    requires DecodeEach([seed.0, seed.1] + Deframe(bytes)) == Somes(words)
    ensures DecodeStream(bytes, seed) == SplitMessages(Join(Somes(words)))
  {
    assert None !in Somes(words);
  }

  /** A message says what a call was given: the same header and, satellite by satellite, the corrections
      to the nearest count, or the position to the nearest centimetre. */
  predicate Carried(call: Call, m: Message)
  {
    match call
    case SendType1(h, cs) =>
      m.Type1? && m.h == h && |m.sats| == |cs| && forall k :: 0 <= k < |cs| ==> Carries(m.sats[k], cs[k])
    case SendType3(h, e) =>
      m.Type3? && m.h == h && Centimetres(m.x, e.x) && Centimetres(m.y, e.y) && Centimetres(m.z, e.z)
  }

  lemma MeaningCarries(call: Call)
    ensures Carried(call, call.Meaning())
  {
    match call
    case SendType1(h, cs) =>
      forall k | 0 <= k < |cs| ensures Carries(RecordsOf(cs)[k], cs[k]) { RecordCarries(cs[k]); }
    case SendType3(h, e) =>
      CentimetreCounts(e.x);
      CentimetreCounts(e.y);
      CentimetreCounts(e.z);
  }

  lemma CentimetreCounts(x: real)
    ensures Centimetres(EcefCounts(x), x)
  {
  }

  /** Main result: over any run of one encoder, rejected calls included, a receiver finds no
      parity violation and returns exactly one message for each accepted call, which carries what the
      call was given. */
  lemma RunDecodes(calls: seq<Call>, seed: (bool, bool))
    ensures DecodeStream(Run(calls, seed).0, seed) == Some(Meanings(Kept(calls)))
    ensures forall i :: 0 <= i < |Kept(calls)| ==> Carried(Kept(calls)[i], Meanings(Kept(calls))[i])
  {
    RunIsOneChain(calls, seed);
    WireBack(KeptBits(Kept(calls)), seed);
    SplitBack(Kept(calls));
    forall i | 0 <= i < |Kept(calls)| { MeaningCarries(Kept(calls)[i]); }
  }

  /** How many of the first n calls are accepted. */
  function Accepted(calls: seq<Call>, n: nat): nat
    requires n <= |calls|
  {
    if n == 0 then 0 else Accepted(calls, n - 1) + if calls[n - 1].Accepted() then 1 else 0
  }

  lemma {:induction false} AcceptedFirst(calls: seq<Call>, n: nat)
    requires 1 <= n <= |calls|
    ensures Accepted(calls, n) == (if calls[0].Accepted() then 1 else 0) + Accepted(calls[1..], n - 1)
  {
    if n > 1 { AcceptedFirst(calls, n - 1); }
  }

  lemma {:induction false} KeptAt(calls: seq<Call>, i: nat)
    requires i < |calls| && calls[i].Accepted()
    ensures Accepted(calls, i) < |Kept(calls)| && Kept(calls)[Accepted(calls, i)] == calls[i]
    decreases |calls|
  {
    if i > 0 {
      AcceptedFirst(calls, i);
      KeptAt(calls[1..], i - 1);
    }
  }

  lemma {:induction false} KeptCount(calls: seq<Call>)
    ensures |Kept(calls)| == Accepted(calls, |calls|)
    decreases |calls|
  {
    if calls != [] {
      AcceptedFirst(calls, |calls|);
      KeptCount(calls[1..]);
    }
  }

  /** Main result, call by call: the receiver reads as many messages as calls are accepted, and the one at
      the place of each accepted call carries its header, corrections or position. */
  lemma ReceiverGets(calls: seq<Call>, seed: (bool, bool)) returns (ms: seq<Message>)
    ensures DecodeStream(Run(calls, seed).0, seed) == Some(ms) && |ms| == Accepted(calls, |calls|)
    ensures forall i :: 0 <= i < |calls| && calls[i].Accepted() ==>
              Accepted(calls, i) < |ms| && Carried(calls[i], ms[Accepted(calls, i)])
  {
    RunDecodes(calls, seed);
    KeptCount(calls);
    ms := Meanings(Kept(calls));
    forall i | 0 <= i < |calls| && calls[i].Accepted()
      ensures Accepted(calls, i) < |ms| && Carried(calls[i], ms[Accepted(calls, i)])
    {
      KeptAt(calls, i);
    }
  }

  /** The seed kept is always the last two bits of what was returned so far. */
  lemma SeedSafety(calls: seq<Call>, seed: (bool, bool))
    ensures var (bytes, left) := Run(calls, seed);
            var air := [seed.0, seed.1] + Deframe(bytes);
            left == (air[|air| - 2], air[|air| - 1])
  {
    RunIsOneChain(calls, seed);
    WireSeed(KeptBits(Kept(calls)), seed);
  }

  lemma WireSeed(data: seq<bool>, seed: (bool, bool))
    requires |data| % 24 == 0
    ensures var air := [seed.0, seed.1] + Deframe(Wire(data, seed));
            SeedLeft(data, seed) == (air[|air| - 2], air[|air| - 1])
  {
    WireDeframed(data, seed);
    SeedIsLastTwoBits(data, seed.0, seed.1);
  }

  /** For every accepted record count: the header's N is the number of data words, the fill is
      under one word, and a reader of 40-bit records gets exactly the records sent. */
  lemma Type1Shape(h: Header, cs: seq<Correction>)
    requires Type1Accepted(h, cs)
    ensures var bits := Type1Bits(h, cs);
            var n := DataWords(40 * |cs|);
            && |bits| == 48 + 24 * n && 24 * n - 24 < 40 * |cs| <= 24 * n
            && ParseHeader(bits[..48]) == Some((TYPE1, h, n))
            && ParseRecords(bits[48..]) == RecordsOf(cs)
  {
    var n := DataWords(40 * |cs|);
    HeaderBack(TYPE1, h, n);
    ValidRecords(cs);
    RecordsBack(RecordsOf(cs), Repeat(false, FillLength(|cs|)));
    Cut(HeaderBits(TYPE1, h, n), RecordsBits(RecordsOf(cs)), Repeat(false, FillLength(|cs|)));
  }

  lemma Cut<T>(a: seq<T>, b: seq<T>, c: seq<T>)
    ensures (a + b + c)[..|a|] == a && (a + b + c)[|a|..] == b + c
  {
  }
}
