/** One epoch, from the satellites that pass the gates to what a receiver reads. */
module EpochEndToEnd {
  import opened Basics
  import opened Rtcm2
  import opened Decoder
  import opened Dgps
  import opened Converter
  import opened ConverterStream
  import opened ConverterLoss
  import Framer
  import Statistics

  /** The position, when due, with the next number. */
  function PositionTried(cfg: Settings, base: Option<Ecef>, seqno: int, tow: real, due: bool): seq<Attempt>
    requires due ==> base.Some?
  {
    if due
    then [Attempt(tow, SendType3(Header(cfg.station, ModifiedZcount(tow), (seqno + 1) % 8, 0), base.value))]
    else []
  }

  function CorrectionsTried(cfg: Settings, n: int, tow: real, cs: seq<Correction>): Attempt
  {
    Attempt(tow, SendType1(Header(cfg.station, ModifiedZcount(tow), n % 8, 0), cs))
  }

  /** The attempts of an epoch that raises nothing, in figures. */
  lemma EpochTries(cfg: Settings, s: CState, tow: real, prs: seq<(int, real)>, cs: seq<Correction>, due: bool)
    requires cs == EpochCorrections(cfg, s, tow, prs) && cs != [] && due == Type3Due(s, tow)
    requires !OnEpoch(cfg, s, tow, prs).raised
    ensures due ==> s.base.Some?
    ensures OnEpoch(cfg, s, tow, prs).tried
            == PositionTried(cfg, s.base, s.seqno, tow, due) + [CorrectionsTried(cfg, s.seqno + if due then 2 else 1, tow, cs)]
  {
    var s' := s.(prev := Recall(s.prev, tow, GatedSats(cfg, s, tow, prs)));
    EpochOutcome(cfg, s, tow, prs, s', cs);
    DueIgnoresHistory(s, s'.prev, tow);
    BothTry(cfg, s', tow, cs, due);
    assert s'.base == s.base && s'.seqno == s.seqno;
  }

  lemma BothTry(cfg: Settings, s: CState, tow: real, cs: seq<Correction>, due: bool)
    requires !TryBoth(cfg, s, tow, cs).raised && due == Type3Due(s, tow)
    ensures TryBoth(cfg, s, tow, cs).tried
            == PositionTried(cfg, s.base, s.seqno, tow, due) + [CorrectionsTried(cfg, s.seqno + if due then 2 else 1, tow, cs)]
  {
    var first := TryType3(cfg, s, tow);
    OneThenOther(cfg, s, tow, cs, first);
    PositionTry(cfg, s, tow, due, first);
    CorrectionsTry(cfg, first.state, tow, cs);
    Numbered(cfg, s, tow, cs, due, first.state.seqno);
  }

  lemma OneThenOther(cfg: Settings, s: CState, tow: real, cs: seq<Correction>, first: Outcome)
    requires !TryBoth(cfg, s, tow, cs).raised && first == TryType3(cfg, s, tow)
    ensures TryBoth(cfg, s, tow, cs).tried == first.tried + TryType1(cfg, first.state, tow, cs).tried
  {
  }

  lemma PositionTry(cfg: Settings, s: CState, tow: real, due: bool, first: Outcome)
    requires due == Type3Due(s, tow) && first == TryType3(cfg, s, tow)
    ensures first.tried == PositionTried(cfg, s.base, s.seqno, tow, due)
    ensures first.state.seqno == if due then (s.seqno + 1) % 8 else s.seqno
  {
  }

  lemma CorrectionsTry(cfg: Settings, s: CState, tow: real, cs: seq<Correction>)
    ensures TryType1(cfg, s, tow, cs).tried == [CorrectionsTried(cfg, s.seqno + 1, tow, cs)]
  {
  }

  lemma Numbered(cfg: Settings, s: CState, tow: real, cs: seq<Correction>, due: bool, n: int)
    requires n == if due then (s.seqno + 1) % 8 else s.seqno
    ensures CorrectionsTried(cfg, n + 1, tow, cs) == CorrectionsTried(cfg, s.seqno + if due then 2 else 1, tow, cs)
  {
    assert (n + 1) % 8 == (s.seqno + if due then 2 else 1) % 8;
  }

  /** A record is what satellite s of an epoch comes to: its own number and issue of data, and to the nearest
      count its raw value above offset and its rate above common. */
  ghost predicate HeardAs(r: SatRecord, rate: Sat -> Option<real>, offset: real, common: real, s: Sat)
  {
    exists c :: EntryFor(c, rate, offset, common, s) && Carries(r, c)
  }

  ghost predicate Heard(records: seq<SatRecord>, rate: Sat -> Option<real>, offset: real, common: real, s: Sat)
  {
    exists r <- records :: HeardAs(r, rate, offset, common, s)
  }

  ghost predicate IsOfOne(r: SatRecord, rate: Sat -> Option<real>, maxResidual: real, offset: real, common: real, sats: seq<Sat>)
  {
    exists s <- sats :: Abs(s.value - offset) <= maxResidual && HeardAs(r, rate, offset, common, s)
  }

  /** Every satellite within the limit of the offset is heard, and nothing else. */
  ghost predicate AllHeard(records: seq<SatRecord>, rate: Sat -> Option<real>, maxResidual: real, offset: real,
                           common: real, sats: seq<Sat>)
  {
    && (forall s <- sats :: Abs(s.value - offset) <= maxResidual ==> Heard(records, rate, offset, common, s))
    && forall r <- records :: IsOfOne(r, rate, maxResidual, offset, common, sats)
  }

  /** One record for each correction, in order. */
  ghost predicate Carry(records: seq<SatRecord>, cs: seq<Correction>)
  {
    |records| == |cs| && forall k :: 0 <= k < |cs| ==> Carries(records[k], cs[k])
  }

  lemma EntryHeard(records: seq<SatRecord>, cs: seq<Correction>, rate: Sat -> Option<real>, offset: real, common: real, s: Sat)
    requires Carry(records, cs) && HasEntry(cs, rate, offset, common, s)
    ensures Heard(records, rate, offset, common, s)
  {
    var c :| c in cs && EntryFor(c, rate, offset, common, s);
    var k :| 0 <= k < |cs| && cs[k] == c;
    var r := records[k];
    assert r in records && Carries(r, c);
    assert HeardAs(r, rate, offset, common, s);
  }

  lemma EntryIsOfOne(r: SatRecord, c: Correction, rate: Sat -> Option<real>, maxResidual: real, offset: real,
                     common: real, sats: seq<Sat>)
    requires Carries(r, c) && IsEntry(c, rate, maxResidual, offset, common, sats)
    ensures IsOfOne(r, rate, maxResidual, offset, common, sats)
  {
    var s :| s in sats && Abs(s.value - offset) <= maxResidual && EntryFor(c, rate, offset, common, s);
    assert HeardAs(r, rate, offset, common, s);
  }

  lemma RecordIsOfOne(records: seq<SatRecord>, cs: seq<Correction>, rate: Sat -> Option<real>, maxResidual: real,
                      offset: real, common: real, sats: seq<Sat>, r: SatRecord)
    requires Carry(records, cs) && Entries(cs, rate, maxResidual, offset, common, sats) && r in records
    ensures IsOfOne(r, rate, maxResidual, offset, common, sats)
  {
    var k :| 0 <= k < |records| && records[k] == r;
    var c := cs[k];
    assert c in cs && IsEntry(c, rate, maxResidual, offset, common, sats);
    EntryIsOfOne(r, c, rate, maxResidual, offset, common, sats);
  }

  lemma EntriesHeard(records: seq<SatRecord>, cs: seq<Correction>, rate: Sat -> Option<real>, maxResidual: real,
                     offset: real, common: real, sats: seq<Sat>)
    requires Carry(records, cs) && Entries(cs, rate, maxResidual, offset, common, sats)
    ensures AllHeard(records, rate, maxResidual, offset, common, sats)
  {
    forall s | s in sats && Abs(s.value - offset) <= maxResidual ensures Heard(records, rate, offset, common, s) {
      EntryHeard(records, cs, rate, offset, common, s);
    }
    forall r | r in records ensures IsOfOne(r, rate, maxResidual, offset, common, sats) {
      RecordIsOfOne(records, cs, rate, maxResidual, offset, common, sats, r);
    }
  }

  /** What a receiver reads of messages none of which is rejected. */
  lemma AllCarried(tried: seq<Attempt>, seed: (bool, bool)) returns (ms: seq<Message>)
    requires !AnyRejected(tried)
    ensures DecodeStream(Framer.Join(Published(Calls(tried), seed)), seed) == Some(ms) && |ms| == |tried|
    ensures forall i :: 0 <= i < |tried| ==> Carried(tried[i].call, ms[i])
  {
    var calls := Calls(tried);
    forall c | c in calls ensures c.Accepted() {
      var i :| 0 <= i < |tried| && calls[i] == c;
      assert tried[i] in tried;
    }
    KeptAll(calls);
    PublishedIsRun(calls, seed);
    RunDecodes(calls, seed);
    ms := Meanings(calls);
  }

  /** The headers a receiver reads, and the position if one is due. */
  ghost predicate Framing(cfg: Settings, base: Option<Ecef>, seqno: int, tow: real, due: bool, ms: seq<Message>)
  {
    var z, n := ModifiedZcount(tow), |ms|;
    && n == (if due then 2 else 1)
    && (due ==> base.Some? && Carried(SendType3(Header(cfg.station, z, (seqno + 1) % 8, 0), base.value), ms[0]))
    && ms[n - 1].Type1? && ms[n - 1].h == Header(cfg.station, z, (seqno + n) % 8, 0)
  }

  /** The rates are the satellites' own, and what is heard is above the medians of raw values and rates. */
  ghost predicate SatsHeard(cfg: Settings, s: CState, tow: real, sats: seq<Sat>, rate: Sat -> Option<real>,
                            records: seq<SatRecord>)
  {
    && sats != [] && OwnRates(rate, s.prev, tow, sats)
    && AllHeard(records, rate, cfg.maxResidual, Statistics.Median(Values(sats)), CommonRate(rate, sats), sats)
  }

  lemma FramingRead(cfg: Settings, base: Option<Ecef>, seqno: int, tow: real, due: bool, cs: seq<Correction>,
                    tried: seq<Attempt>, seed: (bool, bool)) returns (ms: seq<Message>)
    requires due ==> base.Some?
    requires tried == PositionTried(cfg, base, seqno, tow, due) + [CorrectionsTried(cfg, seqno + if due then 2 else 1, tow, cs)]
    requires !AnyRejected(tried)
    ensures DecodeStream(Framer.Join(Published(Calls(tried), seed)), seed) == Some(ms)
    ensures Framing(cfg, base, seqno, tow, due, ms) && Carry(ms[|ms| - 1].sats, cs)
  {
    ms := AllCarried(tried, seed);
    var n := |ms|;
    assert Carried(tried[n - 1].call, ms[n - 1]);
    if due { assert Carried(tried[0].call, ms[0]); }
  }

  lemma NoneRejected(cfg: Settings, s: CState, tow: real, prs: seq<(int, real)>, o: Outcome)
    requires o == OnEpoch(cfg, s, tow, prs) && !o.raised
    ensures !AnyRejected(o.tried)
  {
    StepRaises(cfg, s, Epoch(tow, prs));
    assert Step(cfg, s, Epoch(tow, prs)) == o;
  }

  /** Main result: for an epoch that gives corrections and raises nothing, a receiver of the bytes published
      reads the station position, to the nearest centimetre, when one is due, and then one Type 1 with
      a record for each satellite that passed the gates and lies within the limit of the median raw value, and
      for no other: its raw value above the median and its own rate above the median rate. */
  lemma EpochHeard(cfg: Settings, s: CState, tow: real, prs: seq<(int, real)>) returns (ms: seq<Message>)
    requires EpochCorrections(cfg, s, tow, prs) != [] && !OnEpoch(cfg, s, tow, prs).raised
    ensures DecodeStream(Framer.Join(Published(Calls(OnEpoch(cfg, s, tow, prs).tried), s.seed)), s.seed) == Some(ms)
    ensures Framing(cfg, s.base, s.seqno, tow, Type3Due(s, tow), ms)
    ensures SatsHeard(cfg, s, tow, GatedSats(cfg, s, tow, prs), RateFn(s.prev, tow), ms[|ms| - 1].sats)
  {
    var cs, due := EpochCorrections(cfg, s, tow, prs), Type3Due(s, tow);
    var tried := OnEpoch(cfg, s, tow, prs).tried;
    EpochTries(cfg, s, tow, prs, cs, due);
    NoneRejected(cfg, s, tow, prs, OnEpoch(cfg, s, tow, prs));
    ms := FramingRead(cfg, s.base, s.seqno, tow, due, cs, tried, s.seed);
    EpochRecords(cfg, s, tow, prs, GatedSats(cfg, s, tow, prs), RateFn(s.prev, tow), ms[|ms| - 1].sats);
  }

  lemma EpochRecords(cfg: Settings, s: CState, tow: real, prs: seq<(int, real)>, sats: seq<Sat>, rate: Sat -> Option<real>,
                     records: seq<SatRecord>)
    requires sats == GatedSats(cfg, s, tow, prs) && rate == RateFn(s.prev, tow)
    requires EpochCorrections(cfg, s, tow, prs) != [] && Carry(records, EpochCorrections(cfg, s, tow, prs))
    ensures SatsHeard(cfg, s, tow, sats, rate, records)
  {
    EmitRight(s.prev, tow, cfg.maxResidual, sats);
    EntriesHeard(records, EpochCorrections(cfg, s, tow, prs), rate, cfg.maxResidual, Statistics.Median(Values(sats)),
                 CommonRate(rate, sats), sats);
  }
}
