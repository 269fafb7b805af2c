/** Two converters side by side on the same observations, one of them with a clock term b0 + b1 * tow,
    linear in the broadcast time of week, in every raw correction. */
module ConverterDrift {
  import opened Basics
  import opened Framer
  import opened Rtcm2
  import Decoder
  import opened Dgps
  import opened DgpsRuns
  import opened Converter
  import opened ConverterRuns
  import ConverterStream

  /** What is added at a time of week. */
  function ClockTerm(b0: real, b1: real, tow: real): real { b0 + b1 * tow }

  /** The same raw corrections with the clock's term in every one of them. */
  function DriftModel(model: RawModel, b0: real, b1: real): RawModel
  {
    (eph: Ephemeris, base: Ecef, tow: real, pr: real) => model(eph, base, tow, pr) + ClockTerm(b0, b1, tow)
  }

  function DriftSettings(cfg: Settings, b0: real, b1: real): Settings
  {
    cfg.(model := DriftModel(cfg.model, b0, b1))
  }

  function Drifted(sample: Option<(real, real)>, b0: real, b1: real): Option<(real, real)>
  {
    match sample case None => None case Some((t, v)) => Some((t, v + ClockTerm(b0, b1, t)))
  }

  /** Each satellite's history carries the clock's term at its own time. */
  ghost predicate DriftedHistory(prev: History, prev': History, b0: real, b1: real)
  {
    forall prn :: Sample(prev', prn) == Drifted(Sample(prev, prn), b0, b1)
  }

  lemma {:induction false} GateDrift(ephs: map<int, Ephemeris>, base: Ecef, model: RawModel, maxAge: real, tow: real,
                                     prs: seq<(int, real)>, b0: real, b1: real)
    ensures Gate(ephs, base, DriftModel(model, b0, b1), maxAge, tow, prs) ==
            ShiftSats(Gate(ephs, base, model, maxAge, tow, prs), ClockTerm(b0, b1, tow))
  {
    if prs != [] { GateDrift(ephs, base, model, maxAge, tow, prs[..|prs| - 1], b0, b1); }
  }

  lemma RateDrift(t: real, v: real, tow: real, value: real, b0: real, b1: real)
    requires tow != t
    ensures RateFrom(Some((t, v + ClockTerm(b0, b1, t))), tow, value + ClockTerm(b0, b1, tow)) ==
            PlusRate(RateFrom(Some((t, v)), tow, value), b1)
  {
    var c, cj := ClockTerm(b0, b1, tow), ClockTerm(b0, b1, t);
    RateFromMoved(t, v, tow, value, c, cj);
    DriftRate(b0, b1, tow, t, c, cj);
  }

  lemma RatesDrift(prev: History, prev': History, tow: real, sats: seq<Sat>, b0: real, b1: real)
    requires DriftedHistory(prev, prev', b0, b1)
    ensures RatesMove(RateFn(prev, tow), RateFn(prev', tow), sats, ClockTerm(b0, b1, tow), b1)
  {
    forall s | s in sats
      ensures RateFn(prev', tow)(Moved(s, ClockTerm(b0, b1, tow))) == PlusRate(RateFn(prev, tow)(s), b1)
    {
      assert Sample(prev', s.prn) == Drifted(Sample(prev, s.prn), b0, b1);
      match Sample(prev, s.prn)
      case None =>
      case Some((t, v)) => if tow != t { RateDrift(t, v, tow, s.value, b0, b1); }
    }
  }

  lemma RecallDrift(prev: History, prev': History, tow: real, sats: seq<Sat>, b0: real, b1: real)
    requires DriftedHistory(prev, prev', b0, b1)
    ensures DriftedHistory(Recall(prev, tow, sats),
                           Recall(prev', tow, ShiftSats(sats, ClockTerm(b0, b1, tow))), b0, b1)
  {
    var c, sorted := ClockTerm(b0, b1, tow), SortSats(sats);
    SortSatsShift(sats, c);
    forall prn
      ensures Sample(Remember(prev', tow, ShiftSats(sorted, c)), prn) ==
              Drifted(Sample(Remember(prev, tow, sorted), prn), b0, b1)
    {
      assert Sample(prev', prn) == Drifted(Sample(prev, prn), b0, b1);
      RememberLooksUp(prev, tow, sorted, prn);
      RememberLooksUp(prev', tow, ShiftSats(sorted, c), prn);
      ShiftedFind(sorted, c, prn);
    }
  }

  // -------------------------------------------------------------------- simulation

  /** The two converters differ in nothing but the values remembered. */
  ghost predicate Alike(s: CState, s': CState, b0: real, b1: real)
  {
    s' == s.(prev := s'.prev) && DriftedHistory(s.prev, s'.prev, b0, b1)
  }

  /** They tried the same messages and both raised or both did not. */
  ghost predicate SameOutcome(o: Outcome, o': Outcome, b0: real, b1: real)
  {
    Alike(o.state, o'.state, b0, b1) && o'.tried == o.tried && o'.raised == o.raised
  }

  function WithPrev(o: Outcome, prev': History): Outcome { o.(state := o.state.(prev := prev')) }

  lemma TryIgnoresHistory(s: CState, prev': History, tow: real, call: Decoder.Call)
    ensures Try(s.(prev := prev'), tow, call) == WithPrev(Try(s, tow, call), prev')
  {
  }

  lemma Type3IgnoresHistory(cfg: Settings, s: CState, prev': History, tow: real, b0: real, b1: real)
    ensures TryType3(DriftSettings(cfg, b0, b1), s.(prev := prev'), tow) == WithPrev(TryType3(cfg, s, tow), prev')
  {
    if Type3Due(s, tow) { TryIgnoresHistory(s, prev', tow, Decoder.SendType3(HeaderFor(cfg, s, tow), s.base.value)); }
  }

  lemma Type1IgnoresHistory(cfg: Settings, s: CState, prev': History, tow: real, cs: seq<Correction>, b0: real, b1: real)
    ensures TryType1(DriftSettings(cfg, b0, b1), s.(prev := prev'), tow, cs) == WithPrev(TryType1(cfg, s, tow, cs), prev')
  {
    TryIgnoresHistory(s, prev', tow, Decoder.SendType1(HeaderFor(cfg, s, tow), cs));
  }

  lemma BothIgnoreHistory(cfg: Settings, s: CState, prev': History, tow: real, cs: seq<Correction>, b0: real, b1: real)
    ensures TryBoth(DriftSettings(cfg, b0, b1), s.(prev := prev'), tow, cs) == WithPrev(TryBoth(cfg, s, tow, cs), prev')
  {
    Type3IgnoresHistory(cfg, s, prev', tow, b0, b1);
    var first := TryType3(cfg, s, tow);
    if !first.raised { Type1IgnoresHistory(cfg, first.state, prev', tow, cs, b0, b1); }
  }

  lemma EpochDrift(cfg: Settings, s: CState, s': CState, tow: real, prs: seq<(int, real)>, b0: real, b1: real)
    requires Alike(s, s', b0, b1)
    ensures SameOutcome(OnEpoch(cfg, s, tow, prs), OnEpoch(DriftSettings(cfg, b0, b1), s', tow, prs), b0, b1)
  {
    var sats, c := GatedSats(cfg, s, tow, prs), ClockTerm(b0, b1, tow);
    var sats' := GatedSats(DriftSettings(cfg, b0, b1), s', tow, prs);
    if s.base.Some? { GateDrift(s.ephemerides, s.base.value, cfg.model, cfg.maxAge, tow, prs, b0, b1); }
    assert sats' == ShiftSats(sats, c);
    RatesDrift(s.prev, s'.prev, tow, sats, b0, b1);
    EmitShift(RateFn(s.prev, tow), RateFn(s'.prev, tow), cfg.maxResidual, sats, c, b1);
    RecallDrift(s.prev, s'.prev, tow, sats, b0, b1);
    var cs := Emit(RateFn(s.prev, tow), cfg.maxResidual, sats);
    BothIgnoreHistory(cfg, s.(prev := Recall(s.prev, tow, sats)), Recall(s'.prev, tow, sats'), tow, cs, b0, b1);
    BothKeepHistory(cfg, s.(prev := Recall(s.prev, tow, sats)), tow, cs);
  }

  lemma BothKeepHistory(cfg: Settings, s: CState, tow: real, cs: seq<Correction>)
    ensures TryBoth(cfg, s, tow, cs).state.prev == s.prev
  {
  }

  lemma {:induction false} BatchDrift(cfg: Settings, s: CState, s': CState, es: seq<ObsEvent>, b0: real, b1: real)
    requires Alike(s, s', b0, b1)
    ensures SameOutcome(Batch(cfg, s, es), Batch(DriftSettings(cfg, b0, b1), s', es), b0, b1)
    decreases |es|
  {
    if es != [] {
      var first, first' := Step(cfg, s, es[0]), Step(DriftSettings(cfg, b0, b1), s', es[0]);
      if es[0].Epoch? { EpochDrift(cfg, s, s', es[0].tow, es[0].prs, b0, b1); }
      assert SameOutcome(first, first', b0, b1);
      if !first.raised { BatchDrift(cfg, first.state, first'.state, es[1..], b0, b1); }
    }
  }

  ghost predicate SameSession(s: Session, s': Session, b0: real, b1: real)
  {
    && Alike(s.state, s'.state, b0, b1) && s'.tried == s.tried && s'.raised == s.raised
    && s'.obsBuf == s.obsBuf && s'.ephBuf == s.ephBuf
  }

  lemma ReadDrift(cfg: Settings, p: Parsers, s: Session, s': Session, read: Read, b0: real, b1: real)
    requires SameSession(s, s', b0, b1)
    ensures SameSession(AfterRead(cfg, p, s, read), AfterRead(DriftSettings(cfg, b0, b1), p, s', read), b0, b1)
  {
    match read
    case ObsData(data) =>
      BatchDrift(cfg, s.state, s'.state, ParseAll(p.obs, Extract(s.obsBuf + data).0), b0, b1);
    case EphData(data) =>
  }

  lemma {:induction false} RunDrift(cfg: Settings, p: Parsers, inputs: seq<Read>, b0: real, b1: real)
    ensures SameSession(RunAll(cfg, p, inputs), RunAll(DriftSettings(cfg, b0, b1), p, inputs), b0, b1)
  {
    if inputs != [] {
      var n := |inputs| - 1;
      RunDrift(cfg, p, inputs[..n], b0, b1);
      ReadDrift(cfg, p, RunAll(cfg, p, inputs[..n]), RunAll(DriftSettings(cfg, b0, b1), p, inputs[..n]), inputs[n], b0, b1);
    }
  }

  /** Main result: with any term b0 + b1 * tow in every raw correction, over any run of any two streams
      the converter puts exactly the same bytes on the feed and ends with the same encoder state. The
      term starts again with tow every week; ClockRollover is about a clock that runs on. */
  lemma BytesUnchangedByClock(cfg: Settings, p: Parsers, inputs: seq<Read>, b0: real, b1: real)
    ensures var s, s' := RunAll(cfg, p, inputs), RunAll(DriftSettings(cfg, b0, b1), p, inputs);
            && ConverterStream.OnAir(s') == ConverterStream.OnAir(s)
            && s'.state.seed == s.state.seed && s'.state.seqno == s.state.seqno
            && s'.state.messagesOut == s.state.messagesOut && s'.raised == s.raised
  {
    RunDrift(cfg, p, inputs, b0, b1);
  }
}
