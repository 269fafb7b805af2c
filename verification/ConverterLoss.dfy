/** What a rejected message costs: exactly when a handler raises, and exactly when the frames lost
    with it make the cutting of the upstream matter. */
module ConverterLoss {
  import opened Basics
  import opened Framer
  import opened Rtcm2
  import Statistics
  import opened Dgps
  import DgpsRuns
  import opened Converter
  import opened ConverterRuns
  import opened ConverterStream

  // ------------------------------------------------------------- when a handler raises

  /** The corrections an epoch gives in a state. */
  function EpochCorrections(cfg: Settings, s: CState, tow: real, prs: seq<(int, real)>): seq<Correction>
  {
    Emit(RateFn(s.prev, tow), cfg.maxResidual, GatedSats(cfg, s, tow, prs))
  }

  predicate Carriable(cs: seq<Correction>)
  {
    |cs| <= 18 && forall c <- cs :: 1 <= c.prn <= 32 && 0 <= c.iod < 256
  }

  /** Each coordinate's nearest centimetre count, half to even, lies in -2^31 .. 2^31 - 1. */
  predicate InReach(e: Ecef) { Rtcm2.InReach(e.x) && Rtcm2.InReach(e.y) && Rtcm2.InReach(e.z) }

  /** Corrections whose messages the encoder refuses: a due position out of range, over 18 satellites,
      or a PRN or issue of data out of range. */
  predicate RefusedWith(s: CState, tow: real, cs: seq<Correction>)
  {
    cs != [] && ((Type3Due(s, tow) && !InReach(s.base.value)) || !Carriable(cs))
  }

  predicate Refused(cfg: Settings, s: CState, e: ObsEvent)
  {
    match e
    case Epoch(tow, prs) => RefusedWith(s, tow, EpochCorrections(cfg, s, tow, prs))
    case _ => false
  }

  lemma HeaderForValid(cfg: Settings, s: CState, tow: real)
    requires 1 <= cfg.station <= 1023
    ensures HeaderFor(cfg, s, tow).Valid()
  {
    var hours := ZcountNear(tow);
  }

  lemma AcceptedReach(e: Ecef)
    ensures CoordFits(e.x) && CoordFits(e.y) && CoordFits(e.z) <==> InReach(e)
  {
    CoordFitsExactly(e.x);
    CoordFitsExactly(e.y);
    CoordFitsExactly(e.z);
  }

  lemma Type3Raises(cfg: Settings, s: CState, tow: real)
    requires 1 <= cfg.station <= 1023
    ensures TryType3(cfg, s, tow).raised <==> Type3Due(s, tow) && !InReach(s.base.value)
  {
    HeaderForValid(cfg, s, tow);
    if s.base.Some? { AcceptedReach(s.base.value); }
  }

  lemma Type1Raises(cfg: Settings, s: CState, tow: real, cs: seq<Correction>)
    requires 1 <= cfg.station <= 1023 && forall c <- cs :: 0 <= c.udre < 4
    ensures TryType1(cfg, s, tow, cs).raised <==> !Carriable(cs)
  {
    HeaderForValid(cfg, s, tow);
  }

  lemma BothRaiseExactly(cfg: Settings, s: CState, tow: real, cs: seq<Correction>)
    requires 1 <= cfg.station <= 1023 && forall c <- cs :: 0 <= c.udre < 4
    ensures TryBoth(cfg, s, tow, cs).raised <==> (Type3Due(s, tow) && !InReach(s.base.value)) || !Carriable(cs)
  {
    Type3Raises(cfg, s, tow);
    Type1Raises(cfg, TryType3(cfg, s, tow).state, tow, cs);
  }

  lemma EpochOutcome(cfg: Settings, s: CState, tow: real, prs: seq<(int, real)>, s': CState, cs: seq<Correction>)
    requires s' == s.(prev := Recall(s.prev, tow, GatedSats(cfg, s, tow, prs)))
    requires cs == EpochCorrections(cfg, s, tow, prs)
    ensures OnEpoch(cfg, s, tow, prs) == if cs == [] then Outcome(s', [], false) else TryBoth(cfg, s', tow, cs)
  {
  }

  /** Main result: in any state, a handler raises exactly on an epoch the encoder refuses. */
  lemma StepRaisesExactly(cfg: Settings, s: CState, e: ObsEvent)
    requires 1 <= cfg.station <= 1023
    ensures Step(cfg, s, e).raised <==> Refused(cfg, s, e)
  {
    match e
    case Epoch(tow, prs) =>
      var cs := EpochCorrections(cfg, s, tow, prs);
      var s' := s.(prev := Recall(s.prev, tow, GatedSats(cfg, s, tow, prs)));
      EpochOutcome(cfg, s, tow, prs, s', cs);
      CorrectionsUdre(cfg, s, tow, prs);
      OutcomeRaises(cfg, s, s'.prev, tow, cs, OnEpoch(cfg, s, tow, prs));
    case _ =>
  }

  lemma OutcomeRaises(cfg: Settings, s: CState, prev': History, tow: real, cs: seq<Correction>, o: Outcome)
    requires 1 <= cfg.station <= 1023 && forall c <- cs :: 0 <= c.udre < 4
    requires var s' := s.(prev := prev'); o == if cs == [] then Outcome(s', [], false) else TryBoth(cfg, s', tow, cs)
    ensures o.raised <==> RefusedWith(s, tow, cs)
  {
    BothRaiseExactly(cfg, s.(prev := prev'), tow, cs);
    DueIgnoresHistory(s, prev', tow);
  }

  lemma DueIgnoresHistory(s: CState, prev': History, tow: real)
    ensures Type3Due(s.(prev := prev'), tow) == Type3Due(s, tow)
  {
  }

  lemma CorrectionsUdre(cfg: Settings, s: CState, tow: real, prs: seq<(int, real)>)
    ensures forall c <- EpochCorrections(cfg, s, tow, prs) :: 0 <= c.udre < 4
  {
    EmittedUdre(RateFn(s.prev, tow), cfg.maxResidual, GatedSats(cfg, s, tow, prs));
  }

  /** The events before position i pass, and event i is refused in the state they leave. */
  predicate RefusedAt(cfg: Settings, s: CState, es: seq<ObsEvent>, i: nat)
    requires i < |es|
  {
    var o := Batch(cfg, s, es[..i]);
    !o.raised && Refused(cfg, o.state, es[i])
  }

  lemma RefusedInPrefix(cfg: Settings, s: CState, es: seq<ObsEvent>, n: nat, i: nat)
    requires i < n <= |es|
    ensures RefusedAt(cfg, s, es[..n], i) == RefusedAt(cfg, s, es, i)
  {
    assert es[..n][..i] == es[..i];
  }

  predicate SomeRefused(cfg: Settings, s: CState, es: seq<ObsEvent>)
  {
    exists i :: 0 <= i < |es| && RefusedAt(cfg, s, es, i)
  }

  lemma RefusedRaises(cfg: Settings, s: CState, es: seq<ObsEvent>, i: nat)
    requires 1 <= cfg.station <= 1023 && i < |es| && RefusedAt(cfg, s, es, i)
    ensures Batch(cfg, s, es).raised
  {
    StepRaisesExactly(cfg, Batch(cfg, s, es[..i]).state, es[i]);
    RaisedStep(cfg, s, es, i);
  }

  lemma RaisedStep(cfg: Settings, s: CState, es: seq<ObsEvent>, i: nat)
    requires i < |es| && Step(cfg, Batch(cfg, s, es[..i]).state, es[i]).raised
    ensures Batch(cfg, s, es).raised
  {
    RaisesBefore(cfg, s, es[..i], es[i], es[i + 1..]);
    SplitAt(es, i);
  }

  lemma SplitAt<T>(s: seq<T>, i: nat)
    requires i < |s|
    ensures s[..i] + [s[i]] + s[i + 1..] == s
  {
  }

  lemma RaisesBefore(cfg: Settings, s: CState, a: seq<ObsEvent>, e: ObsEvent, b: seq<ObsEvent>)
    requires Step(cfg, Batch(cfg, s, a).state, e).raised
    ensures Batch(cfg, s, a + [e] + b).raised
  {
    BatchSnoc(cfg, s, a, e);
    BatchConcat(cfg, s, a + [e], b);
  }

  lemma {:induction false} RaisedSomewhere(cfg: Settings, s: CState, es: seq<ObsEvent>) returns (i: nat)
    requires 1 <= cfg.station <= 1023 && Batch(cfg, s, es).raised
    ensures i < |es| && RefusedAt(cfg, s, es, i)
  {
    var n := |es| - 1;
    assert es == es[..n] + [es[n]];
    if Batch(cfg, s, es[..n]).raised {
      i := RaisedSomewhere(cfg, s, es[..n]);
      RefusedInPrefix(cfg, s, es, n, i);
    } else {
      i := n;
      BatchSnoc(cfg, s, es[..n], es[n]);
      StepRaisesExactly(cfg, Batch(cfg, s, es[..n]).state, es[n]);
    }
  }

  /** Main result: a batch raises exactly when some epoch of it is refused in the state the events
      before it leave. */
  lemma BatchRaisesExactly(cfg: Settings, s: CState, es: seq<ObsEvent>)
    requires 1 <= cfg.station <= 1023
    ensures Batch(cfg, s, es).raised <==> SomeRefused(cfg, s, es)
  {
    if Batch(cfg, s, es).raised {
      var i := RaisedSomewhere(cfg, s, es);
    } else if SomeRefused(cfg, s, es) {
      var i :| 0 <= i < |es| && RefusedAt(cfg, s, es, i);
      RefusedRaises(cfg, s, es, i);
    }
  }

  lemma BatchSnoc(cfg: Settings, s: CState, es: seq<ObsEvent>, e: ObsEvent)
    ensures var o := Batch(cfg, s, es); Batch(cfg, s, es + [e]).raised == (o.raised || Step(cfg, o.state, e).raised)
  {
    BatchConcat(cfg, s, es, [e]);
    BatchOne(cfg, Batch(cfg, s, es).state, e);
  }

  lemma BatchOne(cfg: Settings, s: CState, e: ObsEvent)
    ensures Batch(cfg, s, [e]) == Step(cfg, s, e)
  {
    var o := Step(cfg, s, e);
    assert [e][1..] == [] && o.tried + [] == o.tried;
  }

  // --------------------------------------------------------- when the cutting matters

  /** The frames completed by the chunks that come after the first one whose batch raises. */
  function LaterFrames(cfg: Settings, parse: seq<byte> -> ObsEvent, s: CState, buf: seq<byte>,
                       chunks: seq<seq<byte>>): seq<seq<byte>>
    decreases |chunks|
  {
    if chunks == [] then []
    else
      var (frames, rest) := Extract(buf + chunks[0]);
      var o := Batch(cfg, s, ParseAll(parse, frames));
      if o.raised then Extract(rest + Framer.Join(chunks[1..])).0
      else LaterFrames(cfg, parse, o.state, rest, chunks[1..])
  }

  predicate DoNothing(cfg: Settings, s: CState, es: seq<ObsEvent>)
  {
    Batch(cfg, s, es) == Outcome(s, [], false)
  }

  /** Feeding chunk by chunk does nothing exactly when feeding at once does. */
  lemma NothingEitherWay(cfg: Settings, parse: seq<byte> -> ObsEvent, s: CState, buf: seq<byte>, chunks: seq<seq<byte>>)
    requires Waiting(buf)
    ensures var each := FeedEach(cfg, parse, s, buf, chunks).0;
            var es := ParseAll(parse, Extract(buf + Framer.Join(chunks)).0);
            each.tried == [] && each.state == s <==> DoNothing(cfg, s, es)
  {
    ConverterChunks(cfg, parse, s, buf, chunks);
    BatchRaises(cfg, s, ParseAll(parse, Extract(buf + Framer.Join(chunks)).0));
  }

  /** Messages already tried can be taken off both sides. */
  lemma SameAfter(tried: seq<Attempt>, a: Outcome, b: Outcome)
    ensures After(tried, a) == After(tried, b) <==> a == b
  {
    assert After(tried, a).tried[|tried|..] == a.tried;
    assert After(tried, b).tried[|tried|..] == b.tried;
  }

  /** One more chunk before the rest: both ways start with its batch, and go on from there. */
  lemma FirstChunk(cfg: Settings, parse: seq<byte> -> ObsEvent, s: CState, buf: seq<byte>, chunks: seq<seq<byte>>)
    requires chunks != []
    ensures var (fs, mid) := Extract(buf + chunks[0]);
            var o := Batch(cfg, s, ParseAll(parse, fs));
            var later := FeedEach(cfg, parse, o.state, mid, chunks[1..]).0;
            var more := ParseAll(parse, Extract(mid + Framer.Join(chunks[1..])).0);
            && FeedEach(cfg, parse, s, buf, chunks).0 == After(o.tried, later).(raised := o.raised || later.raised)
            && Batch(cfg, s, ParseAll(parse, Extract(buf + Framer.Join(chunks)).0)) ==
               if o.raised then o else After(o.tried, Batch(cfg, o.state, more))
  {
    var c, tail := chunks[0], chunks[1..];
    var (fs, mid) := Extract(buf + c);
    ExtractResumes(buf + c, Framer.Join(tail));
    Assoc(buf, c, Framer.Join(tail));
    var more := Extract(mid + Framer.Join(tail)).0;
    ParseConcat(parse, fs, more);
    BatchConcat(cfg, s, ParseAll(parse, fs), ParseAll(parse, more));
  }

  /** Main result: cutting a stream into chunks changes nothing, messages, state and exceptions alike,
      exactly when the frames that come after the first chunk to raise would do nothing from there on;
      so it never does when nothing raises. */
  lemma {:induction false} CuttingMattersExactly(cfg: Settings, parse: seq<byte> -> ObsEvent, s: CState,
                                                 buf: seq<byte>, chunks: seq<seq<byte>>)
    requires Waiting(buf)
    ensures var once := Batch(cfg, s, ParseAll(parse, Extract(buf + Framer.Join(chunks)).0));
            var each := FeedEach(cfg, parse, s, buf, chunks).0;
            var lost := LaterFrames(cfg, parse, s, buf, chunks);
            && (each == once <==> DoNothing(cfg, once.state, ParseAll(parse, lost)))
            && (!once.raised ==> lost == [])
    decreases |chunks|
  {
    if chunks == [] {
      assert buf + [] == buf;
      BatchNothing(cfg, parse, s, buf);
    } else {
      var (fs, mid) := Extract(buf + chunks[0]);
      var o := Batch(cfg, s, ParseAll(parse, fs));
      FirstChunk(cfg, parse, s, buf, chunks);
      LeavesWaiting(buf + chunks[0]);
      if o.raised {
        NothingEitherWay(cfg, parse, o.state, mid, chunks[1..]);
        AddsNothing(o, FeedEach(cfg, parse, o.state, mid, chunks[1..]).0);
      } else {
        CuttingMattersExactly(cfg, parse, o.state, mid, chunks[1..]);
        var more := ParseAll(parse, Extract(mid + Framer.Join(chunks[1..])).0);
        SameAfter(o.tried, FeedEach(cfg, parse, o.state, mid, chunks[1..]).0, Batch(cfg, o.state, more));
      }
    }
  }

  lemma AddsNothing(o: Outcome, later: Outcome)
    requires o.raised
    ensures After(o.tried, later).(raised := true) == o <==> later.tried == [] && later.state == o.state
  {
    assert |o.tried + later.tried| == |o.tried| + |later.tried|;
    if later.tried == [] { assert o.tried + later.tried == o.tried; }
  }

  // -------------------------------------------------------------------- an input

  /** A refused epoch, then a station message: fed at once the new position is lost, fed frame by
      frame it is kept. */
  lemma StationLost(cfg: Settings, parse: seq<byte> -> ObsEvent, s: CState, fa: seq<byte>, fb: seq<byte>, moved: Ecef)
    requires IsFrame(fa) && IsFrame(fb) && parse(fa).Epoch? && parse(fb) == Station(moved)
    requires Step(cfg, s, parse(fa)).raised
    ensures FeedEach(cfg, parse, s, [], [fa, fb]).0.state.base == Some(moved)
    ensures Batch(cfg, s, ParseAll(parse, Extract([] + Framer.Join([fa, fb])).0)).state.base == s.base
  {
    OneFrame(fa);
    OneFrame(fb);
    var o := Step(cfg, s, parse(fa));
    BatchOne(cfg, s, parse(fa));
    BatchOne(cfg, o.state, parse(fb));
    assert ParseAll(parse, [fa]) == [parse(fa)] && ParseAll(parse, [fb]) == [parse(fb)];
    var chunks := [fa, fb];
    assert chunks[1..] == [fb] && [fb][1..] == [] && [] + fa == fa && [] + fb == fb;
    FirstChunk(cfg, parse, s, [], chunks);
    FirstChunk(cfg, parse, o.state, [], [fb]);
    EpochKeepsBase(cfg, s, parse(fa).tow, parse(fa).prs);
  }

  lemma NoFrame()
    ensures Extract([]) == ([], [])
  {
    WaitingStays([]);
  }

  lemma OneFrame(f: seq<byte>)
    requires IsFrame(f)
    ensures Extract(f) == ([f], [])
  {
    ExtractFrame(f, []);
    NoFrame();
    assert f + [] == f && [f] + Extract([]).0 == [f];
  }

  lemma EpochKeepsBase(cfg: Settings, s: CState, tow: real, prs: seq<(int, real)>)
    ensures OnEpoch(cfg, s, tow, prs).state.base == s.base
  {
  }

  const EPOCH_FRAME: seq<byte> := [0xD3, 0, 0, 1, 1, 1]
  const STATION_FRAME: seq<byte> := [0xD3, 0, 0, 2, 2, 2]
  const OLD_BASE := Ecef(0.0, 0.0, 0.0)
  const NEW_BASE := Ecef(1.0, 0.0, 0.0)

  function ExampleParse(): seq<byte> -> ObsEvent
  {
    (f: seq<byte>) => if f == EPOCH_FRAME then Epoch(0.0, [(33, 1.0)])
                      else if f == STATION_FRAME then Station(NEW_BASE) else Junk
  }

  function ExampleSettings(): Settings
  {
    Settings(1, (eph: Ephemeris, base: Ecef, tow: real, pr: real) => 0.0, 7200.0, 100.0)
  }

  /** A base is set and healthy ephemeris 33 is stored. */
  function ExampleState(): CState
  {
    START.(base := Some(OLD_BASE), ephemerides := map[33 := Ephemeris(33, 0.0, 0, 0, [])])
  }

  lemma OneSatEmitted(rate: Sat -> Option<real>, maxResidual: real, s: Sat)
    requires maxResidual >= 0.0
    ensures exists c :: c in Emit(rate, maxResidual, [s]) && c.prn == s.prn
  {
    assert s in [s] && Values([s]) == [s.value];
    assert Statistics.Sort([s.value]) == [s.value];
    DgpsRuns.EmittedIffNearMedian(rate, maxResidual, [s], s);
  }

  lemma ExampleRefused()
    ensures Refused(ExampleSettings(), ExampleState(), Epoch(0.0, [(33, 1.0)]))
  {
    var cfg, s := ExampleSettings(), ExampleState();
    ExampleGated();
    OneSatEmitted(RateFn(s.prev, 0.0), cfg.maxResidual, Sat(33, 0.0, 0));
  }

  lemma ExampleGated()
    ensures GatedSats(ExampleSettings(), ExampleState(), 0.0, [(33, 1.0)]) == [Sat(33, 0.0, 0)]
  {
    assert [(33, 1.0)][..0] == [];
  }

  lemma ExampleRaises()
    ensures Step(ExampleSettings(), ExampleState(), Epoch(0.0, [(33, 1.0)])).raised
  {
    ExampleRefused();
    StepRaisesExactly(ExampleSettings(), ExampleState(), Epoch(0.0, [(33, 1.0)]));
  }

  lemma ExampleFrames()
    ensures IsFrame(EPOCH_FRAME) && IsFrame(STATION_FRAME)
    ensures ExampleParse()(EPOCH_FRAME) == Epoch(0.0, [(33, 1.0)]) && ExampleParse()(STATION_FRAME) == Station(NEW_BASE)
  {
    assert EPOCH_FRAME[3] != STATION_FRAME[3];
  }

  /** The input: an epoch with satellite 33 is refused, and whether the station message behind it
      counts depends on where the stream is cut. */
  lemma CuttingCanMatter()
    ensures var cfg, parse, s, chunks := ExampleSettings(), ExampleParse(), ExampleState(), [EPOCH_FRAME, STATION_FRAME];
            && FeedEach(cfg, parse, s, [], chunks).0.state.base == Some(NEW_BASE)
            && Batch(cfg, s, ParseAll(parse, Extract([] + Framer.Join(chunks)).0)).state.base == Some(OLD_BASE)
            && OLD_BASE != NEW_BASE
  {
    ExampleRaises();
    ExampleFrames();
    StationLost(ExampleSettings(), ExampleParse(), ExampleState(), EPOCH_FRAME, STATION_FRAME, NEW_BASE);
    assert OLD_BASE.x != NEW_BASE.x;
  }
}
