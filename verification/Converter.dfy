/** RTCM3 observations in, RTCM 2.3 messages out (service.py, Converter). */
module Converter {
  import opened Basics
  import opened Framer
  import opened Rtcm2
  import opened Encoder
  import opened Decoder
  import opened Dgps
  import opened Feeds

  const TYPE3_INTERVAL := 60.0

  function ModifiedZcount(tow: real): int
  {
    RoundHalfEven(FloorMod(tow, 3600.0) / 0.6) % 6000
  }

  /** What a frame of the observation stream parses to. */
  datatype ObsEvent = Junk | Station(ecef: Ecef) | Epoch(tow: real, prs: seq<(int, real)>)

  datatype Settings = Settings(station: int, model: RawModel, maxAge: real, maxResidual: real)

  datatype CState = CState(base: Option<Ecef>, ephemerides: map<int, Ephemeris>, prev: History,
                           seed: (bool, bool), seqno: int, lastType3: Option<real>, messagesOut: nat)

  /** A message handed to the encoder, published when accepted and raising otherwise. */
  datatype Attempt = Attempt(tow: real, call: Call)

  /** The state after an event, the messages tried on the way, and whether the handler raised. */
  datatype Outcome = Outcome(state: CState, tried: seq<Attempt>, raised: bool)

  // ------------------------------------------------------------------ specification

  function NextSeq(seqno: int): int { (seqno + 1) % 8 }

  /** One message through the shared encoder: the number is taken before the encoder may raise. */
  function Try(s: CState, tow: real, call: Call): Outcome
  {
    var s' := s.(seqno := NextSeq(s.seqno));
    if call.Accepted() then Outcome(s'.(seed := SeedLeft(call.Bits(), s.seed)), [Attempt(tow, call)], false)
    else Outcome(s', [Attempt(tow, call)], true)
  }

  predicate Type3Due(s: CState, tow: real)
  {
    s.base.Some? && (s.lastType3.Some? ==> FloorMod(tow - s.lastType3.value, WEEK) >= TYPE3_INTERVAL)
  }

  function HeaderFor(cfg: Settings, s: CState, tow: real): Header
  {
    Header(cfg.station, ModifiedZcount(tow), NextSeq(s.seqno), 0)
  }

  function TryType3(cfg: Settings, s: CState, tow: real): Outcome
  {
    if !Type3Due(s, tow) then Outcome(s, [], false)
    else
      var o := Try(s, tow, SendType3(HeaderFor(cfg, s, tow), s.base.value));
      if o.raised then o else o.(state := o.state.(lastType3 := Some(tow)))
  }

  function TryType1(cfg: Settings, s: CState, tow: real, cs: seq<Correction>): Outcome
  {
    var o := Try(s, tow, SendType1(HeaderFor(cfg, s, tow), cs));
    if o.raised then o else o.(state := o.state.(messagesOut := s.messagesOut + 1))
  }

  function TryBoth(cfg: Settings, s: CState, tow: real, cs: seq<Correction>): Outcome
  {
    var first := TryType3(cfg, s, tow);
    if first.raised then first
    else
      var second := TryType1(cfg, first.state, tow, cs);
      After(first.tried, second)
  }

  function GatedSats(cfg: Settings, s: CState, tow: real, prs: seq<(int, real)>): seq<Sat>
  {
    if s.base == None then [] else Gate(s.ephemerides, s.base.value, cfg.model, cfg.maxAge, tow, prs)
  }

  function OnEpoch(cfg: Settings, s: CState, tow: real, prs: seq<(int, real)>): Outcome
  {
    var sats := GatedSats(cfg, s, tow, prs);
    var cs := Emit(RateFn(s.prev, tow), cfg.maxResidual, sats);
    var s' := s.(prev := Recall(s.prev, tow, sats));
    if cs == [] then Outcome(s', [], false) else TryBoth(cfg, s', tow, cs)
  }

  function Step(cfg: Settings, s: CState, e: ObsEvent): Outcome
  {
    match e
    case Junk => Outcome(s, [], false)
    case Station(ecef) => Outcome(s.(base := Some(ecef)), [], false)
    case Epoch(tow, prs) => OnEpoch(cfg, s, tow, prs)
  }

  /** The frames of one read; an exception loses the rest of them. */
  function Batch(cfg: Settings, s: CState, es: seq<ObsEvent>): Outcome
    decreases |es|
  {
    if es == [] then Outcome(s, [], false)
    else
      var first := Step(cfg, s, es[0]);
      if first.raised then first
      else
        After(first.tried, Batch(cfg, first.state, es[1..]))
  }

  function Calls(tried: seq<Attempt>): (cs: seq<Call>)
    ensures |cs| == |tried| && forall i :: 0 <= i < |tried| ==> cs[i] == tried[i].call
  {
    seq(|tried|, i requires 0 <= i < |tried| => tried[i].call)
  }

  function ParseAll(parse: seq<byte> -> ObsEvent, frames: seq<seq<byte>>): (es: seq<ObsEvent>)
    ensures |es| == |frames| && forall i :: 0 <= i < |frames| ==> es[i] == parse(frames[i])
  {
    seq(|frames|, i requires 0 <= i < |frames| => parse(frames[i]))
  }

  /** What each accepted call puts on the feed, one message each. */
  function Published(calls: seq<Call>, seed: (bool, bool)): seq<Bytes>
  {
    if calls == [] then []
    else if !calls[0].Accepted() then Published(calls[1..], seed)
    else [Wire(calls[0].Bits(), seed)] + Published(calls[1..], SeedLeft(calls[0].Bits(), seed))
  }

  /** The seed the encoder is left with. */
  function SeedAfterCalls(calls: seq<Call>, seed: (bool, bool)): (bool, bool)
  {
    if calls == [] then seed
    else SeedAfterCalls(calls[1..], if calls[0].Accepted() then SeedLeft(calls[0].Bits(), seed) else seed)
  }

  /** An outcome reached after other messages had been tried. */
  function After(tried: seq<Attempt>, o: Outcome): Outcome { o.(tried := tried + o.tried) }

  // ---------------------------------------------------------------------- the object

  class Converter {
    const cfg: Settings
    const parse: seq<byte> -> ObsEvent
    const parseEphemeris: seq<byte> -> Option<Ephemeris>
    const rtcm3Feed: Feed
    const rtcm23Feed: Feed
    const gen: DgpsGenerator
    const encoder: Rtcm2Encoder
    const obsBuf: Buffer
    const ephBuf: Buffer
    var seqno: int
    var lastType3: Option<real>
    var messagesOut: nat

    ghost predicate Valid()
      reads this, gen, encoder, rtcm3Feed, rtcm23Feed
    {
      && rtcm3Feed != rtcm23Feed && obsBuf != ephBuf && rtcm3Feed.Valid() && rtcm23Feed.Valid()
      && encoder.SeedOk() && 1 <= cfg.station <= 1023
      && gen.model == cfg.model && gen.maxIodAge == cfg.maxAge && gen.maxResidual == cfg.maxResidual
    }

    ghost function State(): CState
      reads this, gen, encoder
    {
      CState(gen.base, gen.ephemerides, gen.prev, encoder.Seed(), seqno, lastType3, messagesOut)
    }

    constructor (cfg: Settings, parse: seq<byte> -> ObsEvent, parseEphemeris: seq<byte> -> Option<Ephemeris>,
                 rtcm3Feed: Feed, rtcm23Feed: Feed)
      requires rtcm3Feed != rtcm23Feed && rtcm3Feed.Valid() && rtcm23Feed.Valid()
      requires 1 <= cfg.station <= 1023
      ensures Valid() && this.cfg == cfg && this.parse == parse && this.parseEphemeris == parseEphemeris
      ensures this.rtcm3Feed == rtcm3Feed && this.rtcm23Feed == rtcm23Feed
      ensures State() == CState(None, map[], map[], (false, false), 0, None, 0)
      ensures obsBuf.data == [] && ephBuf.data == []
    {
      this.cfg, this.parse, this.parseEphemeris := cfg, parse, parseEphemeris;
      this.rtcm3Feed, this.rtcm23Feed := rtcm3Feed, rtcm23Feed;
      gen := new DgpsGenerator(cfg.model, cfg.maxAge, cfg.maxResidual);
      encoder := new Rtcm2Encoder(0, 0);
      obsBuf := new Buffer();
      ephBuf := new Buffer();
      seqno, lastType3, messagesOut := 0, None, 0;
    }

    /** Rejects an out-of-range station id instead of truncating it. */
    static method Create(cfg: Settings, parse: seq<byte> -> ObsEvent, parseEphemeris: seq<byte> -> Option<Ephemeris>,
                         rtcm3Feed: Feed, rtcm23Feed: Feed) returns (r: Result<Converter>)
      requires rtcm3Feed != rtcm23Feed && rtcm3Feed.Valid() && rtcm23Feed.Valid()
      ensures r.Ok? <==> 1 <= cfg.station <= 1023
      ensures r.Ok? ==> r.value.Valid() && r.value.cfg == cfg
                        && r.value.parse == parse && r.value.parseEphemeris == parseEphemeris
                        && r.value.rtcm3Feed == rtcm3Feed && r.value.rtcm23Feed == rtcm23Feed
                        && r.value.obsBuf.data == [] && r.value.ephBuf.data == []
                        && r.value.State() == CState(None, map[], map[], (false, false), 0, None, 0)
    {
      if !(1 <= cfg.station <= 1023) { return ValueError; }
      var c := new Converter(cfg, parse, parseEphemeris, rtcm3Feed, rtcm23Feed);
      r := Ok(c);
    }

    /** Encodes and publishes one message; the sequence number is already taken. */
    method Send(call: Call) returns (ok: bool)
      requires Valid()
      modifies encoder, rtcm23Feed
      ensures Valid() && ok == call.Accepted()
      ensures encoder.Seed() == if ok then SeedLeft(call.Bits(), old(encoder.Seed())) else old(encoder.Seed())
      ensures rtcm23Feed.Now() ==
              AfterPublish(old(rtcm23Feed.Now()), if ok then [Wire(call.Bits(), old(encoder.Seed()))] else [])
    {
      var out;
      match call {
        case SendType1(h, cs) => out := encoder.EncodeType1(h, cs);
        case SendType3(h, ecef) => out := encoder.EncodeType3(h, ecef);
      }
      AfterNone(rtcm23Feed.Now());
      if out.ValueError? { return false; }
      WireNotEmpty(call.Bits(), old(encoder.Seed()));
      rtcm23Feed.Publish(out.value);
      return true;
    }

    method MaybeEmitType3(tow: real, zcount: int) returns (raised: bool)
      requires Valid() && zcount == ModifiedZcount(tow)
      modifies this`seqno, this`lastType3, encoder, rtcm23Feed
      ensures Valid()
      ensures var o := TryType3(cfg, old(State()), tow);
              && State() == o.state && raised == o.raised
              && rtcm23Feed.Now() == AfterPublish(old(rtcm23Feed.Now()), Published(Calls(o.tried), old(State()).seed))
    {
      AfterNone(rtcm23Feed.Now());
      if gen.base == None { return false; }
      if lastType3 != None && FloorMod(tow - lastType3.value, WEEK) < TYPE3_INTERVAL { return false; }
      seqno := NextSeq(seqno);
      ghost var call := SendType3(HeaderFor(cfg, old(State()), tow), gen.base.value);
      DueType3(cfg, old(State()), tow, call);
      PublishedOne(call, old(State()).seed);
      assert Calls([Attempt(tow, call)]) == [call];
      var ok := Send(SendType3(Header(cfg.station, zcount, seqno, 0), gen.base.value));
      if !ok { return true; }
      lastType3 := Some(tow);
      return false;
    }

    method EmitType1(tow: real, zcount: int, cs: seq<Correction>) returns (raised: bool)
      requires Valid() && zcount == ModifiedZcount(tow)
      modifies this`seqno, this`messagesOut, encoder, rtcm23Feed
      ensures Valid()
      ensures var o := TryType1(cfg, old(State()), tow, cs);
              && State() == o.state && raised == o.raised
              && rtcm23Feed.Now() == AfterPublish(old(rtcm23Feed.Now()), Published(Calls(o.tried), old(State()).seed))
    {
      seqno := NextSeq(seqno);
      ghost var call := SendType1(HeaderFor(cfg, old(State()), tow), cs);
      PublishedOne(call, old(State()).seed);
      assert Calls([Attempt(tow, call)]) == [call];
      var ok := Send(SendType1(Header(cfg.station, zcount, seqno, 0), cs));
      if !ok { return true; }
      messagesOut := messagesOut + 1;
      return false;
    }

    method OnObsFrame(frame: seq<byte>) returns (raised: bool)
      requires Valid()
      modifies this, gen, encoder, rtcm23Feed
      ensures Valid()
      ensures var o := Step(cfg, old(State()), parse(frame));
              && State() == o.state && raised == o.raised
              && rtcm23Feed.Now() == AfterPublish(old(rtcm23Feed.Now()), Published(Calls(o.tried), old(State()).seed))
    {
      AfterNone(rtcm23Feed.Now());
      match parse(frame)
      case Junk =>
        raised := false;
      case Station(ecef) =>
        gen.SetStation(ecef);
        raised := false;
      case Epoch(tow, prs) =>
        raised := OnEpochFrame(tow, prs);
    }

    method OnEpochFrame(tow: real, prs: seq<(int, real)>) returns (raised: bool)
      requires Valid()
      modifies this, gen, encoder, rtcm23Feed
      ensures Valid()
      ensures var o := OnEpoch(cfg, old(State()), tow, prs);
              && State() == o.state && raised == o.raised
              && rtcm23Feed.Now() == AfterPublish(old(rtcm23Feed.Now()), Published(Calls(o.tried), old(State()).seed))
    {
      AfterNone(rtcm23Feed.Now());
      var cs := gen.Corrections(tow, prs);
      if cs == [] { return false; }
      raised := EmitEpoch(tow, ModifiedZcount(tow), cs);
    }

    /** A Type 3 when one is due, then the Type 1, through the one encoder. */
    method EmitEpoch(tow: real, zcount: int, cs: seq<Correction>) returns (raised: bool)
      requires Valid() && zcount == ModifiedZcount(tow)
      modifies this, encoder, rtcm23Feed
      ensures Valid()
      ensures var o := TryBoth(cfg, old(State()), tow, cs);
              && State() == o.state && raised == o.raised
              && rtcm23Feed.Now() == AfterPublish(old(rtcm23Feed.Now()), Published(Calls(o.tried), old(State()).seed))
    {
      ghost var s := State();
      raised := MaybeEmitType3(tow, zcount);
      if raised { return true; }
      ghost var first := TryType3(cfg, s, tow);
      ghost var second := TryType1(cfg, first.state, tow, cs);
      Type3Seed(cfg, s, tow);
      FeedStep(old(rtcm23Feed.Now()), first.tried, second.tried, s.seed, first.state.seed);
      raised := EmitType1(tow, zcount, cs);
    }

    method FeedObs(data: seq<byte>) returns (raised: bool)
      requires Valid()
      modifies this, gen, encoder, rtcm3Feed, rtcm23Feed, obsBuf
      ensures Valid()
      ensures rtcm3Feed.Now() == AfterPublish(old(rtcm3Feed.Now()), if data == [] then [] else [data])
      ensures var (frames, rest) := Extract(old(obsBuf.data) + data);
              var o := Batch(cfg, old(State()), ParseAll(parse, frames));
              && obsBuf.data == rest && State() == o.state && raised == o.raised
              && rtcm23Feed.Now() == AfterPublish(old(rtcm23Feed.Now()), Published(Calls(o.tried), old(State()).seed))
    {
      rtcm3Feed.Publish(data);
      obsBuf.Extend(data);
      var frames := obsBuf.ExtractFrames();
      raised := OnFrames(frames);
    }

    method OnFrames(frames: seq<seq<byte>>) returns (raised: bool)
      requires Valid()
      modifies this, gen, encoder, rtcm23Feed
      ensures Valid()
      ensures var o := Batch(cfg, old(State()), ParseAll(parse, frames));
              && State() == o.state && raised == o.raised
              && rtcm23Feed.Now() == AfterPublish(old(rtcm23Feed.Now()), Published(Calls(o.tried), old(State()).seed))
    {
      ghost var s0, es := State(), ParseAll(parse, frames);
      ghost var tried := [];
      raised := false;
      AfterNone(rtcm23Feed.Now());
      AfterNothing(Batch(cfg, s0, es));
      assert es[0..] == es;
      for i := 0 to |frames|
        invariant Valid() && !raised
        invariant Batch(cfg, s0, es) == After(tried, Batch(cfg, State(), es[i..]))
        invariant rtcm23Feed.Now() == AfterPublish(old(rtcm23Feed.Now()), Published(Calls(tried), s0.seed))
        invariant encoder.Seed() == SeedAfterCalls(Calls(tried), s0.seed)
      {
        ghost var o := Step(cfg, State(), es[i]);
        StepSeed(cfg, State(), es[i]);
        FeedStep(old(rtcm23Feed.Now()), tried, o.tried, s0.seed, encoder.Seed());
        BatchAdvance(cfg, State(), es, i, tried);
        raised := OnObsFrame(frames[i]);
        if raised { return; }
        tried := tried + o.tried;
      }
      assert tried + [] == tried;
    }

    method FeedEph(data: seq<byte>)
      requires Valid()
      modifies gen, ephBuf
      ensures Valid()
      ensures var (frames, rest) := Extract(old(ephBuf.data) + data);
              && ephBuf.data == rest
              && State() == old(State()).(ephemerides := AddAll(old(gen.ephemerides), parseEphemeris, frames))
    {
      ephBuf.Extend(data);
      var frames := ephBuf.ExtractFrames();
      ghost var before := gen.ephemerides;
      assert frames[..0] == [];
      for i := 0 to |frames|
        invariant Valid() && ephBuf.data == Extract(old(ephBuf.data) + data).1
        invariant State() == old(State()).(ephemerides := AddAll(before, parseEphemeris, frames[..i]))
      {
        var eph := parseEphemeris(frames[i]);
        assert frames[..i + 1][..i] == frames[..i];
        if eph.Some? { gen.AddEphemeris(eph.value); }
      }
      assert frames[..|frames|] == frames;
    }
  }

  function AddAll(ephs: map<int, Ephemeris>, parse: seq<byte> -> Option<Ephemeris>, frames: seq<seq<byte>>): map<int, Ephemeris>
  {
    if frames == [] then ephs
    else
      var n := |frames| - 1;
      var before := AddAll(ephs, parse, frames[..n]);
      match parse(frames[n]) case None => before case Some(e) => before[e.prn := e]
  }

  /** Frame i holds an ephemeris of that satellite. */
  predicate Holds(parse: seq<byte> -> Option<Ephemeris>, frames: seq<seq<byte>>, prn: int, i: nat)
    requires i < |frames|
  {
    match parse(frames[i]) case None => false case Some(e) => e.prn == prn
  }

  /** Frame i is the last to do so. */
  predicate HoldsLast(parse: seq<byte> -> Option<Ephemeris>, frames: seq<seq<byte>>, prn: int, i: nat)
    requires i < |frames|
  {
    Holds(parse, frames, prn, i) && forall j :: i < j < |frames| ==> !Holds(parse, frames, prn, j)
  }

  /** Main result: what is stored for a satellite is the ephemeris of the last frame that holds one of its own. */
  lemma {:induction false} NewestEphemeris(ephs: map<int, Ephemeris>, parse: seq<byte> -> Option<Ephemeris>,
                                           frames: seq<seq<byte>>, prn: int, i: nat)
    requires i < |frames| && HoldsLast(parse, frames, prn, i)
    ensures var all := AddAll(ephs, parse, frames); prn in all && parse(frames[i]) == Some(all[prn])
  {
    var n := |frames| - 1;
    if i < n {
      assert !Holds(parse, frames, prn, n);
      assert forall j: nat :: j < n ==> Holds(parse, frames[..n], prn, j) == Holds(parse, frames, prn, j);
      NewestEphemeris(ephs, parse, frames[..n], prn, i);
    }
  }

  /** Without such a frame it is what it was. */
  lemma {:induction false} OldEphemeris(ephs: map<int, Ephemeris>, parse: seq<byte> -> Option<Ephemeris>,
                                        frames: seq<seq<byte>>, prn: int)
    requires forall i :: 0 <= i < |frames| ==> !Holds(parse, frames, prn, i)
    ensures var all := AddAll(ephs, parse, frames);
            (prn in all <==> prn in ephs) && (prn in all ==> all[prn] == ephs[prn])
  {
    if frames != [] {
      var n := |frames| - 1;
      assert !Holds(parse, frames, prn, n);
      assert forall j: nat :: j < n ==> Holds(parse, frames[..n], prn, j) == Holds(parse, frames, prn, j);
      OldEphemeris(ephs, parse, frames[..n], prn);
    }
  }

  // ------------------------------------------------------------------------ lemmas

  lemma WireNotEmpty(data: seq<bool>, seed: (bool, bool))
    requires |data| % 24 == 0 && |data| >= 48
    ensures Wire(data, seed) != []
  {
  }

  lemma DueType3(cfg: Settings, s: CState, tow: real, call: Call)
    requires Type3Due(s, tow) && call == SendType3(HeaderFor(cfg, s, tow), s.base.value)
    ensures TryType3(cfg, s, tow) ==
            if call.Accepted()
            then Outcome(s.(seqno := NextSeq(s.seqno), seed := SeedLeft(call.Bits(), s.seed), lastType3 := Some(tow)),
                         [Attempt(tow, call)], false)
            else Outcome(s.(seqno := NextSeq(s.seqno)), [Attempt(tow, call)], true)
  {
  }

  lemma PublishedOne(call: Call, seed: (bool, bool))
    ensures Published([call], seed) == if call.Accepted() then [Wire(call.Bits(), seed)] else []
  {
    assert [call][1..] == [];
  }

  lemma PublishedCons(c: Call, rest: seq<Call>, seed: (bool, bool))
    ensures var next := if c.Accepted() then SeedLeft(c.Bits(), seed) else seed;
            && Published([c] + rest, seed) == Published([c], seed) + Published(rest, next)
            && SeedAfterCalls([c] + rest, seed) == SeedAfterCalls(rest, next)
  {
    PublishedOne(c, seed);
    assert ([c] + rest)[1..] == rest;
  }

  lemma {:induction false} PublishedConcat(a: seq<Call>, b: seq<Call>, seed: (bool, bool))
    ensures Published(a + b, seed) == Published(a, seed) + Published(b, SeedAfterCalls(a, seed))
    ensures SeedAfterCalls(a + b, seed) == SeedAfterCalls(b, SeedAfterCalls(a, seed))
    decreases |a|
  {
    if a == [] {
      assert a + b == b;
    } else {
      var c, rest := a[0], a[1..];
      assert a == [c] + rest;
      PublishedConcatCons(c, rest, b, seed);
    }
  }

  lemma {:induction false} PublishedConcatCons(c: Call, rest: seq<Call>, b: seq<Call>, seed: (bool, bool))
    ensures Published(([c] + rest) + b, seed) == Published([c] + rest, seed) + Published(b, SeedAfterCalls([c] + rest, seed))
    ensures SeedAfterCalls(([c] + rest) + b, seed) == SeedAfterCalls(b, SeedAfterCalls([c] + rest, seed))
    decreases |[c] + rest|, 0
  {
    var next := if c.Accepted() then SeedLeft(c.Bits(), seed) else seed;
    PublishedConcat(rest, b, next);
    PublishedCons(c, rest, seed);
    PublishedCons(c, rest + b, seed);
    Assoc([c], rest, b);
    Assoc(Published([c], seed), Published(rest, next), Published(b, SeedAfterCalls(rest, next)));
  }

  lemma TrySeed(s: CState, tow: real, call: Call)
    ensures Try(s, tow, call).state.seed == SeedAfterCalls(Calls(Try(s, tow, call).tried), s.seed)
  {
    assert Calls([Attempt(tow, call)]) == [call];
    assert [call][1..] == [];
  }

  lemma Type3Seed(cfg: Settings, s: CState, tow: real)
    ensures var o := TryType3(cfg, s, tow); o.state.seed == SeedAfterCalls(Calls(o.tried), s.seed)
  {
    if Type3Due(s, tow) { TrySeed(s, tow, SendType3(HeaderFor(cfg, s, tow), s.base.value)); }
  }

  lemma BothSeed(cfg: Settings, s: CState, tow: real, cs: seq<Correction>)
    ensures var o := TryBoth(cfg, s, tow, cs); o.state.seed == SeedAfterCalls(Calls(o.tried), s.seed)
  {
    var first := TryType3(cfg, s, tow);
    Type3Seed(cfg, s, tow);
    if !first.raised {
      var second := TryType1(cfg, first.state, tow, cs);
      TrySeed(first.state, tow, SendType1(HeaderFor(cfg, first.state, tow), cs));
      TriedConcat(first.tried, second.tried, s.seed);
    }
  }

  lemma TriedConcat(a: seq<Attempt>, b: seq<Attempt>, seed: (bool, bool))
    ensures Published(Calls(a + b), seed) == Published(Calls(a), seed) + Published(Calls(b), SeedAfterCalls(Calls(a), seed))
    ensures SeedAfterCalls(Calls(a + b), seed) == SeedAfterCalls(Calls(b), SeedAfterCalls(Calls(a), seed))
  {
    assert Calls(a + b) == Calls(a) + Calls(b);
    PublishedConcat(Calls(a), Calls(b), seed);
  }

  /** Publishing two rounds of messages, one after the other. */
  lemma FeedStep(s: FeedState, a: seq<Attempt>, b: seq<Attempt>, seed: (bool, bool), mid: (bool, bool))
    requires mid == SeedAfterCalls(Calls(a), seed)
    ensures AfterPublish(AfterPublish(s, Published(Calls(a), seed)), Published(Calls(b), mid)) ==
            AfterPublish(s, Published(Calls(a + b), seed))
    ensures SeedAfterCalls(Calls(a + b), seed) == SeedAfterCalls(Calls(b), mid)
  {
    TriedConcat(a, b, seed);
    AfterBoth(s, Published(Calls(a), seed), Published(Calls(b), mid));
  }

  lemma AfterNothing(o: Outcome)
    ensures After([], o) == o
  {
    assert [] + o.tried == o.tried;
  }

  lemma BatchAdvance(cfg: Settings, s: CState, es: seq<ObsEvent>, i: nat, tried: seq<Attempt>)
    requires i < |es|
    ensures var o := Step(cfg, s, es[i]);
            After(tried, Batch(cfg, s, es[i..])) ==
            if o.raised then After(tried, o) else After(tried + o.tried, Batch(cfg, o.state, es[i + 1..]))
  {
    var o := Step(cfg, s, es[i]);
    assert es[i..][1..] == es[i + 1..];
    BatchStep(cfg, s, es[i..]);
    Assoc(tried, o.tried, Batch(cfg, o.state, es[i + 1..]).tried);
  }

  /** The encoder's seed after a step is what the calls tried leave. */
  lemma StepSeed(cfg: Settings, s: CState, e: ObsEvent)
    ensures var o := Step(cfg, s, e); o.state.seed == SeedAfterCalls(Calls(o.tried), s.seed)
  {
    match e
    case Epoch(tow, prs) =>
      var sats := GatedSats(cfg, s, tow, prs);
      BothSeed(cfg, s.(prev := Recall(s.prev, tow, sats)), tow, Emit(RateFn(s.prev, tow), cfg.maxResidual, sats));
    case _ =>
  }

  lemma BatchStep(cfg: Settings, s: CState, es: seq<ObsEvent>)
    requires es != []
    ensures var first := Step(cfg, s, es[0]);
            Batch(cfg, s, es) ==
            if first.raised then first
            else After(first.tried, Batch(cfg, first.state, es[1..]))
  {
  }
}
