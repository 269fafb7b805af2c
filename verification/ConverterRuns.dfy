/** What the Converter keeps and emits over whole runs. */
module ConverterRuns {
  import opened Basics
  import opened Framer
  import opened Rtcm2
  import Decoder
  import opened Dgps
  import opened Converter

  /** One read from either upstream. */
  datatype Read = ObsData(data: seq<byte>) | EphData(data: seq<byte>)

  /** What the frames of the two streams mean. */
  datatype Parsers = Parsers(obs: seq<byte> -> ObsEvent, eph: seq<byte> -> Option<Ephemeris>)

  /** A converter some way into its run: its state and buffers, every message tried so far, and
      whether any handler has raised. */
  datatype Session = Session(state: CState, obsBuf: seq<byte>, ephBuf: seq<byte>, tried: seq<Attempt>, raised: bool)

  const START := CState(None, map[], map[], (false, false), 0, None, 0)

  function AfterRead(cfg: Settings, p: Parsers, s: Session, read: Read): Session
  {
    match read
    case ObsData(data) =>
      var (frames, rest) := Extract(s.obsBuf + data);
      var o := Batch(cfg, s.state, ParseAll(p.obs, frames));
      s.(state := o.state, obsBuf := rest, tried := s.tried + o.tried, raised := s.raised || o.raised)
    case EphData(data) =>
      var (frames, rest) := Extract(s.ephBuf + data);
      s.(state := s.state.(ephemerides := AddAll(s.state.ephemerides, p.eph, frames)), ephBuf := rest)
  }

  /** The run of a fresh converter over any reads; a handler that raises only ends its own batch. */
  function RunAll(cfg: Settings, p: Parsers, inputs: seq<Read>): Session
  {
    if inputs == [] then Session(START, [], [], [], false)
    else
      var n := |inputs| - 1;
      AfterRead(cfg, p, RunAll(cfg, p, inputs[..n]), inputs[n])
  }

  // --------------------------------------------------------------------- Z-count

  /** Main result: the Z-count is in its range and within 0.3 s of the time, around the hour circle. */
  lemma ZcountNear(tow: real) returns (hours: int)
    ensures 0 <= ModifiedZcount(tow) < 6000
    ensures Abs(tow - (0.6 * ModifiedZcount(tow) as real + 3600.0 * hours as real)) <= 0.3
  {
    var m := FloorMod(tow, 3600.0);
    FloorModRange(tow, 3600.0);
    var h := (tow / 3600.0).Floor;
    assert tow == m + 3600.0 * h as real;
    var r := RoundHalfEven(m / 0.6);
    assert Abs(m / 0.6 - r as real) <= 0.5;
    assert 0 <= r <= 6000;
    if r == 6000 {
      hours := h + 1;
      assert 3600.0 * hours as real == 3600.0 * h as real + 3600.0;
    } else {
      hours := h;
    }
  }

  // ------------------------------------------------------------- the run invariant

  /** The tow of the last Type 3 that went out. */
  function LastType3(tried: seq<Attempt>): Option<real>
  {
    if tried == [] then None
    else
      var n := |tried| - 1;
      if tried[n].call.SendType3? && tried[n].call.Accepted() then Some(tried[n].tow)
      else LastType3(tried[..n])
  }

  predicate IsType3(a: Attempt) { a.call.SendType3? }

  /** Age of the last Type 3, modulo the week. */
  function Age(tow: real, last: real): real { FloorMod(tow - last, WEEK) }

  predicate HeaderOk(cfg: Settings, a: Attempt, i: int)
  {
    a.call.h == Header(cfg.station, ModifiedZcount(a.tow), (i + 1) % 8, 0)
  }

  /** When the message was tried: a Type 3 only when one is due, a Type 1 only under a recent one. */
  predicate TimeOk(before: seq<Attempt>, a: Attempt)
  {
    match LastType3(before)
    case None => IsType3(a)
    case Some(t) => IsType3(a) <==> Age(a.tow, t) >= TYPE3_INTERVAL
  }

  predicate UdreOk(a: Attempt)
  {
    a.call.SendType1? ==> forall c <- a.call.cs :: 0 <= c.udre < 4
  }

  predicate AttemptOk(cfg: Settings, tried: seq<Attempt>, i: nat)
    requires i < |tried|
  {
    HeaderOk(cfg, tried[i], i) && TimeOk(tried[..i], tried[i]) && UdreOk(tried[i])
  }

  /** An accepted Type 3 is directly followed by the Type 1 of the same epoch. */
  predicate PairOk(tried: seq<Attempt>, i: nat)
    requires i < |tried|
  {
    IsType3(tried[i]) && tried[i].call.Accepted() ==>
      i + 1 < |tried| && !IsType3(tried[i + 1]) && tried[i + 1].tow == tried[i].tow
  }

  /** The run invariant but for the pairing of the newest message. */
  ghost predicate InvOpen(cfg: Settings, s: CState, tried: seq<Attempt>)
  {
    && s.seqno == |tried| % 8
    && s.lastType3 == LastType3(tried)
    && s.seed == SeedAfterCalls(Calls(tried), (false, false))
    && (forall i :: 0 <= i < |tried| ==> AttemptOk(cfg, tried, i))
    && (forall i :: 0 <= i < |tried| - 1 ==> PairOk(tried, i))
  }

  ghost predicate Inv(cfg: Settings, s: CState, tried: seq<Attempt>)
  {
    InvOpen(cfg, s, tried) && (tried != [] ==> PairOk(tried, |tried| - 1))
  }

  lemma SnocPrefix<T>(a: seq<T>, x: T)
    ensures (a + [x])[..|a|] == a && forall i :: 0 <= i <= |a| ==> (a + [x])[..i] == a[..i]
  {
  }

  lemma NextSeqno(n: nat)
    ensures NextSeq(n % 8) == (n + 1) % 8
  {
  }

  /** One more message, tried at a time that is right for its type. */
  lemma TryKeeps(cfg: Settings, s: CState, tried: seq<Attempt>, a: Attempt, s': CState)
    requires InvOpen(cfg, s, tried) && (tried != [] ==> PairOk(tried + [a], |tried| - 1))
    requires a.call.h == HeaderFor(cfg, s, a.tow) && TimeOk(tried, a) && UdreOk(a)
    requires s'.seqno == NextSeq(s.seqno) && s'.seed == SeedAfterCalls([a.call], s.seed)
    requires s'.lastType3 == if IsType3(a) && a.call.Accepted() then Some(a.tow) else s.lastType3
    ensures InvOpen(cfg, s', tried + [a])
  {
    var t := tried + [a];
    var n := |tried|;
    SnocPrefix(tried, a);
    NextSeqno(n);
    assert Calls([a]) == [a.call];
    TriedConcat(tried, [a], (false, false));
    forall i | 0 <= i < |t| ensures AttemptOk(cfg, t, i) {
      if i < n { assert AttemptOk(cfg, tried, i) && t[i] == tried[i]; }
    }
    forall i | 0 <= i < |t| - 1 ensures PairOk(t, i) {
      if i < n - 1 { assert PairOk(tried, i) && t[i] == tried[i] && t[i + 1] == tried[i + 1]; }
    }
  }

  lemma TrySeedOne(s: CState, tow: real, call: Decoder.Call)
    ensures Try(s, tow, call).state.seed == SeedAfterCalls([call], s.seed)
  {
    assert [call][1..] == [];
  }

  lemma AgeOfNow(tow: real)
    ensures Age(tow, tow) == 0.0
  {
    assert (0.0 / WEEK).Floor == 0;
  }

  lemma Type3Keeps(cfg: Settings, s: CState, tried: seq<Attempt>, tow: real)
    requires Inv(cfg, s, tried) && s.base.Some?
    ensures var o := TryType3(cfg, s, tow);
            && InvOpen(cfg, o.state, tried + o.tried)
            && (o.raised ==> Inv(cfg, o.state, tried + o.tried))
            && (!o.raised ==> exists t :: LastType3(tried + o.tried) == Some(t) && Age(tow, t) < TYPE3_INTERVAL)
            && (o.tried == [] ==> o.state == s)
            && (o.tried != [] && !o.raised ==>
                  (|o.tried| == 1 && IsType3(o.tried[0]) && o.tried[0].tow == tow && o.tried[0].call.Accepted()))
  {
    var o := TryType3(cfg, s, tow);
    assert tried + [] == tried;
    if Type3Due(s, tow) {
      var call := Decoder.SendType3(HeaderFor(cfg, s, tow), s.base.value);
      TrySeedOne(s, tow, call);
      if tried != [] { assert PairOk(tried, |tried| - 1); }
      TryKeeps(cfg, s, tried, Attempt(tow, call), o.state);
      SnocPrefix(tried, Attempt(tow, call));
      AgeOfNow(tow);
      if o.raised { ClosePair(cfg, o.state, tried + o.tried); }
    }
  }

  /** A message that is no accepted Type 3 needs no partner. */
  lemma ClosePair(cfg: Settings, s: CState, tried: seq<Attempt>)
    requires InvOpen(cfg, s, tried) && tried != [] && PairOk(tried, |tried| - 1)
    ensures Inv(cfg, s, tried)
  {
  }

  lemma {:induction false} Type1Keeps(cfg: Settings, s: CState, tried: seq<Attempt>, tow: real, cs: seq<Correction>)
    requires InvOpen(cfg, s, tried) && forall c <- cs :: 0 <= c.udre < 4
    requires exists t :: LastType3(tried) == Some(t) && Age(tow, t) < TYPE3_INTERVAL
    requires tried != [] ==> PairOk(tried, |tried| - 1) || tried[|tried| - 1].tow == tow
    ensures var o := TryType1(cfg, s, tow, cs); Inv(cfg, o.state, tried + o.tried)
  {
    var o := TryType1(cfg, s, tow, cs);
    var call := Decoder.SendType1(HeaderFor(cfg, s, tow), cs);
    TrySeedOne(s, tow, call);
    TryKeeps(cfg, s, tried, Attempt(tow, call), o.state);
    SnocPrefix(tried, Attempt(tow, call));
    ClosePair(cfg, o.state, tried + o.tried);
  }

  lemma BothKeep(cfg: Settings, s: CState, tried: seq<Attempt>, tow: real, cs: seq<Correction>)
    requires Inv(cfg, s, tried) && s.base.Some? && forall c <- cs :: 0 <= c.udre < 4
    ensures var o := TryBoth(cfg, s, tow, cs); Inv(cfg, o.state, tried + o.tried)
  {
    var first := TryType3(cfg, s, tow);
    Type3Keeps(cfg, s, tried, tow);
    if !first.raised {
      var mid := tried + first.tried;
      if first.tried == [] {
        assert mid == tried;
        if tried != [] { assert PairOk(tried, |tried| - 1); }
      } else {
        assert mid[|mid| - 1] == first.tried[0];
      }
      Type1Keeps(cfg, first.state, mid, tow, cs);
      Assoc(tried, first.tried, TryType1(cfg, first.state, tow, cs).tried);
    }
  }

  lemma EmittedUdre(rate: Sat -> Option<real>, maxResidual: real, sats: seq<Sat>)
    ensures forall c <- Emit(rate, maxResidual, sats) :: 0 <= c.udre < 4
  {
    if sats != [] {
      var f := OutFn(rate, maxResidual, Statistics.Median(Values(sats)), RateOffset(FilterMap(rate, sats)));
      FilterMapMembers(f, SortSats(sats));
    }
  }

  lemma StepKeeps(cfg: Settings, s: CState, tried: seq<Attempt>, e: ObsEvent)
    requires Inv(cfg, s, tried)
    ensures var o := Step(cfg, s, e); Inv(cfg, o.state, tried + o.tried)
  {
    assert tried + [] == tried;
    match e
    case Epoch(tow, prs) =>
      var sats := GatedSats(cfg, s, tow, prs);
      var cs := Emit(RateFn(s.prev, tow), cfg.maxResidual, sats);
      EmittedUdre(RateFn(s.prev, tow), cfg.maxResidual, sats);
      if cs != [] { BothKeep(cfg, s.(prev := Recall(s.prev, tow, sats)), tried, tow, cs); }
    case _ =>
  }

  lemma {:induction false} BatchKeeps(cfg: Settings, s: CState, tried: seq<Attempt>, es: seq<ObsEvent>)
    requires Inv(cfg, s, tried)
    ensures var o := Batch(cfg, s, es); Inv(cfg, o.state, tried + o.tried)
    decreases |es|
  {
    assert tried + [] == tried;
    if es != [] {
      var first := Step(cfg, s, es[0]);
      StepKeeps(cfg, s, tried, es[0]);
      if !first.raised {
        BatchKeeps(cfg, first.state, tried + first.tried, es[1..]);
        Assoc(tried, first.tried, Batch(cfg, first.state, es[1..]).tried);
      }
    }
  }

  /** The invariant holds over every run, rejected messages and lost batches included. */
  lemma {:induction false} EveryRun(cfg: Settings, p: Parsers, inputs: seq<Read>)
    ensures Inv(cfg, RunAll(cfg, p, inputs).state, RunAll(cfg, p, inputs).tried)
  {
    if inputs != [] {
      var n := |inputs| - 1;
      EveryRun(cfg, p, inputs[..n]);
      ReadKeeps(cfg, p, RunAll(cfg, p, inputs[..n]), inputs[n]);
    }
  }

  lemma ReadKeeps(cfg: Settings, p: Parsers, s: Session, read: Read)
    requires Inv(cfg, s.state, s.tried)
    ensures var s' := AfterRead(cfg, p, s, read); Inv(cfg, s'.state, s'.tried)
  {
    match read
    case ObsData(data) => BatchKeeps(cfg, s.state, s.tried, ParseAll(p.obs, Extract(s.obsBuf + data).0));
    case EphData(data) =>
  }

  // ------------------------------------------------------------------ main results

  predicate Type3Out(a: Attempt) { IsType3(a) && a.call.Accepted() }

  /** tried[i] is the last accepted Type 3 before position n. */
  predicate LastOut(tried: seq<Attempt>, i: nat, n: nat)
    requires i < n <= |tried|
  {
    Type3Out(tried[i]) && forall k :: i < k < n ==> !Type3Out(tried[k])
  }

  lemma {:induction false} LastType3At(tried: seq<Attempt>, n: nat) returns (i: nat)
    requires n <= |tried| && LastType3(tried[..n]).Some?
    ensures i < n && LastOut(tried, i, n) && LastType3(tried[..n]) == Some(tried[i].tow)
  {
    var t := tried[..n];
    assert t[..n - 1] == tried[..n - 1];
    if Type3Out(tried[n - 1]) {
      i := n - 1;
    } else {
      i := LastType3At(tried, n - 1);
    }
  }

  lemma {:induction false} LastType3Of(tried: seq<Attempt>, i: nat, n: nat)
    requires i < n <= |tried| && LastOut(tried, i, n)
    ensures LastType3(tried[..n]) == Some(tried[i].tow)
    decreases n
  {
    var t := tried[..n];
    assert t[..n - 1] == tried[..n - 1];
    if i < n - 1 { LastType3Of(tried, i, n - 1); }
  }

  /** Main result: over every run, with or without rejected messages, the i-th message tried carries
      sequence number i + 1 modulo 8 whatever its type, the first is a Type 3, and a Type 3 that
      goes out is directly followed by a Type 1 with its time and Z-count. */
  lemma RunNumbering(cfg: Settings, p: Parsers, inputs: seq<Read>, i: nat)
    requires i < |RunAll(cfg, p, inputs).tried|
    ensures var t := RunAll(cfg, p, inputs).tried;
            && t[i].call.h == Header(cfg.station, ModifiedZcount(t[i].tow), (i + 1) % 8, 0)
            && (i == 0 ==> IsType3(t[i]))
            && (Type3Out(t[i]) ==> i + 1 < |t| && !IsType3(t[i + 1]) && t[i + 1].tow == t[i].tow
                                   && t[i + 1].call.h.zcount == t[i].call.h.zcount)
  {
    EveryRun(cfg, p, inputs);
    var t := RunAll(cfg, p, inputs).tried;
    assert AttemptOk(cfg, t, i) && PairOk(t, i);
    assert i == 0 ==> t[..i] == [];
    if i + 1 < |t| { assert AttemptOk(cfg, t, i + 1); }
  }

  /** tow is from 0 to under 60 s after t, with that number of weeks taken off. */
  predicate WithinMinute(tow: real, t: real, weeks: int) { 0.0 <= tow - t - 604800.0 * weeks as real < 60.0 }

  lemma YoungIsWithin(tow: real, t: real) returns (weeks: int)
    requires Age(tow, t) < 60.0
    ensures WithinMinute(tow, t, weeks)
  {
    weeks := ((tow - t) / WEEK).Floor;
    FloorModRange(tow - t, WEEK);
  }

  lemma OldIsNotWithin(tow: real, t: real)
    requires Age(tow, t) >= 60.0
    ensures forall weeks :: !WithinMinute(tow, t, weeks)
  {
    var k := ((tow - t) / WEEK).Floor;
    FloorModRange(tow - t, WEEK);
    forall weeks ensures !WithinMinute(tow, t, weeks) {
      if weeks < k {
        assert weeks as real <= k as real - 1.0;
      } else if weeks > k {
        assert weeks as real >= k as real + 1.0;
      }
    }
  }

  /** Main result: every Type 1 goes out under a Type 3 that is less than 60 s old modulo the week. */
  lemma Type1UnderRecentType3(cfg: Settings, p: Parsers, inputs: seq<Read>, n: nat) returns (i: nat, weeks: int)
    requires n < |RunAll(cfg, p, inputs).tried| && !IsType3(RunAll(cfg, p, inputs).tried[n])
    ensures var t := RunAll(cfg, p, inputs).tried;
            i < n && LastOut(t, i, n) && WithinMinute(t[n].tow, t[i].tow, weeks)
  {
    EveryRun(cfg, p, inputs);
    var t := RunAll(cfg, p, inputs).tried;
    assert AttemptOk(cfg, t, n);
    i := LastType3At(t, n);
    weeks := YoungIsWithin(t[n].tow, t[i].tow);
  }

  /** Main result: a Type 3 is not tried until 60 s, modulo the week, after the last that went out. */
  lemma Type3Spacing(cfg: Settings, p: Parsers, inputs: seq<Read>, i: nat, n: nat)
    requires i < n < |RunAll(cfg, p, inputs).tried|
    requires LastOut(RunAll(cfg, p, inputs).tried, i, n) && IsType3(RunAll(cfg, p, inputs).tried[n])
    ensures var t := RunAll(cfg, p, inputs).tried; forall weeks :: !WithinMinute(t[n].tow, t[i].tow, weeks)
  {
    EveryRun(cfg, p, inputs);
    var t := RunAll(cfg, p, inputs).tried;
    assert AttemptOk(cfg, t, n);
    LastType3Of(t, i, n);
    OldIsNotWithin(t[n].tow, t[i].tow);
  }

  /** What the encoder refuses in a call with a header in range. */
  predicate Unencodable(call: Decoder.Call)
  {
    match call
    case SendType3(_, e) => !(InReach(e.x) && InReach(e.y) && InReach(e.z))
    case SendType1(_, cs) => |cs| > 18 || exists c <- cs :: !(1 <= c.prn <= 32 && 0 <= c.iod < 256)
  }

  lemma RejectedCall(a: Attempt)
    requires a.call.h.Valid() && UdreOk(a)
    ensures !a.call.Accepted() <==> Unencodable(a.call)
  {
    match a.call
    case SendType3(_, e) =>
      CoordFitsExactly(e.x);
      CoordFitsExactly(e.y);
      CoordFitsExactly(e.z);
    case _ =>
  }

  lemma HeaderInRange(cfg: Settings, a: Attempt, i: nat)
    requires 1 <= cfg.station <= 1023 && HeaderOk(cfg, a, i)
    ensures a.call.h.Valid()
  {
    var hours := ZcountNear(a.tow);
  }

  /** Main result: exactly when a message of a run is rejected. */
  lemma RejectedExactly(cfg: Settings, p: Parsers, inputs: seq<Read>, i: nat)
    requires 1 <= cfg.station <= 1023 && i < |RunAll(cfg, p, inputs).tried|
    ensures var call := RunAll(cfg, p, inputs).tried[i].call; !call.Accepted() <==> Unencodable(call)
  {
    EveryRun(cfg, p, inputs);
    var t := RunAll(cfg, p, inputs).tried;
    assert AttemptOk(cfg, t, i);
    HeaderInRange(cfg, t[i], i);
    RejectedCall(t[i]);
  }
}
