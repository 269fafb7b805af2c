/** The converter's two ends: what a receiver hears, and how little the upstream chunking matters. */
module ConverterStream {
  import opened Basics
  import opened Framer
  import opened Rtcm2
  import opened Encoder
  import opened Decoder
  import Statistics
  import opened Dgps
  import opened Quantise
  import opened Converter
  import opened ConverterRuns

  // ------------------------------------------------------------------ the receiver

  /** Everything put on the feed is what one encoder returns over the calls tried. */
  lemma {:induction false} PublishedIsRun(calls: seq<Call>, seed: (bool, bool))
    ensures Run(calls, seed) == (Framer.Join(Published(calls, seed)), SeedAfterCalls(calls, seed))
    decreases |calls|
  {
    if calls != [] {
      var c, rest := calls[0], calls[1..];
      if c.Accepted() {
        PublishedIsRun(rest, SeedLeft(c.Bits(), seed));
        JoinCons(Wire(c.Bits(), seed), Published(rest, SeedLeft(c.Bits(), seed)));
      } else {
        PublishedIsRun(rest, seed);
      }
    }
  }

  lemma JoinCons(x: seq<byte>, rest: seq<seq<byte>>)
    ensures Framer.Join([x] + rest) == x + Framer.Join(rest)
  {
    assert ([x] + rest)[1..] == rest;
  }

  /** All that a run has published, end to end. */
  function OnAir(s: Session): seq<byte>
  {
    Framer.Join(Published(Calls(s.tried), (false, false)))
  }

  /** Main result: after any run, rejected messages and lost batches included, a receiver of the
      published bytes finds no parity violation and reads exactly the accepted messages, each carrying
      what its call was given; and the seed kept is the last two bits sent. */
  lemma ReceiverReadsTheRun(cfg: Settings, p: Parsers, inputs: seq<Read>)
    ensures var s := RunAll(cfg, p, inputs);
            var air := [false, false] + Deframe(OnAir(s));
            && DecodeStream(OnAir(s), (false, false)) == Some(Meanings(Kept(Calls(s.tried))))
            && s.state.seed == (air[|air| - 2], air[|air| - 1])
            && forall i :: 0 <= i < |Kept(Calls(s.tried))| ==>
                 Carried(Kept(Calls(s.tried))[i], Meanings(Kept(Calls(s.tried)))[i])
  {
    var s := RunAll(cfg, p, inputs);
    EveryRun(cfg, p, inputs);
    PublishedIsRun(Calls(s.tried), (false, false));
    RunDecodes(Calls(s.tried), (false, false));
    SeedSafety(Calls(s.tried), (false, false));
  }

  predicate AnyRejected(tried: seq<Attempt>)
  {
    exists a <- tried :: !a.call.Accepted()
  }

  lemma {:induction false} KeptAll(calls: seq<Call>)
    requires forall c <- calls :: c.Accepted()
    ensures Kept(calls) == calls
  {
    if calls != [] {
      assert calls[0] in calls;
      KeptAll(calls[1..]);
    }
  }

  /** Main result: over a run in which nothing was rejected, the receiver reads one message per
      message tried, numbered 1, 2, 3, ... modulo 8 across both types, with the Z-count of its time. */
  lemma ReceiverCounts(cfg: Settings, p: Parsers, inputs: seq<Read>) returns (ms: seq<Message>)
    requires !AnyRejected(RunAll(cfg, p, inputs).tried)
    ensures var s := RunAll(cfg, p, inputs);
            && DecodeStream(OnAir(s), (false, false)) == Some(ms) && |ms| == |s.tried|
            && forall i :: 0 <= i < |ms| ==>
                 && ms[i].h == Header(cfg.station, ModifiedZcount(s.tried[i].tow), (i + 1) % 8, 0)
                 && ms[i].Type3? == IsType3(s.tried[i])
  {
    var s := RunAll(cfg, p, inputs);
    ReceiverReadsTheRun(cfg, p, inputs);
    forall c | c in Calls(s.tried) ensures c.Accepted() {
      var i :| 0 <= i < |s.tried| && Calls(s.tried)[i] == c;
      assert s.tried[i] in s.tried;
    }
    KeptAll(Calls(s.tried));
    ms := Meanings(Calls(s.tried));
    forall i | 0 <= i < |ms|
      ensures ms[i].h == Header(cfg.station, ModifiedZcount(s.tried[i].tow), (i + 1) % 8, 0)
      ensures ms[i].Type3? == IsType3(s.tried[i])
    {
      RunNumbering(cfg, p, inputs, i);
    }
  }

  lemma EmittedWithinLimit(rate: Sat -> Option<real>, maxResidual: real, sats: seq<Sat>, c: Correction)
    requires c in Emit(rate, maxResidual, sats)
    ensures Abs(c.prc) <= maxResidual
  {
    var f := OutFn(rate, maxResidual, Statistics.Median(Values(sats)), RateOffset(FilterMap(rate, sats)));
    FilterMapMembers(f, SortSats(sats));
  }

  lemma InMetres(x: real, counts: int, lsb: real)
    requires lsb > 0.0 && Abs(counts as real - x / lsb) <= 0.5
    ensures Abs(Metres(counts, lsb) - x) <= lsb / 2.0
  {
    HalfStep(counts as real, x / lsb, lsb);
    assert x / lsb * lsb == x;
  }

  lemma HalfStep(n: real, q: real, lsb: real)
    requires lsb > 0.0 && Abs(n - q) <= 0.5
    ensures Abs(n * lsb - q * lsb) <= lsb / 2.0
  {
    NonNegative(0.5 - (n - q), lsb);
    NonNegative(0.5 + (n - q), lsb);
  }

  lemma NonNegative(a: real, b: real)
    requires a >= 0.0 && b >= 0.0
    ensures a * b >= 0.0
  {
  }

  /** With a residual limit inside the coarse range, what a receiver reads for a correction the
      generator emitted is within half an LSB of it: the PRC is never clamped. */
  lemma ReceivedPrcIsClose(rate: Sat -> Option<real>, maxResidual: real, sats: seq<Sat>, c: Correction)
    requires c in Emit(rate, maxResidual, sats) && maxResidual < 10485.6
    ensures var r := RecordOf(c);
            Abs(Metres(r.prc, PRC_SCALE[r.scale]) - c.prc) <= PRC_SCALE[r.scale] / 2.0
  {
    var r := RecordOf(c);
    EmittedWithinLimit(rate, maxResidual, sats, c);
    FineExactlyWhenBothFit(c.prc, c.rrc);
    QuantiserFaithful(c.prc, c.rrc);
    assert r.scale == 1 ==> Abs(c.prc / 0.32) < 32767.5;
    InMetres(c.prc, r.prc, PRC_SCALE[r.scale]);
  }

  // ---------------------------------------------------------------- rejected messages

  lemma RejectedConcat(a: seq<Attempt>, b: seq<Attempt>)
    ensures AnyRejected(a + b) <==> AnyRejected(a) || AnyRejected(b)
  {
    if x :| x in a && !x.call.Accepted() { assert x in a + b; }
    if x :| x in b && !x.call.Accepted() { assert x in a + b; }
  }

  lemma TryRaises(s: CState, tow: real, call: Call)
    ensures var o := Try(s, tow, call); o.raised <==> AnyRejected(o.tried)
  {
    var a := Attempt(tow, call);
    assert a in [a];
  }

  lemma StepRaises(cfg: Settings, s: CState, e: ObsEvent)
    ensures var o := Step(cfg, s, e); o.raised <==> AnyRejected(o.tried)
  {
    match e
    case Epoch(tow, prs) =>
      var sats := GatedSats(cfg, s, tow, prs);
      var cs := Emit(RateFn(s.prev, tow), cfg.maxResidual, sats);
      if cs != [] { BothRaise(cfg, s.(prev := Recall(s.prev, tow, sats)), tow, cs); }
    case _ =>
  }

  lemma BothRaise(cfg: Settings, s: CState, tow: real, cs: seq<Correction>)
    ensures var o := TryBoth(cfg, s, tow, cs); o.raised <==> AnyRejected(o.tried)
  {
    var first := TryType3(cfg, s, tow);
    if Type3Due(s, tow) { TryRaises(s, tow, SendType3(HeaderFor(cfg, s, tow), s.base.value)); }
    if !first.raised {
      TryRaises(first.state, tow, SendType1(HeaderFor(cfg, first.state, tow), cs));
      RejectedConcat(first.tried, TryType1(cfg, first.state, tow, cs).tried);
    }
  }

  lemma {:induction false} BatchRaises(cfg: Settings, s: CState, es: seq<ObsEvent>)
    ensures var o := Batch(cfg, s, es); o.raised <==> AnyRejected(o.tried)
    decreases |es|
  {
    if es != [] {
      var first := Step(cfg, s, es[0]);
      StepRaises(cfg, s, es[0]);
      if !first.raised {
        BatchRaises(cfg, first.state, es[1..]);
        RejectedConcat(first.tried, Batch(cfg, first.state, es[1..]).tried);
      }
    }
  }

  /** A handler has raised during a run exactly when some message of it was rejected. */
  lemma {:induction false} RaisedIffRejected(cfg: Settings, p: Parsers, inputs: seq<Read>)
    ensures var s := RunAll(cfg, p, inputs); s.raised <==> AnyRejected(s.tried)
  {
    if inputs != [] {
      var n := |inputs| - 1;
      var before := RunAll(cfg, p, inputs[..n]);
      RaisedIffRejected(cfg, p, inputs[..n]);
      if inputs[n].ObsData? {
        var es := ParseAll(p.obs, Extract(before.obsBuf + inputs[n].data).0);
        BatchRaises(cfg, before.state, es);
        RejectedConcat(before.tried, Batch(cfg, before.state, es).tried);
      }
    }
  }

  // ------------------------------------------------------------------ the message count

  /** Type 1 messages that went out. */
  function Type1sOut(tried: seq<Attempt>): nat
  {
    if tried == [] then 0
    else (if !IsType3(tried[0]) && tried[0].call.Accepted() then 1 else 0) + Type1sOut(tried[1..])
  }

  lemma {:induction false} Type1sConcat(a: seq<Attempt>, b: seq<Attempt>)
    ensures Type1sOut(a + b) == Type1sOut(a) + Type1sOut(b)
  {
    if a == [] {
      assert a + b == b;
    } else {
      Type1sConcat(a[1..], b);
      assert (a + b)[1..] == a[1..] + b;
    }
  }

  lemma OneTried(a: Attempt)
    ensures Type1sOut([a]) == if !IsType3(a) && a.call.Accepted() then 1 else 0
  {
    assert [a][1..] == [];
  }

  lemma Type3Counts(cfg: Settings, s: CState, tow: real)
    ensures var o := TryType3(cfg, s, tow); o.state.messagesOut == s.messagesOut && Type1sOut(o.tried) == 0
  {
    if Type3Due(s, tow) { OneTried(Attempt(tow, SendType3(HeaderFor(cfg, s, tow), s.base.value))); }
  }

  lemma Type1Counts(cfg: Settings, s: CState, tow: real, cs: seq<Correction>)
    ensures var o := TryType1(cfg, s, tow, cs); o.state.messagesOut == s.messagesOut + Type1sOut(o.tried)
  {
    OneTried(Attempt(tow, SendType1(HeaderFor(cfg, s, tow), cs)));
  }

  lemma BothCount(cfg: Settings, s: CState, tow: real, cs: seq<Correction>)
    ensures var o := TryBoth(cfg, s, tow, cs); o.state.messagesOut == s.messagesOut + Type1sOut(o.tried)
  {
    var first := TryType3(cfg, s, tow);
    Type3Counts(cfg, s, tow);
    if !first.raised {
      Type1Counts(cfg, first.state, tow, cs);
      Type1sConcat(first.tried, TryType1(cfg, first.state, tow, cs).tried);
    }
  }

  lemma StepCounts(cfg: Settings, s: CState, e: ObsEvent)
    ensures var o := Step(cfg, s, e); o.state.messagesOut == s.messagesOut + Type1sOut(o.tried)
  {
    match e
    case Epoch(tow, prs) =>
      var sats := GatedSats(cfg, s, tow, prs);
      BothCount(cfg, s.(prev := Recall(s.prev, tow, sats)), tow, Emit(RateFn(s.prev, tow), cfg.maxResidual, sats));
    case _ =>
  }

  lemma {:induction false} BatchCounts(cfg: Settings, s: CState, es: seq<ObsEvent>)
    ensures var o := Batch(cfg, s, es); o.state.messagesOut == s.messagesOut + Type1sOut(o.tried)
    decreases |es|
  {
    if es != [] {
      var first := Step(cfg, s, es[0]);
      StepCounts(cfg, s, es[0]);
      if !first.raised {
        BatchCounts(cfg, first.state, es[1..]);
        Type1sConcat(first.tried, Batch(cfg, first.state, es[1..]).tried);
      }
    }
  }

  /** After any run the count of messages is that of the Type 1 messages published. */
  lemma {:induction false} MessagesCounted(cfg: Settings, p: Parsers, inputs: seq<Read>)
    ensures var s := RunAll(cfg, p, inputs); s.state.messagesOut == Type1sOut(s.tried)
  {
    if inputs != [] {
      var n := |inputs| - 1;
      var before := RunAll(cfg, p, inputs[..n]);
      MessagesCounted(cfg, p, inputs[..n]);
      if inputs[n].ObsData? {
        var es := ParseAll(p.obs, Extract(before.obsBuf + inputs[n].data).0);
        BatchCounts(cfg, before.state, es);
        Type1sConcat(before.tried, Batch(cfg, before.state, es).tried);
      }
    }
  }

  // ------------------------------------------------------------- upstream chunking

  /** feed_obs, chunk after chunk; the caller carries on after an exception. */
  function FeedEach(cfg: Settings, parse: seq<byte> -> ObsEvent, s: CState, buf: seq<byte>, chunks: seq<seq<byte>>):
    (Outcome, seq<byte>)
    decreases |chunks|
  {
    if chunks == [] then (Outcome(s, [], false), buf)
    else
      var (frames, rest) := Extract(buf + chunks[0]);
      var o := Batch(cfg, s, ParseAll(parse, frames));
      var (later, last) := FeedEach(cfg, parse, o.state, rest, chunks[1..]);
      (After(o.tried, later).(raised := o.raised || later.raised), last)
  }

  lemma {:induction false} BatchConcat(cfg: Settings, s: CState, a: seq<ObsEvent>, b: seq<ObsEvent>)
    ensures var o := Batch(cfg, s, a);
            Batch(cfg, s, a + b) == if o.raised then o else After(o.tried, Batch(cfg, o.state, b))
    decreases |a|
  {
    if a == [] {
      assert a + b == b;
      AfterNothing(Batch(cfg, s, b));
    } else {
      var first := Step(cfg, s, a[0]);
      assert (a + b)[1..] == a[1..] + b;
      if !first.raised {
        var mid := Batch(cfg, first.state, a[1..]);
        BatchConcat(cfg, first.state, a[1..], b);
        Assoc(first.tried, mid.tried, Batch(cfg, mid.state, b).tried);
      }
    }
  }

  lemma ParseConcat(parse: seq<byte> -> ObsEvent, a: seq<seq<byte>>, b: seq<seq<byte>>)
    ensures ParseAll(parse, a + b) == ParseAll(parse, a) + ParseAll(parse, b)
  {
  }

  lemma BatchNothing(cfg: Settings, parse: seq<byte> -> ObsEvent, s: CState, buf: seq<byte>)
    requires Waiting(buf)
    ensures Extract(buf) == ([], buf)
    ensures Batch(cfg, s, ParseAll(parse, [])) == Outcome(s, [], false)
  {
    WaitingStays(buf);
  }

  /** Main result: feeding a stream chunk by chunk leaves the same buffer as feeding it at once, and
      raises in exactly the same cases. Where nothing raises the two also try the same messages and
      end in the same state; where something does, feeding at once stops at the first exception and
      chunk by chunk carries on from there. */
  lemma {:induction false} ConverterChunks(cfg: Settings, parse: seq<byte> -> ObsEvent, s: CState,
                                           buf: seq<byte>, chunks: seq<seq<byte>>)
    requires Waiting(buf)
    ensures var (frames, rest) := Extract(buf + Framer.Join(chunks));
            var once := Batch(cfg, s, ParseAll(parse, frames));
            var (each, last) := FeedEach(cfg, parse, s, buf, chunks);
            && last == rest && each.raised == once.raised && once.tried <= each.tried
            && (!once.raised ==> each == once)
    decreases |chunks|
  {
    if chunks == [] {
      assert buf + [] == buf;
      BatchNothing(cfg, parse, s, buf);
    } else {
      var c, tail := chunks[0], chunks[1..];
      var (fs, mid) := Extract(buf + c);
      var o := Batch(cfg, s, ParseAll(parse, fs));
      LeavesWaiting(buf + c);
      ConverterChunks(cfg, parse, o.state, mid, tail);
      ExtractResumes(buf + c, Framer.Join(tail));
      Assoc(buf, c, Framer.Join(tail));
      var more := Extract(mid + Framer.Join(tail)).0;
      ParseConcat(parse, fs, more);
      BatchConcat(cfg, s, ParseAll(parse, fs), ParseAll(parse, more));
    }
  }
}
