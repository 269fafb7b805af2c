/** A byte stream fanned out to bounded subscriber queues (ntrip.py, Feed). */
module Feeds {
  import opened Basics

  type Bytes = seq<byte>

  const QUEUE_MAX := 512

  /** put_nowait, a full queue being left as it is. */
  function Offer(q: seq<Bytes>, data: Bytes): (r: seq<Bytes>)
    ensures |q| <= QUEUE_MAX ==> |r| <= QUEUE_MAX
  {
    if |q| < QUEUE_MAX then q + [data] else q
  }

  /** Offer, message after message. */
  function OfferAll(q: seq<Bytes>, msgs: seq<Bytes>): seq<Bytes>
    decreases |msgs|
  {
    if msgs == [] then q else OfferAll(Offer(q, msgs[0]), msgs[1..])
  }

  /** A queue offered messages gains, in order, as many of the first ones as it has room for. */
  lemma {:induction false} OfferAllIs(q: seq<Bytes>, msgs: seq<Bytes>)
    requires |q| <= 512
    ensures OfferAll(q, msgs) == q + if |q| + |msgs| <= 512 then msgs else msgs[..512 - |q|]
    decreases |msgs|
  {
    if msgs != [] {
      OfferAllIs(Offer(q, msgs[0]), msgs[1..]);
      assert msgs == [msgs[0]] + msgs[1..];
    }
  }

  lemma {:induction false} OfferAllConcat(q: seq<Bytes>, a: seq<Bytes>, b: seq<Bytes>)
    ensures OfferAll(OfferAll(q, a), b) == OfferAll(q, a + b)
    decreases |a|
  {
    if a == [] {
      assert a + b == b;
    } else {
      OfferAllConcat(Offer(q, a[0]), a[1..], b);
      assert (a + b)[1..] == a[1..] + b;
    }
  }

  function TotalLength(msgs: seq<Bytes>): nat
  {
    if msgs == [] then 0 else |msgs[0]| + TotalLength(msgs[1..])
  }

  lemma {:induction false} TotalLengthConcat(a: seq<Bytes>, b: seq<Bytes>)
    ensures TotalLength(a + b) == TotalLength(a) + TotalLength(b)
  {
    if a == [] {
      assert a + b == b;
    } else {
      TotalLengthConcat(a[1..], b);
      assert (a + b)[1..] == a[1..] + b;
    }
  }

  /** All of a feed at one moment; log is every non-empty message published so far. */
  datatype FeedState = FeedState(subs: set<nat>, queues: map<nat, seq<Bytes>>, totalBytes: nat, log: seq<Bytes>)

  /** After publishing messages: every subscriber's queue has been offered them in order, every other
      queue is as it was, and the same are subscribed. */
  function AfterPublish(s: FeedState, msgs: seq<Bytes>): FeedState
  {
    FeedState(s.subs, map id | id in s.queues :: if id in s.subs then OfferAll(s.queues[id], msgs) else s.queues[id],
              s.totalBytes + TotalLength(msgs), s.log + msgs)
  }

  lemma AfterNone(s: FeedState)
    ensures AfterPublish(s, []) == s
  {
  }

  lemma AfterBoth(s: FeedState, a: seq<Bytes>, b: seq<Bytes>)
    ensures AfterPublish(AfterPublish(s, a), b) == AfterPublish(s, a + b)
  {
    forall id | id in s.queues { OfferAllConcat(s.queues[id], a, b); }
    TotalLengthConcat(a, b);
    Assoc(s.log, a, b);
  }

  lemma AfterOne(s: FeedState, t: FeedState, data: Bytes)
    requires t.subs == s.subs && t.queues.Keys == s.queues.Keys
    requires forall id <- t.queues :: t.queues[id] == if id in s.subs then Offer(s.queues[id], data) else s.queues[id]
    requires t.totalBytes == s.totalBytes + |data| && t.log == s.log + [data]
    ensures t == AfterPublish(s, [data])
  {
    assert [data][1..] == [];
    assert TotalLength([data]) == |data|;
    forall id | id in s.queues ensures OfferAll(s.queues[id], [data]) == Offer(s.queues[id], data) {}
  }

  ghost predicate Lists(ids: seq<nat>, s: set<nat>)
  {
    (forall id :: id in ids <==> id in s) && forall i, j :: 0 <= i < j < |ids| ==> ids[i] != ids[j]
  }

  /** Queues are named by number; a subscriber keeps its queue after unsubscribing. */
  class Feed {
    var subs: set<nat>
    var queues: map<nat, seq<Bytes>>
    var totalBytes: nat
    ghost var log: seq<Bytes>  // every non-empty message published, in order

    ghost function Now(): FeedState
      reads this
    {
      FeedState(subs, queues, totalBytes, log)
    }

    ghost predicate Valid()
      reads this
    {
      subs <= queues.Keys && forall id <- queues :: |queues[id]| <= QUEUE_MAX
    }

    constructor ()
      ensures Valid() && subs == {} && queues == map[] && totalBytes == 0 && log == []
    {
      subs, queues, totalBytes, log := {}, map[], 0, [];
    }

    /** Subscribes a queue not handed out before. */
    method Subscribe(id: nat)
      requires Valid() && id !in queues
      modifies this
      ensures Valid() && subs == old(subs) + {id} && queues == old(queues)[id := []]
      ensures totalBytes == old(totalBytes) && log == old(log)
    {
      queues := queues[id := []];
      subs := subs + {id};
    }

    method Unsubscribe(id: nat)
      requires Valid()
      modifies this
      ensures Valid() && subs == old(subs) - {id} && queues == old(queues)
      ensures totalBytes == old(totalBytes) && log == old(log)
    {
      subs := subs - {id};
    }

    /** A publication that nothing interrupts. */
    method Publish(data: Bytes)
      requires Valid()
      modifies this
      ensures Valid() && subs == old(subs) && queues.Keys == old(queues).Keys
      ensures forall id <- queues :: queues[id] ==
                if data != [] && id in subs then Offer(old(queues)[id], data) else old(queues)[id]
      ensures totalBytes == old(totalBytes) + |data|
      ensures log == if data == [] then old(log) else old(log) + [data]
      ensures Now() == AfterPublish(old(Now()), if data == [] then [] else [data])
    {
      if data == [] {
        AfterNone(Now());
        return;
      }
      totalBytes := totalBytes + |data|;
      log := log + [data];
      var todo := subs;
      while todo != {}
        invariant Valid() && todo <= subs == old(subs) && queues.Keys == old(queues).Keys
        invariant totalBytes == old(totalBytes) + |data| && log == old(log) + [data]
        invariant forall id <- queues :: queues[id] ==
                    if id in subs && id !in todo then Offer(old(queues)[id], data) else old(queues)[id]
        decreases |todo|
      {
        var id :| id in todo;
        queues := queues[id := Offer(queues[id], data)];
        todo := todo - {id};
      }
      AfterOne(old(Now()), Now(), data);
    }
  }

  // ----------------------------------------------------------- interleaved steps

  /** A subscriber: what it took, what is queued, how often its queue was full, and the stretch of
      the log during which it was subscribed. */
  datatype Sub = Sub(taken: seq<Bytes>, queue: seq<Bytes>, dropped: nat, since: nat, until: Option<nat>) {
    function History(): seq<Bytes> { taken + queue }
  }

  /** A publication in progress: the message and the snapshot still to be served. */
  datatype Flight = Idle | Putting(data: Bytes, todo: seq<nat>)

  datatype State = State(subs: map<nat, Sub>, flight: Flight, log: seq<Bytes>) {
    predicate Pending(id: nat) { flight.Putting? && id in flight.todo }

    function End(id: nat): nat
      requires id in subs
    {
      match subs[id].until case None => |log| case Some(n) => n
    }
  }

  /** Subscribe, unsubscribe and get may come between any two steps of the publisher. */
  datatype Event =
    | Subscribe(id: nat)
    | Unsubscribe(id: nat)
    | Get(id: nat)
    | Begin(data: Bytes, order: seq<nat>)  // the publisher takes its snapshot, in any order
    | Put                                  // and serves the next queue of it

  function Active(s: State): set<nat>
  {
    set id | id in s.subs && s.subs[id].until == None
  }

  ghost predicate Enabled(s: State, e: Event)
  {
    match e
    case Subscribe(id) => id !in s.subs
    case Unsubscribe(id) => id in Active(s)
    case Get(id) => id in s.subs && s.subs[id].queue != []
    case Begin(data, order) => s.flight.Idle? && data != [] && Lists(order, Active(s))
    case Put => s.flight.Putting? && s.flight.todo != [] && s.flight.todo[0] in s.subs
  }

  function Served(u: Sub, data: Bytes): Sub
  {
    if |u.queue| < QUEUE_MAX then u.(queue := Offer(u.queue, data)) else u.(dropped := u.dropped + 1)
  }

  ghost function Apply(s: State, e: Event): State
    requires Enabled(s, e)
  {
    match e
    case Subscribe(id) => s.(subs := s.subs[id := Sub([], [], 0, |s.log|, None)])
    case Unsubscribe(id) => s.(subs := s.subs[id := s.subs[id].(until := Some(|s.log|))])
    case Get(id) =>
      var u := s.subs[id];
      s.(subs := s.subs[id := u.(taken := u.taken + [u.queue[0]], queue := u.queue[1..])])
    case Begin(data, order) => State(s.subs, if order == [] then Idle else Putting(data, order), s.log + [data])
    case Put =>
      var id, rest := s.flight.todo[0], s.flight.todo[1..];
      State(s.subs[id := Served(s.subs[id], s.flight.data)], if rest == [] then Idle else Putting(s.flight.data, rest), s.log)
  }

  /** Any schedule; an event that cannot happen is skipped. */
  ghost function Exec(events: seq<Event>): State
  {
    if events == [] then State(map[], Idle, [])
    else
      var n := |events| - 1;
      var s := Exec(events[..n]);
      if Enabled(s, events[n]) then Apply(s, events[n]) else s
  }

  /** a can be had from b by leaving elements out. */
  ghost predicate Subseq<T>(a: seq<T>, b: seq<T>)
    decreases |b|
  {
    if a == [] then true
    else if b == [] then false
    else
      var m, n := |a| - 1, |b| - 1;
      (a[m] == b[n] && Subseq(a[..m], b[..n])) || Subseq(a, b[..n])
  }

  /** The messages a subscriber could have been offered so far. */
  function Offered(s: State, id: nat): seq<Bytes>
    requires id in s.subs && s.subs[id].since <= s.End(id) <= |s.log|
    requires s.Pending(id) ==> s.subs[id].since < s.End(id)
  {
    s.log[s.subs[id].since..if s.Pending(id) then s.End(id) - 1 else s.End(id)]
  }

  ghost predicate SubOk(s: State, id: nat)
    requires id in s.subs
  {
    var u := s.subs[id];
    && |u.queue| <= QUEUE_MAX
    && u.since <= s.End(id) <= |s.log|
    && (s.Pending(id) ==> u.since < s.End(id) == |s.log|)
    && Subseq(u.History(), Offered(s, id))
    && |u.History()| + u.dropped == |Offered(s, id)|
  }

  ghost predicate Inv(s: State)
  {
    && (forall id :: id in s.subs ==> SubOk(s, id))
    && (s.flight.Putting? ==>
          && s.log != [] && s.flight.data == s.log[|s.log| - 1] && s.flight.todo != []
          && (forall i, j :: 0 <= i < j < |s.flight.todo| ==> s.flight.todo[i] != s.flight.todo[j])
          && (forall id :: id in s.flight.todo ==> id in s.subs))
  }

  lemma SubseqSkip<T>(a: seq<T>, b: seq<T>, x: T)
    requires Subseq(a, b)
    ensures Subseq(a, b + [x])
  {
    assert (b + [x])[..|b|] == b;
  }

  lemma SubseqTake<T>(a: seq<T>, b: seq<T>, x: T)
    requires Subseq(a, b)
    ensures Subseq(a + [x], b + [x])
  {
    assert (b + [x])[..|b|] == b && (a + [x])[..|a|] == a;
  }

  lemma {:induction false} SubseqLength<T>(a: seq<T>, b: seq<T>)
    requires Subseq(a, b)
    ensures |a| <= |b|
    ensures |a| == |b| ==> a == b
    decreases |b|
  {
    if a != [] {
      var m, n := |a| - 1, |b| - 1;
      if a[m] == b[n] && Subseq(a[..m], b[..n]) {
        SubseqLength(a[..m], b[..n]);
        if |a| == |b| { assert a == a[..m] + [a[m]] && b == b[..n] + [b[n]]; }
      } else {
        SubseqLength(a, b[..n]);
      }
    }
  }

  /** Nothing about a subscriber changes but its bookkeeping fields. */
  lemma SubKept(s: State, t: State, id: nat)
    requires id in s.subs && id in t.subs && SubOk(s, id)
    requires |t.subs[id].queue| <= QUEUE_MAX && t.subs[id].History() == s.subs[id].History()
    requires t.subs[id].dropped == s.subs[id].dropped && t.subs[id].since == s.subs[id].since
    requires t.log == s.log && t.End(id) == s.End(id) && t.Pending(id) == s.Pending(id)
    ensures SubOk(t, id)
  {
  }

  lemma BeginKeeps(s: State, data: Bytes, order: seq<nat>)
    requires Inv(s) && Enabled(s, Begin(data, order))
    ensures Inv(Apply(s, Begin(data, order)))
  {
    var t := Apply(s, Begin(data, order));
    forall id | id in t.subs ensures SubOk(t, id) {
      assert SubOk(s, id);
      assert t.Pending(id) <==> id in Active(s);
      assert Offered(t, id) == Offered(s, id);
    }
  }

  lemma PutKeeps(s: State)
    requires Inv(s) && Enabled(s, Put)
    ensures Inv(Apply(s, Put))
  {
    var t := Apply(s, Put);
    var first := s.flight.todo[0];
    assert s.flight.todo == [first] + s.flight.todo[1..];
    assert first in s.flight.todo;
    forall id | id in t.subs ensures SubOk(t, id) {
      assert SubOk(s, id);
      if id == first {
        ServedOk(s, id);
      } else {
        assert t.Pending(id) == s.Pending(id);
        SubKept(s, t, id);
      }
    }
  }

  lemma LastOffered<T>(log: seq<T>, since: nat)
    requires since < |log|
    ensures log[since..|log|] == log[since..|log| - 1] + [log[|log| - 1]]
  {
  }

  lemma ServedOk(s: State, id: nat)
    requires Enabled(s, Put) && id == s.flight.todo[0] && id !in s.flight.todo[1..]
    requires s.log != [] && s.flight.data == s.log[|s.log| - 1] && SubOk(s, id)
    ensures id in Apply(s, Put).subs && SubOk(Apply(s, Put), id)
  {
    var t := Apply(s, Put);
    var u, v := s.subs[id], Served(s.subs[id], s.flight.data);
    assert id in s.flight.todo;
    assert t.subs[id] == v && !t.Pending(id);
    LastOffered(s.log, u.since);
    ServedSub(u, s.flight.data, Offered(s, id));
    SubOkNow(t, id, v, Offered(s, id) + [s.flight.data]);
  }

  lemma SubOkNow(t: State, id: nat, v: Sub, offered: seq<Bytes>)
    requires id in t.subs && t.subs[id] == v && !t.Pending(id)
    requires v.since <= t.End(id) <= |t.log| && offered == t.log[v.since..t.End(id)]
    requires |v.queue| <= QUEUE_MAX && Subseq(v.History(), offered) && |v.History()| + v.dropped == |offered|
    ensures SubOk(t, id)
  {
  }

  lemma ServedSub(u: Sub, data: Bytes, offered: seq<Bytes>)
    requires Subseq(u.History(), offered) && |u.History()| + u.dropped == |offered| && |u.queue| <= QUEUE_MAX
    ensures var v := Served(u, data);
            && Subseq(v.History(), offered + [data]) && |v.History()| + v.dropped == |offered + [data]|
            && |v.queue| <= QUEUE_MAX && v.since == u.since && v.until == u.until
  {
    if |u.queue| < QUEUE_MAX {
      SubseqTake(u.History(), offered, data);
      assert Served(u, data).History() == u.History() + [data];
    } else {
      SubseqSkip(u.History(), offered, data);
    }
  }

  lemma OtherKeeps(s: State, e: Event)
    requires Inv(s) && Enabled(s, e) && !e.Begin? && !e.Put?
    ensures Inv(Apply(s, e))
  {
    var t := Apply(s, e);
    forall id | id in t.subs ensures SubOk(t, id) {
      if id in s.subs {
        OtherSub(s, e, id);
      } else {
        assert Offered(t, id) == [];
      }
    }
  }

  lemma OtherSub(s: State, e: Event, id: nat)
    requires Inv(s) && Enabled(s, e) && !e.Begin? && !e.Put? && id in s.subs
    ensures id in Apply(s, e).subs && SubOk(Apply(s, e), id)
  {
    var t := Apply(s, e);
    assert SubOk(s, id);
    if e.Get? && id == e.id { TakenKeeps(s.subs[id]); }
    SubKept(s, t, id);
  }

  lemma TakenKeeps(u: Sub)
    requires u.queue != []
    ensures u.(taken := u.taken + [u.queue[0]], queue := u.queue[1..]).History() == u.History()
  {
    assert u.queue == [u.queue[0]] + u.queue[1..];
  }

  lemma {:induction false} EverySchedule(events: seq<Event>)
    ensures Inv(Exec(events))
  {
    if events != [] {
      var n := |events| - 1;
      var s, e := Exec(events[..n]), events[n];
      EverySchedule(events[..n]);
      if Enabled(s, e) {
        match e
        case Begin(data, order) => BeginKeeps(s, data, order);
        case Put => PutKeeps(s);
        case _ => OtherKeeps(s, e);
      }
    }
  }

  /** Main result: under every schedule, what a subscriber took and has queued is an in-order
      selection of whole messages published while it was subscribed, short of exactly those that
      met its queue full; and if none did, it has them all. */
  lemma Delivery(events: seq<Event>, id: nat)
    requires id in Exec(events).subs
    ensures var s := Exec(events);
            var u := s.subs[id];
            && |u.queue| <= 512
            && u.since <= s.End(id) <= |s.log|
            && (s.Pending(id) ==> u.since < s.End(id))
            && Subseq(u.History(), Offered(s, id))
            && |u.History()| + u.dropped == |Offered(s, id)|
            && (u.dropped == 0 ==> u.History() == Offered(s, id))
  {
    EverySchedule(events);
    var s := Exec(events);
    assert SubOk(s, id);
    SubseqLength(s.subs[id].History(), Offered(s, id));
  }

  /** The publisher runs on with nothing in between. */
  ghost function Finish(s: State): State
    requires Inv(s)
    decreases if s.flight.Putting? then |s.flight.todo| else 0
  {
    if s.flight.Idle? then s
    else
      assert s.flight.todo[0] in s.flight.todo;
      PutKeeps(s);
      Finish(Apply(s, Put))
  }

  /** Then every queue of the snapshot has been offered the message once and no other has changed,
      which is what the method Publish of the class does in one go. */
  lemma {:induction false} UninterruptedPublish(s: State, id: nat)
    requires Inv(s) && id in s.subs
    ensures id in Finish(s).subs
    ensures Finish(s).subs[id].queue ==
            if s.Pending(id) then Offer(s.subs[id].queue, s.flight.data) else s.subs[id].queue
    ensures Finish(s).subs[id].taken == s.subs[id].taken && Finish(s).log == s.log
    decreases if s.flight.Putting? then |s.flight.todo| else 0
  {
    if s.flight.Putting? {
      assert s.flight.todo[0] in s.flight.todo;
      PutKeeps(s);
      PutEffect(s, id);
      UninterruptedPublish(Apply(s, Put), id);
    }
  }

  lemma PutEffect(s: State, id: nat)
    requires Inv(s) && id in s.subs && s.flight.Putting? && Enabled(s, Put)
    ensures var t := Apply(s, Put);
            && id in t.subs && t.log == s.log && t.subs[id].taken == s.subs[id].taken
            && t.Pending(id) == (s.Pending(id) && id != s.flight.todo[0])
            && (t.Pending(id) ==> t.flight.data == s.flight.data)
            && t.subs[id].queue ==
               if id == s.flight.todo[0] then Offer(s.subs[id].queue, s.flight.data) else s.subs[id].queue
  {
    assert s.flight.todo == [s.flight.todo[0]] + s.flight.todo[1..];
  }
}
