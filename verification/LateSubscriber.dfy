/** What a subscriber that joins late, or loses messages to a full queue, still reads of the stream. */
module LateSubscriber {
  import opened Basics
  import Bits
  import opened Parity
  import opened Encoder
  import opened Decoder
  import opened Feeds
  import opened Converter
  import Framer

  datatype Sending = Sending(data: seq<bool>, seed: (bool, bool))

  /** A message: its data words, at least one, and the seed it was sent with. */
  type Piece = p: Sending | |p.data| % 24 == 0 && |p.data| >= 24
    witness Sending(Bits.Repeat(false, 24), (false, false))

  function WireOf(p: Piece): Bytes { Wire(p.data, p.seed) }

  function Left(p: Piece): (bool, bool) { SeedLeft(p.data, p.seed) }

  function Words(p: Piece): seq<seq<bool>> { Words24(p.data) }

  function AirOf(p: Piece): seq<bool> { ChainTx(p.data, p.seed.0, p.seed.1) }

  function Wires(pieces: seq<Piece>): (ws: seq<Bytes>)
    ensures |ws| == |pieces| && forall i :: 0 <= i < |pieces| ==> ws[i] == WireOf(pieces[i])
  {
    seq(|pieces|, i requires 0 <= i < |pieces| => WireOf(pieces[i]))
  }

  // -------------------------------------------------------------------- the receiver

  /** One message under a guessed seed: its first word is refused unless the guess is right. */
  function HeardOne(guess: (bool, bool), p: Piece): seq<Option<seq<bool>>>
  {
    [if guess == p.seed then Some(p.data[..24]) else None] + Somes(Words24(p.data[24..]))
  }

  /** What a receiver with a guessed seed makes of messages, some of them missing: the last two bits
      of each message received are its guess for the next. */
  function Heard(guess: (bool, bool), pieces: seq<Piece>): seq<Option<seq<bool>>>
    decreases |pieces|
  {
    if pieces == [] then [] else HeardOne(guess, pieces[0]) + Heard(Left(pieces[0]), pieces[1..])
  }

  /** The words of the messages themselves. */
  function AllWords(pieces: seq<Piece>): seq<seq<bool>>
  {
    if pieces == [] then [] else Words(pieces[0]) + AllWords(pieces[1..])
  }

  function Refusals(heard: seq<Option<seq<bool>>>): nat
  {
    if heard == [] then 0 else (if heard[0] == None then 1 else 0) + Refusals(heard[1..])
  }

  lemma {:induction false} RefusalsConcat(a: seq<Option<seq<bool>>>, b: seq<Option<seq<bool>>>)
    ensures Refusals(a + b) == Refusals(a) + Refusals(b)
  {
    if a == [] {
      assert a + b == b;
    } else {
      RefusalsConcat(a[1..], b);
      assert (a + b)[1..] == a[1..] + b;
    }
  }

  lemma {:induction false} NoneRefused(words: seq<seq<bool>>)
    ensures Refusals(Somes(words)) == 0
  {
    if words != [] {
      NoneRefused(words[1..]);
      assert Somes(words)[1..] == Somes(words[1..]);
    }
  }

  /** heard gives the word or refuses it. */
  ghost predicate NoneWrong(heard: seq<Option<seq<bool>>>, words: seq<seq<bool>>)
  {
    |heard| == |words| && forall k :: 0 <= k < |words| ==> heard[k] == Some(words[k]) || heard[k] == None
  }

  lemma NoneWrongConcat(a: seq<Option<seq<bool>>>, x: seq<seq<bool>>, b: seq<Option<seq<bool>>>, y: seq<seq<bool>>)
    requires NoneWrong(a, x) && NoneWrong(b, y)
    ensures NoneWrong(a + b, x + y)
  {
  }

  lemma OnePiece(guess: (bool, bool), p: Piece)
    ensures NoneWrong(HeardOne(guess, p), Words(p))
    ensures Refusals(HeardOne(guess, p)) == if guess == p.seed then 0 else 1
  {
    var first := [if guess == p.seed then Some(p.data[..24]) else None];
    NoneRefused(Words24(p.data[24..]));
    assert first[1..] == [];
    RefusalsConcat(first, Somes(Words24(p.data[24..])));
  }

  /** No word is ever read wrong, and each message costs one refusal at most. */
  lemma {:induction false} HeardNeverWrong(guess: (bool, bool), pieces: seq<Piece>)
    ensures NoneWrong(Heard(guess, pieces), AllWords(pieces)) && Refusals(Heard(guess, pieces)) <= |pieces|
    decreases |pieces|
  {
    if pieces != [] {
      var p, rest := pieces[0], pieces[1..];
      OnePiece(guess, p);
      HeardNeverWrong(Left(p), rest);
      NoneWrongConcat(HeardOne(guess, p), Words(p), Heard(Left(p), rest), AllWords(rest));
      RefusalsConcat(HeardOne(guess, p), Heard(Left(p), rest));
    }
  }

  // ------------------------------------------------------------- decoding what arrives

  function Air(pieces: seq<Piece>): seq<bool>
  {
    if pieces == [] then [] else AirOf(pieces[0]) + Air(pieces[1..])
  }

  lemma {:induction false} DeframeConcat(a: seq<byte>, b: seq<byte>)
    ensures Deframe(a + b) == Deframe(a) + Deframe(b)
  {
    if a == [] {
      assert a + b == b;
    } else {
      DeframeConcat(a[1..], b);
      assert (a + b)[1..] == a[1..] + b;
      var head := match DeframeByte(a[0]) case None => [] case Some(g) => g;
      Assoc(head, Deframe(a[1..]), Deframe(b));
    }
  }

  lemma {:induction false} AirIsDeframed(pieces: seq<Piece>)
    ensures Deframe(Framer.Join(Wires(pieces))) == Air(pieces)
  {
    if pieces != [] {
      var p := pieces[0];
      AirIsDeframed(pieces[1..]);
      assert Wires(pieces)[1..] == Wires(pieces[1..]);
      WireDeframed(p.data, p.seed);
      DeframeConcat(WireOf(p), Framer.Join(Wires(pieces[1..])));
    }
  }

  /** One word, then the rest with the word's last two bits as its seed. */
  lemma NextWord(seed: seq<bool>, w: seq<bool>, more: seq<bool>)
    requires |seed| == 2 && |w| == 30
    ensures DecodeEach(seed + (w + more)) == [DecodeWindow(seed + w)] + DecodeEach([w[28], w[29]] + more)
  {
    SeedWordTail(seed, w, more);
  }

  /** A whole message with the right seed, whatever follows it. */
  lemma {:induction false} DecodeThenMore(data: seq<bool>, d29: bool, d30: bool, more: seq<bool>)
    requires |data| % 24 == 0
    ensures var (a, b) := SeedAfter(data, d29, d30);
            DecodeEach([d29, d30] + (ChainTx(data, d29, d30) + more)) == Somes(Words24(data)) + DecodeEach([a, b] + more)
    decreases |data|
  {
    if data == [] {
      assert ChainTx(data, d29, d30) + more == more;
      assert Somes(Words24(data)) == [];
      assert [] + DecodeEach([d29, d30] + more) == DecodeEach([d29, d30] + more);
    } else {
      var w := EncodeBits(data[..24], d29, d30);
      var (a, b) := SeedAfter(data[24..], w[28], w[29]);
      DecodeThenMore(data[24..], w[28], w[29], more);
      FirstAndRest(data, d29, d30);
      WordAhead(data[..24], d29, d30, ChainTx(data[24..], w[28], w[29]), more,
                Somes(Words24(data[24..])), DecodeEach([a, b] + more));
    }
  }

  lemma FirstAndRest(data: seq<bool>, d29: bool, d30: bool)
    requires |data| % 24 == 0 && data != []
    ensures var w := EncodeBits(data[..24], d29, d30);
            && ChainTx(data, d29, d30) == w + ChainTx(data[24..], w[28], w[29])
            && SeedAfter(data, d29, d30) == SeedAfter(data[24..], w[28], w[29])
            && Somes(Words24(data)) == [Some(data[..24])] + Somes(Words24(data[24..]))
  {
    Words24Cons(data);
    SomesCons(data[..24], Words24(data[24..]));
  }

  lemma WordAhead(d: seq<bool>, d29: bool, d30: bool, t: seq<bool>, more: seq<bool>,
                  x: seq<Option<seq<bool>>>, y: seq<Option<seq<bool>>>)
    requires |d| == 24
    requires var w := EncodeBits(d, d29, d30); DecodeEach([w[28], w[29]] + (t + more)) == x + y
    ensures DecodeEach([d29, d30] + ((EncodeBits(d, d29, d30) + t) + more)) == ([Some(d)] + x) + y
  {
    var w := EncodeBits(d, d29, d30);
    Assoc(w, t, more);
    NextWord([d29, d30], w, t + more);
    DecodeEncoded(d, d29, d30);
    Assoc([Some(d)], x, y);
  }

  /** The first word of a message under a guessed seed. */
  lemma FirstWord(d: seq<bool>, seed: (bool, bool), guess: (bool, bool))
    requires |d| == 24
    ensures DecodeWindow([guess.0, guess.1] + EncodeBits(d, seed.0, seed.1)) == if guess == seed then Some(d) else None
  {
    var w := EncodeBits(d, seed.0, seed.1);
    var a, b := [seed.0, seed.1] + w, [guess.0, guess.1] + w;
    DecodeEncoded(d, seed.0, seed.1);
    assert a[..2] == [seed.0, seed.1] && b[..2] == [guess.0, guess.1] && a[2..] == w && b[2..] == w;
    assert guess == seed <==> (guess.0 == seed.0 && guess.1 == seed.1);
    assert b[..2] == a[..2] <==> (b[..2][0] == a[..2][0] && b[..2][1] == a[..2][1]);
    SameBody(a, b);
  }

  /** A whole message under a guessed seed, whatever follows it. */
  lemma PieceThenMore(p: Piece, guess: (bool, bool), more: seq<bool>)
    ensures DecodeEach([guess.0, guess.1] + (AirOf(p) + more)) ==
            HeardOne(guess, p) + DecodeEach([Left(p).0, Left(p).1] + more)
  {
    var d, rest := p.data[..24], p.data[24..];
    var w := EncodeBits(d, p.seed.0, p.seed.1);
    var t := ChainTx(rest, w[28], w[29]);
    var first := [if guess == p.seed then Some(d) else None];
    Assoc(w, t, more);
    NextWord([guess.0, guess.1], w, t + more);
    FirstWord(d, p.seed, guess);
    DecodeThenMore(rest, w[28], w[29], more);
    var (a, b) := SeedAfter(rest, w[28], w[29]);
    Assoc(first, Somes(Words24(rest)), DecodeEach([a, b] + more));
  }

  lemma {:induction false} AirHeard(guess: (bool, bool), pieces: seq<Piece>)
    ensures DecodeEach([guess.0, guess.1] + Air(pieces)) == Heard(guess, pieces)
    decreases |pieces|
  {
    if pieces != [] {
      var p := pieces[0];
      AirHeard(Left(p), pieces[1..]);
      PieceThenMore(p, guess, Air(pieces[1..]));
    }
  }

  /** Main result: whatever whole messages of a stream arrive, the word-aligned receiver reads every
      word of them but the first ones sent with a seed it did not see. */
  lemma MessagesHeard(guess: (bool, bool), pieces: seq<Piece>)
    ensures DecodeEach([guess.0, guess.1] + Deframe(Framer.Join(Wires(pieces)))) == Heard(guess, pieces)
  {
    AirIsDeframed(pieces);
    AirHeard(guess, pieces);
  }

  // -------------------------------------------------------------------- the feed

  /** The messages one encoder sends over a list of calls. */
  function Sent(calls: seq<Call>, seed: (bool, bool)): (pieces: seq<Piece>)
    decreases |calls|
  {
    if calls == [] then []
    else if !calls[0].Accepted() then Sent(calls[1..], seed)
    else
      var p: Piece := Sending(calls[0].Bits(), seed);
      [p] + Sent(calls[1..], Left(p))
  }

  lemma {:induction false} SentIsPublished(calls: seq<Call>, seed: (bool, bool))
    ensures Wires(Sent(calls, seed)) == Published(calls, seed)
    decreases |calls|
  {
    if calls != [] {
      var c := calls[0];
      if c.Accepted() {
        var p: Piece := Sending(c.Bits(), seed);
        SentIsPublished(calls[1..], Left(p));
        WiresCons(p, Sent(calls[1..], Left(p)));
      } else {
        SentIsPublished(calls[1..], seed);
      }
    }
  }

  lemma WiresCons(p: Piece, rest: seq<Piece>)
    ensures Wires([p] + rest) == [WireOf(p)] + Wires(rest)
  {
  }

  lemma WiresSnoc(init: seq<Piece>, p: Piece)
    ensures Wires(init + [p]) == Wires(init) + [WireOf(p)]
  {
  }

  /** Each message is sent with the seed the one before it left, so next to its predecessor none is refused. */
  lemma {:induction false} SentChains(calls: seq<Call>, seed: (bool, bool), i: nat)
    requires i < |Sent(calls, seed)|
    ensures var sent := Sent(calls, seed); sent[i].seed == if i == 0 then seed else Left(sent[i - 1])
    decreases |calls|
  {
    var c := calls[0];
    if !c.Accepted() {
      SentChains(calls[1..], seed, i);
    } else if i > 0 {
      var p: Piece := Sending(c.Bits(), seed);
      SentChains(calls[1..], Left(p), i - 1);
      ChainsAhead(p, Sent(calls[1..], Left(p)), i - 1);
    }
  }

  lemma ChainsAhead(p: Piece, rest: seq<Piece>, i: nat)
    requires i < |rest| && rest[i].seed == if i == 0 then Left(p) else Left(rest[i - 1])
    ensures ([p] + rest)[i + 1].seed == Left(([p] + rest)[i])
  {
  }

  /** What a selection of the wire messages was sent as. */
  lemma {:induction false} Selected(msgs: seq<Bytes>, pieces: seq<Piece>) returns (kept: seq<Piece>)
    requires Subseq(msgs, Wires(pieces))
    ensures Subseq<Piece>(kept, pieces) && Wires(kept) == msgs
    decreases |pieces|
  {
    if pieces == [] || msgs == [] {
      kept := [];
    } else {
      var n := |pieces| - 1;
      var init, p := pieces[..n], pieces[n];
      assert init + [p] == pieces;
      kept := SelectedSnoc(msgs, init, p);
    }
  }

  lemma {:induction false} SelectedSnoc(msgs: seq<Bytes>, init: seq<Piece>, p: Piece) returns (kept: seq<Piece>)
    requires msgs != [] && Subseq(msgs, Wires(init + [p]))
    ensures Subseq<Piece>(kept, init + [p]) && Wires(kept) == msgs
    decreases |init| + 1, 0
  {
    WiresSnoc(init, p);
    var m := |msgs| - 1;
    SubseqLast(msgs, Wires(init), WireOf(p));
    if Subseq(msgs, Wires(init)) {
      kept := Selected(msgs, init);
      SubseqSkip<Piece>(kept, init, p);
    } else {
      var k := Selected(msgs[..m], init);
      kept := k + [p];
      SubseqTake<Piece>(k, init, p);
      WiresNewest(k, p, msgs);
    }
  }

  lemma WiresNewest(k: seq<Piece>, p: Piece, msgs: seq<Bytes>)
    requires msgs != [] && Wires(k) == msgs[..|msgs| - 1] && WireOf(p) == msgs[|msgs| - 1]
    ensures Wires(k + [p]) == msgs
  {
    WiresSnoc(k, p);
    assert msgs == msgs[..|msgs| - 1] + [msgs[|msgs| - 1]];
  }

  lemma SubseqLast<T>(a: seq<T>, b: seq<T>, x: T)
    requires a != [] && Subseq(a, b + [x])
    ensures Subseq(a, b) || (a[|a| - 1] == x && Subseq(a[..|a| - 1], b))
  {
    assert (b + [x])[..|b|] == b;
  }

  lemma WiresSlice(pieces: seq<Piece>, from: nat, to: nat)
    requires from <= to <= |pieces|
    ensures Wires(pieces)[from..to] == Wires(pieces[from..to])
  {
  }

  /** The messages a subscriber was offered. */
  function OfferedTo(s: State, id: nat, sent: seq<Piece>): seq<Piece>
    requires id in s.subs && s.subs[id].since <= s.End(id) <= |sent|
    requires s.Pending(id) ==> s.subs[id].since < s.End(id)
  {
    sent[s.subs[id].since..if s.Pending(id) then s.End(id) - 1 else s.End(id)]
  }

  /** Main result: under every schedule of the feed, what a subscriber has taken and queued of one
      encoder's stream reads as a selection, in order, of the messages offered to it. Every word of
      them is read right, but for the first word of a message whose predecessor it did not get, which
      is refused unless the last two bits it did get happen to be the same. */
  lemma SubscriberHears(events: seq<Event>, id: nat, calls: seq<Call>, seed: (bool, bool), guess: (bool, bool))
    returns (kept: seq<Piece>)
    requires id in Exec(events).subs && Exec(events).log == Published(calls, seed)
    ensures var s := Exec(events);
            && s.subs[id].since <= s.End(id) <= |Sent(calls, seed)| && (s.Pending(id) ==> s.subs[id].since < s.End(id))
            && Subseq<Piece>(kept, OfferedTo(s, id, Sent(calls, seed)))
            && |kept| + s.subs[id].dropped == |OfferedTo(s, id, Sent(calls, seed))|
            && DecodeEach([guess.0, guess.1] + Deframe(Framer.Join(s.subs[id].History()))) == Heard(guess, kept)
    ensures NoneWrong(Heard(guess, kept), AllWords(kept)) && Refusals(Heard(guess, kept)) <= |kept|
  {
    var s := Exec(events);
    var history, sent := s.subs[id].History(), Sent(calls, seed);
    Delivery(events, id);
    SentIsPublished(calls, seed);
    kept := FromOffered(s, id, sent);
    MessagesHeard(guess, kept);
    HeardNeverWrong(guess, kept);
  }

  lemma FromOffered(s: State, id: nat, sent: seq<Piece>) returns (kept: seq<Piece>)
    requires id in s.subs && s.log == Wires(sent) && s.subs[id].since <= s.End(id) <= |s.log|
    requires (s.Pending(id) ==> s.subs[id].since < s.End(id)) && Subseq(s.subs[id].History(), Offered(s, id))
    ensures Subseq<Piece>(kept, OfferedTo(s, id, sent)) && Wires(kept) == s.subs[id].History()
  {
    WiresSlice(sent, s.subs[id].since, if s.Pending(id) then s.End(id) - 1 else s.End(id));
    kept := Selected(s.subs[id].History(), OfferedTo(s, id, sent));
  }
}
