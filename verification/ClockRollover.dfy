/** A base clock that drifts on across the end of the week, while the broadcast time starts again:
    exactly which epochs show it. */
module ClockRollover {
  import opened Basics
  import opened Statistics
  import opened Rtcm2
  import opened Dgps
  import opened DgpsRuns

  // ---------------------------------------------- when offsets leave an epoch unchanged

  /** Two lists drawn the same way are equal only if every element is. */
  lemma {:induction false} FilterMapSameBack(f: Sat -> Option<Correction>, g: Sat -> Option<Correction>,
                                             s: seq<Sat>, t: seq<Sat>)
    requires |s| == |t| && forall i :: 0 <= i < |s| ==> f(s[i]).Some? == g(t[i]).Some?
    requires FilterMap(f, s) == FilterMap(g, t)
    ensures forall i :: 0 <= i < |s| ==> f(s[i]) == g(t[i])
  {
    if s != [] {
      var n := |s| - 1;
      var a, b := FilterMap(f, s[..n]), FilterMap(g, t[..n]);
      if f(s[n]).Some? {
        LastOfBoth(a, f(s[n]).value, b, g(t[n]).value);
      } else {
        assert a + [] == a && b + [] == b;
      }
      FilterMapSameBack(f, g, s[..n], t[..n]);
      assert forall i :: 0 <= i < n ==> s[..n][i] == s[i] && t[..n][i] == t[i];
    }
  }

  lemma LastOfBoth<T>(a: seq<T>, x: T, b: seq<T>, y: T)
    requires a + [x] == b + [y]
    ensures a == b && x == y
  {
    assert (a + [x])[..|a|] == a && (b + [y])[..|b|] == b;
    assert |a + [x]| == |b + [y]|;
    assert (a + [x])[|a|] == x && (b + [y])[|b|] == y;
  }

  /** A satellite of the epoch is within the limit of the median. */
  predicate Emitted(maxResidual: real, sats: seq<Sat>, s: Sat)
    requires sats != []
  {
    Abs(s.value - Median(Values(sats))) <= maxResidual
  }

  /** The RRC is the same in both, the rate offset having moved by d. */
  predicate RrcKept(r: Option<real>, r': Option<real>, d: real)
  {
    match (r, r') case (Some(x), Some(y)) => y - x == d case (None, None) => true case _ => false
  }

  lemma OutOfSame(r: Option<real>, r': Option<real>, maxResidual: real, offset: real, r1: real, r2: real, s: Sat, c: real)
    requires r.Some? == r'.Some?
    ensures OutOf(r', maxResidual, offset + c, r2, Moved(s, c)) == OutOf(r, maxResidual, offset, r1, s) <==>
            (Abs(s.value - offset) <= maxResidual ==> RrcKept(r, r', r2 - r1))
    ensures OutOf(r', maxResidual, offset + c, r2, Moved(s, c)).Some? == OutOf(r, maxResidual, offset, r1, s).Some?
  {
  }

  ghost predicate AllKept(rate: Sat -> Option<real>, rate': Sat -> Option<real>, maxResidual: real, offset: real,
                          sats: seq<Sat>, c: real, d: real)
  {
    forall s :: s in sats && Abs(s.value - offset) <= maxResidual ==> RrcKept(rate(s), rate'(Moved(s, c)), d)
  }

  lemma OneKept(rate: Sat -> Option<real>, rate': Sat -> Option<real>, maxResidual: real, offset: real,
                r1: real, r2: real, d: real, s: Sat, c: real, later: real)
    requires rate(s).Some? == rate'(Moved(s, c)).Some? && later == offset + c && d == r2 - r1
    ensures var a, b := OutFn(rate', maxResidual, later, r2)(Moved(s, c)), OutFn(rate, maxResidual, offset, r1)(s);
            a.Some? == b.Some? && (a == b <==> (Abs(s.value - offset) <= maxResidual ==> RrcKept(rate(s), rate'(Moved(s, c)), d)))
  {
    OutOfSame(rate(s), rate'(Moved(s, c)), maxResidual, offset, r1, r2, s, c);
  }

  lemma OutsSameExactly(rate: Sat -> Option<real>, rate': Sat -> Option<real>, maxResidual: real, offset: real,
                        r1: real, r2: real, d: real, sats: seq<Sat>, c: real, later: real, moved: seq<Sat>)
    requires forall s :: s in sats ==> rate(s).Some? == rate'(Moved(s, c)).Some?
    requires later == offset + c && moved == ShiftSats(sats, c) && d == r2 - r1
    ensures (OutputOf(rate', maxResidual, later, r2, moved) == OutputOf(rate, maxResidual, offset, r1, sats)) ==
            AllKept(rate, rate', maxResidual, offset, sats, c, d)
  {
    var f, g := OutFn(rate', maxResidual, later, r2), OutFn(rate, maxResidual, offset, r1);
    forall i | 0 <= i < |sats|
      ensures moved[i] == Moved(sats[i], c) && f(moved[i]).Some? == g(sats[i]).Some?
      ensures f(moved[i]) == g(sats[i]) <==>
              (Abs(sats[i].value - offset) <= maxResidual ==> RrcKept(rate(sats[i]), rate'(Moved(sats[i], c)), d))
    {
      assert sats[i] in sats;
      OneKept(rate, rate', maxResidual, offset, r1, r2, d, sats[i], c, later);
    }
    if FilterMap(f, moved) == FilterMap(g, sats) {
      FilterMapSameBack(f, g, moved, sats);
      forall s | s in sats && Abs(s.value - offset) <= maxResidual ensures RrcKept(rate(s), rate'(Moved(s, c)), d) {
        var i :| 0 <= i < |sats| && sats[i] == s;
      }
    } else if AllKept(rate, rate', maxResidual, offset, sats, c, d) {
      forall i | 0 <= i < |sats| ensures f(moved[i]) == g(sats[i]) { assert sats[i] in sats; }
      FilterMapSame(f, g, moved, sats);
    }
  }

  lemma DrawnShifted(sats: seq<Sat>, c: real, offset: real, sorted: seq<Sat>) returns (later: real, moved: seq<Sat>)
    requires DrawnFrom(sats, offset, sorted)
    ensures DrawnFrom(ShiftSats(sats, c), later, moved) && later == offset + c && moved == ShiftSats(sorted, c)
  {
    later, moved := offset + c, ShiftSats(sorted, c);
    ValuesShift(sats, c);
    MedianShift(Values(sats), c);
    SortSatsShift(sats, c);
  }

  lemma AllKeptSorted(rate: Sat -> Option<real>, rate': Sat -> Option<real>, maxResidual: real, offset: real,
                      sats: seq<Sat>, c: real, d: real)
    ensures AllKept(rate, rate', maxResidual, offset, SortSats(sats), c, d) ==
            AllKept(rate, rate', maxResidual, offset, sats, c, d)
  {
    SortSatsMembers(sats);
  }

  lemma OutsOfSorted(rate: Sat -> Option<real>, rate': Sat -> Option<real>, maxResidual: real, offset: real,
                     r1: real, r2: real, d: real, sats: seq<Sat>, sorted: seq<Sat>, c: real, later: real, moved: seq<Sat>)
    requires sorted == SortSats(sats) && forall s :: s in sats ==> rate(s).Some? == rate'(Moved(s, c)).Some?
    requires later == offset + c && moved == ShiftSats(sorted, c) && d == r2 - r1
    ensures (OutputOf(rate', maxResidual, later, r2, moved) == OutputOf(rate, maxResidual, offset, r1, sorted)) ==
            AllKept(rate, rate', maxResidual, offset, sats, c, d)
  {
    SortSatsMembers(sats);
    AllKeptSorted(rate, rate', maxResidual, offset, sats, c, d);
    OutsSameExactly(rate, rate', maxResidual, offset, r1, r2, d, sorted, c, later, moved);
  }

  /** A satellite of epoch k that has a rate there, and is emitted. */
  predicate Shows(maxResidual: real, epochs: seq<Epoch>, cs: seq<real>, k: nat, s: Sat)
    requires |cs| == |epochs| && k < |epochs|
  {
    s in epochs[k].sats && RateMove(epochs, cs, k, s.prn).Some? && Emitted(maxResidual, epochs[k].sats, s)
  }

  /** The rate offset of epoch k. */
  function RateOffsetAt(epochs: seq<Epoch>, k: nat): real
    requires k < |epochs|
  {
    OffsetOf(RunRate(epochs, k), epochs[k].sats)
  }

  /** How far offsets cs move it. */
  function EpochMove(epochs: seq<Epoch>, cs: seq<real>, k: nat): real
    requires |cs| == |epochs| && k < |epochs|
  {
    RateOffsetAt(ShiftRun(epochs, cs), k) - RateOffsetAt(epochs, k)
  }

  lemma OutDrawn(maxResidual: real, epochs: seq<Epoch>, k: nat, offset: real, sorted: seq<Sat>)
    requires ValidRun(epochs) && k < |epochs| && DrawnFrom(epochs[k].sats, offset, sorted)
    ensures OutAt(maxResidual, epochs, k) ==
            OutputOf(RunRate(epochs, k), maxResidual, offset, RateOffsetAt(epochs, k), sorted)
  {
    OutAtIs(maxResidual, epochs, k);
    EmitIs(RunRate(epochs, k), maxResidual, epochs[k].sats, offset, sorted);
  }

  predicate MovesBy(epochs: seq<Epoch>, cs: seq<real>, k: nat, prn: int, d: real)
    requires |cs| == |epochs| && k < |epochs|
  {
    RateMove(epochs, cs, k, prn) == Some(d)
  }

  /** The rates of all satellites shown move by d. */
  ghost predicate ShownMove(maxResidual: real, epochs: seq<Epoch>, cs: seq<real>, k: nat, d: real)
    requires |cs| == |epochs| && k < |epochs|
  {
    forall s :: Shows(maxResidual, epochs, cs, k, s) ==> MovesBy(epochs, cs, k, s.prn, d)
  }

  lemma RrcKeptMove(r: Option<real>, m: real, d: real)
    requires r.Some?
    ensures RrcKept(r, PlusRate(r, m), d) <==> m == d
  {
  }

  lemma RrcKeptIff(epochs: seq<Epoch>, cs: seq<real>, k: nat, s: Sat, d: real)
    requires |cs| == |epochs| && k < |epochs|
    ensures var r, r' := RunRate(epochs, k)(s), RunRate(ShiftRun(epochs, cs), k)(Moved(s, cs[k]));
            && r.Some? == r'.Some?
            && (RrcKept(r, r', d) <==> RateMove(epochs, cs, k, s.prn) == None || MovesBy(epochs, cs, k, s.prn, d))
  {
    RateMoves(epochs, cs, k, s.prn, s.value);
    match RateMove(epochs, cs, k, s.prn)
    case None =>
    case Some(m) => RrcKeptMove(RunRate(epochs, k)(s), m, d);
  }

  lemma KeptThenMoves(maxResidual: real, epochs: seq<Epoch>, cs: seq<real>, k: nat, offset: real, d: real)
    requires |cs| == |epochs| && k < |epochs| && epochs[k].sats != [] && offset == Median(Values(epochs[k].sats))
    requires AllKept(RunRate(epochs, k), RunRate(ShiftRun(epochs, cs), k), maxResidual, offset, epochs[k].sats, cs[k], d)
    ensures ShownMove(maxResidual, epochs, cs, k, d)
  {
    forall s | Shows(maxResidual, epochs, cs, k, s) ensures MovesBy(epochs, cs, k, s.prn, d) {
      assert RrcKept(RunRate(epochs, k)(s), RunRate(ShiftRun(epochs, cs), k)(Moved(s, cs[k])), d);
      RrcKeptIff(epochs, cs, k, s, d);
    }
  }

  lemma MovesThenKept(maxResidual: real, epochs: seq<Epoch>, cs: seq<real>, k: nat, offset: real, d: real)
    requires |cs| == |epochs| && k < |epochs| && epochs[k].sats != [] && offset == Median(Values(epochs[k].sats))
    requires ShownMove(maxResidual, epochs, cs, k, d)
    ensures AllKept(RunRate(epochs, k), RunRate(ShiftRun(epochs, cs), k), maxResidual, offset, epochs[k].sats, cs[k], d)
  {
    var rate, rate' := RunRate(epochs, k), RunRate(ShiftRun(epochs, cs), k);
    forall s | s in epochs[k].sats && Abs(s.value - offset) <= maxResidual
      ensures RrcKept(rate(s), rate'(Moved(s, cs[k])), d)
    {
      RrcKeptIff(epochs, cs, k, s, d);
      if RateMove(epochs, cs, k, s.prn).Some? { assert Shows(maxResidual, epochs, cs, k, s); }
    }
  }

  lemma SameExactly(maxResidual: real, epochs: seq<Epoch>, cs: seq<real>, k: nat, offset: real, sorted: seq<Sat>,
                    later: real, moved: seq<Sat>)
    requires |cs| == |epochs| && ValidRun(epochs) && k < |epochs| && DrawnFrom(epochs[k].sats, offset, sorted)
    requires ValidRun(ShiftRun(epochs, cs)) && DrawnFrom(ShiftRun(epochs, cs)[k].sats, later, moved)
    requires later == offset + cs[k] && moved == ShiftSats(sorted, cs[k])
    ensures (OutAt(maxResidual, ShiftRun(epochs, cs), k) == OutAt(maxResidual, epochs, k)) ==
            AllKept(RunRate(epochs, k), RunRate(ShiftRun(epochs, cs), k), maxResidual, offset, epochs[k].sats, cs[k],
                    EpochMove(epochs, cs, k))
  {
    var r1, r2, d := RateOffsetAt(epochs, k), RateOffsetAt(ShiftRun(epochs, cs), k), EpochMove(epochs, cs, k);
    RatesAppearTogether(epochs, cs, k);
    OutsOfSorted(RunRate(epochs, k), RunRate(ShiftRun(epochs, cs), k), maxResidual, offset, r1, r2, d, epochs[k].sats, sorted,
                 cs[k], later, moved);
    OutDrawn(maxResidual, epochs, k, offset, sorted);
    OutDrawn(maxResidual, ShiftRun(epochs, cs), k, later, moved);
  }

  lemma DrawnInShifted(epochs: seq<Epoch>, cs: seq<real>, k: nat, offset: real, sorted: seq<Sat>)
    returns (later: real, moved: seq<Sat>)
    requires |cs| == |epochs| && ValidRun(epochs) && k < |epochs| && DrawnFrom(epochs[k].sats, offset, sorted)
    ensures ValidRun(ShiftRun(epochs, cs)) && DrawnFrom(ShiftRun(epochs, cs)[k].sats, later, moved)
    ensures later == offset + cs[k] && moved == ShiftSats(sorted, cs[k])
  {
    ShiftedRunValid(epochs, cs);
    later, moved := DrawnShifted(epochs[k].sats, cs[k], offset, sorted);
    assert ShiftRun(epochs, cs)[k].sats == ShiftSats(epochs[k].sats, cs[k]);
  }

  /** Main result: offsets leave an epoch's output unchanged exactly when the rates of the satellites
      it shows all move as its rate offset does. */
  lemma UnchangedExactly(maxResidual: real, epochs: seq<Epoch>, cs: seq<real>, k: nat)
    requires |cs| == |epochs| && ValidRun(epochs) && k < |epochs|
    ensures (OutAt(maxResidual, ShiftRun(epochs, cs), k) == OutAt(maxResidual, epochs, k)) ==
            ShownMove(maxResidual, epochs, cs, k, EpochMove(epochs, cs, k))
  {
    if epochs[k].sats == [] {
      NothingShown(maxResidual, epochs, cs, k);
    } else {
      UnchangedSome(maxResidual, epochs, cs, k, Median(Values(epochs[k].sats)), SortSats(epochs[k].sats));
    }
  }

  lemma UnchangedSome(maxResidual: real, epochs: seq<Epoch>, cs: seq<real>, k: nat, offset: real, sorted: seq<Sat>)
    requires |cs| == |epochs| && ValidRun(epochs) && k < |epochs| && DrawnFrom(epochs[k].sats, offset, sorted)
    ensures (OutAt(maxResidual, ShiftRun(epochs, cs), k) == OutAt(maxResidual, epochs, k)) ==
            ShownMove(maxResidual, epochs, cs, k, EpochMove(epochs, cs, k))
  {
    var later, moved := DrawnInShifted(epochs, cs, k, offset, sorted);
    ShownExactly(maxResidual, epochs, cs, k, offset, sorted, later, moved);
  }

  lemma ShownExactly(maxResidual: real, epochs: seq<Epoch>, cs: seq<real>, k: nat, offset: real, sorted: seq<Sat>,
                     later: real, moved: seq<Sat>)
    requires |cs| == |epochs| && ValidRun(epochs) && k < |epochs| && DrawnFrom(epochs[k].sats, offset, sorted)
    requires ValidRun(ShiftRun(epochs, cs)) && DrawnFrom(ShiftRun(epochs, cs)[k].sats, later, moved)
    requires later == offset + cs[k] && moved == ShiftSats(sorted, cs[k])
    ensures (OutAt(maxResidual, ShiftRun(epochs, cs), k) == OutAt(maxResidual, epochs, k)) ==
            ShownMove(maxResidual, epochs, cs, k, EpochMove(epochs, cs, k))
  {
    SameExactly(maxResidual, epochs, cs, k, offset, sorted, later, moved);
    KeptIsShown(maxResidual, epochs, cs, k, offset, EpochMove(epochs, cs, k));
  }

  lemma KeptIsShown(maxResidual: real, epochs: seq<Epoch>, cs: seq<real>, k: nat, offset: real, d: real)
    requires |cs| == |epochs| && k < |epochs| && epochs[k].sats != [] && offset == Median(Values(epochs[k].sats))
    ensures AllKept(RunRate(epochs, k), RunRate(ShiftRun(epochs, cs), k), maxResidual, offset, epochs[k].sats, cs[k], d) ==
            ShownMove(maxResidual, epochs, cs, k, d)
  {
    if AllKept(RunRate(epochs, k), RunRate(ShiftRun(epochs, cs), k), maxResidual, offset, epochs[k].sats, cs[k], d) {
      KeptThenMoves(maxResidual, epochs, cs, k, offset, d);
    } else if ShownMove(maxResidual, epochs, cs, k, d) {
      MovesThenKept(maxResidual, epochs, cs, k, offset, d);
    }
  }

  lemma NothingShown(maxResidual: real, epochs: seq<Epoch>, cs: seq<real>, k: nat)
    requires |cs| == |epochs| && k < |epochs| && epochs[k].sats == []
    ensures OutAt(maxResidual, ShiftRun(epochs, cs), k) == OutAt(maxResidual, epochs, k)
    ensures forall d :: ShownMove(maxResidual, epochs, cs, k, d)
  {
  }

  lemma RatesAppearTogether(epochs: seq<Epoch>, cs: seq<real>, k: nat)
    requires |cs| == |epochs| && k < |epochs|
    ensures forall s :: s in epochs[k].sats ==>
              RunRate(epochs, k)(s).Some? == RunRate(ShiftRun(epochs, cs), k)(Moved(s, cs[k])).Some?
  {
    forall s | s in epochs[k].sats { RrcKeptIff(epochs, cs, k, s, 0.0); }
  }

  ghost predicate NoneDropped(maxResidual: real, epochs: seq<Epoch>, cs: seq<real>, k: nat)
    requires |cs| == |epochs| && k < |epochs|
  {
    forall s :: s in epochs[k].sats && RateMove(epochs, cs, k, s.prn).Some? ==> Emitted(maxResidual, epochs[k].sats, s)
  }

  /** All rated satellites' rates move by the same amount. */
  ghost predicate MovesAgree(epochs: seq<Epoch>, cs: seq<real>, k: nat)
    requires |cs| == |epochs| && k < |epochs|
  {
    exists d :: MovesAlike(epochs, cs, k, d)
  }

  ghost predicate MovesAlike(epochs: seq<Epoch>, cs: seq<real>, k: nat, d: real)
    requires |cs| == |epochs| && k < |epochs|
  {
    forall s :: s in epochs[k].sats && RateMove(epochs, cs, k, s.prn).Some? ==> RateMove(epochs, cs, k, s.prn) == Some(d)
  }

  /** Main result: where no rated satellite is dropped, that is exactly when all their rates move by
      the same amount. */
  lemma UnchangedIffMovesAgree(maxResidual: real, epochs: seq<Epoch>, cs: seq<real>, k: nat)
    requires |cs| == |epochs| && ValidRun(epochs) && k < |epochs| && NoneDropped(maxResidual, epochs, cs, k)
    ensures OutAt(maxResidual, ShiftRun(epochs, cs), k) == OutAt(maxResidual, epochs, k) <==> MovesAgree(epochs, cs, k)
  {
    UnchangedExactly(maxResidual, epochs, cs, k);
    if MovesAgree(epochs, cs, k) {
      var d :| MovesAlike(epochs, cs, k, d);
      EmissionUnchanged(maxResidual, epochs, cs, k, d);
    } else if OutAt(maxResidual, ShiftRun(epochs, cs), k) == OutAt(maxResidual, epochs, k) {
      AllShow(maxResidual, epochs, cs, k, EpochMove(epochs, cs, k));
    }
  }

  lemma AllShow(maxResidual: real, epochs: seq<Epoch>, cs: seq<real>, k: nat, d: real)
    requires |cs| == |epochs| && k < |epochs| && NoneDropped(maxResidual, epochs, cs, k)
    requires ShownMove(maxResidual, epochs, cs, k, d)
    ensures MovesAgree(epochs, cs, k)
  {
    forall s | s in epochs[k].sats && RateMove(epochs, cs, k, s.prn).Some?
      ensures RateMove(epochs, cs, k, s.prn) == Some(d)
    {
      assert Shows(maxResidual, epochs, cs, k, s);
      assert MovesBy(epochs, cs, k, s.prn, d);
    }
    assert MovesAlike(epochs, cs, k, d);
  }

  // --------------------------------------------------------------- a continuous clock

  /** The offsets of a clock that drifts on through the weeks; epoch i lies in week weeks[i]. */
  function Continuous(epochs: seq<Epoch>, weeks: seq<int>, b0: real, b1: real): (cs: seq<real>)
    requires |weeks| == |epochs|
    ensures |cs| == |epochs| && forall i :: 0 <= i < |epochs| ==> cs[i] == b0 + b1 * (epochs[i].tow + WEEK * weeks[i] as real)
  {
    seq(|epochs|, i requires 0 <= i < |epochs| => b0 + b1 * (epochs[i].tow + WEEK * weeks[i] as real))
  }

  /** Rollovers since a satellite's previous sample, per second of broadcast time; None without a rate. */
  function Rollovers(epochs: seq<Epoch>, weeks: seq<int>, k: nat, prn: int): Option<real>
    requires |weeks| == |epochs| && k < |epochs|
  {
    match Last(epochs[..k], prn)
    case None => None
    case Some((j, _)) =>
      if epochs[k].tow == epochs[j].tow then None
      else Some((weeks[k] - weeks[j]) as real / (epochs[k].tow - epochs[j].tow))
  }

  /** What a drift b1 adds to a rate that spans q rollovers per second of broadcast time. */
  function MoveBy(b1: real, q: real): real { b1 + b1 * WEEK * q }

  lemma MoveArithmetic(b0: real, b1: real, t: real, u: real, w: real, x: real, ct: real, cu: real)
    requires t != u && ct == b0 + b1 * (t + WEEK * w) && cu == b0 + b1 * (u + WEEK * x)
    ensures (ct - cu) / (t - u) == MoveBy(b1, (w - x) / (t - u))
  {
    var dt, q := t - u, (w - x) / (t - u);
    assert q * dt == w - x;
    assert ct - cu == b1 * (dt + WEEK * (w - x)) by { Distribute(b1, t + WEEK * w, u + WEEK * x); }
    QuotientIs(ct - cu, dt, b1, WEEK * q);
  }

  lemma Distribute(b: real, x: real, y: real)
    ensures b * x - b * y == b * (x - y)
  {
  }

  lemma QuotientIs(n: real, dt: real, b: real, z: real)
    requires dt != 0.0 && n == b * (dt + z * dt)
    ensures n / dt == b + b * z
  {
    assert n == (b + b * z) * dt;
  }

  lemma ContinuousBetween(epochs: seq<Epoch>, weeks: seq<int>, b0: real, b1: real, k: nat, j: nat)
    requires |weeks| == |epochs| && j < |epochs| && k < |epochs| && epochs[k].tow != epochs[j].tow
    ensures var cs, dt := Continuous(epochs, weeks, b0, b1), epochs[k].tow - epochs[j].tow;
            (cs[k] - cs[j]) / dt == MoveBy(b1, (weeks[k] - weeks[j]) as real / dt)
  {
    var cs := Continuous(epochs, weeks, b0, b1);
    assert (weeks[k] - weeks[j]) as real == weeks[k] as real - weeks[j] as real;
    MoveArithmetic(b0, b1, epochs[k].tow, epochs[j].tow, weeks[k] as real, weeks[j] as real, cs[k], cs[j]);
  }

  /** How a continuous clock moves a satellite's rate. */
  lemma ContinuousMove(epochs: seq<Epoch>, weeks: seq<int>, b0: real, b1: real, k: nat, prn: int)
    requires |weeks| == |epochs| && k < |epochs|
    ensures RateMove(epochs, Continuous(epochs, weeks, b0, b1), k, prn) ==
            match Rollovers(epochs, weeks, k, prn) case None => None case Some(q) => Some(MoveBy(b1, q))
  {
    match Last(epochs[..k], prn)
    case None =>
    case Some((j, _)) =>
      if epochs[k].tow != epochs[j].tow { ContinuousBetween(epochs, weeks, b0, b1, k, j); }
  }

  lemma ZeroProduct(b: real, q: real)
    ensures MoveBy(b, q) == b <==> b == 0.0 || q == 0.0
  {
    if b != 0.0 && q != 0.0 { assert b * WEEK != 0.0; NonZero(b * WEEK, q); }
  }

  lemma NonZero(a: real, b: real)
    requires a != 0.0 && b != 0.0
    ensures a * b != 0.0
  {
  }

  lemma QuotientZero(n: real, d: real)
    requires d != 0.0
    ensures n / d == 0.0 <==> n == 0.0
  {
    assert n / d * d == n;
  }

  /** Main result: the drift moves a satellite's rate by the drift alone exactly when there is no drift,
      or the satellite's previous sample is of the same week. */
  lemma MovesByDriftIff(epochs: seq<Epoch>, weeks: seq<int>, b0: real, b1: real, k: nat, prn: int)
    requires |weeks| == |epochs| && k < |epochs| && Rollovers(epochs, weeks, k, prn).Some?
    ensures RateMove(epochs, Continuous(epochs, weeks, b0, b1), k, prn) == Some(b1) <==>
            b1 == 0.0 || weeks[k] == weeks[Last(epochs[..k], prn).value.0]
  {
    ContinuousMove(epochs, weeks, b0, b1, k, prn);
    var j := Last(epochs[..k], prn).value.0;
    ZeroProduct(b1, Rollovers(epochs, weeks, k, prn).value);
    QuotientZero((weeks[k] - weeks[j]) as real, epochs[k].tow - epochs[j].tow);
  }

  /** Main result: an epoch in which every rated satellite was last sampled in the same week is
      emitted unchanged, whatever the clock's bias and drift. */
  lemma SameWeekUnchanged(maxResidual: real, epochs: seq<Epoch>, weeks: seq<int>, b0: real, b1: real, k: nat)
    requires |weeks| == |epochs| && ValidRun(epochs) && k < |epochs|
    requires forall s :: s in epochs[k].sats && Rollovers(epochs, weeks, k, s.prn).Some? ==>
               weeks[k] == weeks[Last(epochs[..k], s.prn).value.0]
    ensures OutAt(maxResidual, ShiftRun(epochs, Continuous(epochs, weeks, b0, b1)), k) == OutAt(maxResidual, epochs, k)
  {
    var cs := Continuous(epochs, weeks, b0, b1);
    forall s | s in epochs[k].sats && RateMove(epochs, cs, k, s.prn).Some?
      ensures RateMove(epochs, cs, k, s.prn) == Some(b1)
    {
      ContinuousMove(epochs, weeks, b0, b1, k, s.prn);
      MovesByDriftIff(epochs, weeks, b0, b1, k, s.prn);
    }
    EmissionUnchanged(maxResidual, epochs, cs, k, b1);
  }

  lemma SameMove(b: real, q: real, r: real)
    requires b != 0.0
    ensures MoveBy(b, q) == MoveBy(b, r) <==> q == r
  {
    if q != r {
      NonZero(b * WEEK, q - r);
      Distribute(b * WEEK, q, r);
    }
  }

  /** All rated satellites have seen the same number of rollovers per second since their last sample. */
  ghost predicate RolloversAlike(epochs: seq<Epoch>, weeks: seq<int>, k: nat, q: real)
    requires |weeks| == |epochs| && k < |epochs|
  {
    forall s :: s in epochs[k].sats && Rollovers(epochs, weeks, k, s.prn).Some? ==> Rollovers(epochs, weeks, k, s.prn) == Some(q)
  }

  ghost predicate RolloversAgree(epochs: seq<Epoch>, weeks: seq<int>, k: nat)
    requires |weeks| == |epochs| && k < |epochs|
  {
    exists q :: RolloversAlike(epochs, weeks, k, q)
  }

  /** Main result: exactly when a drifting clock leaves an epoch with no rated satellite dropped
      unchanged: the rollovers since the previous samples, per second of broadcast time, must agree. */
  lemma DriftShowsExactly(maxResidual: real, epochs: seq<Epoch>, weeks: seq<int>, b0: real, b1: real, k: nat)
    requires |weeks| == |epochs| && ValidRun(epochs) && k < |epochs| && b1 != 0.0
    requires NoneDropped(maxResidual, epochs, Continuous(epochs, weeks, b0, b1), k)
    ensures OutAt(maxResidual, ShiftRun(epochs, Continuous(epochs, weeks, b0, b1)), k) == OutAt(maxResidual, epochs, k) <==>
            RolloversAgree(epochs, weeks, k)
  {
    UnchangedIffMovesAgree(maxResidual, epochs, Continuous(epochs, weeks, b0, b1), k);
    AgreeTogether(epochs, weeks, b0, b1, k);
  }

  lemma AlikeTogether(epochs: seq<Epoch>, weeks: seq<int>, b0: real, b1: real, k: nat, q: real)
    requires |weeks| == |epochs| && k < |epochs| && b1 != 0.0
    ensures MovesAlike(epochs, Continuous(epochs, weeks, b0, b1), k, MoveBy(b1, q)) <==> RolloversAlike(epochs, weeks, k, q)
  {
    forall s: Sat
      ensures var m, r := RateMove(epochs, Continuous(epochs, weeks, b0, b1), k, s.prn), Rollovers(epochs, weeks, k, s.prn);
              m.Some? == r.Some? && (m == Some(MoveBy(b1, q)) <==> r == Some(q))
    {
      ContinuousMove(epochs, weeks, b0, b1, k, s.prn);
      match Rollovers(epochs, weeks, k, s.prn)
      case None =>
      case Some(r) => SameMove(b1, r, q);
    }
  }

  lemma SolveMove(b1: real, d: real) returns (q: real)
    requires b1 != 0.0
    ensures MoveBy(b1, q) == d
  {
    var a := b1 * WEEK;
    q := (d - b1) / a;
    assert a * q == d - b1;
  }

  lemma AgreeTogether(epochs: seq<Epoch>, weeks: seq<int>, b0: real, b1: real, k: nat)
    requires |weeks| == |epochs| && k < |epochs| && b1 != 0.0
    ensures MovesAgree(epochs, Continuous(epochs, weeks, b0, b1), k) <==> RolloversAgree(epochs, weeks, k)
  {
    var cs := Continuous(epochs, weeks, b0, b1);
    if MovesAgree(epochs, cs, k) {
      var d :| MovesAlike(epochs, cs, k, d);
      var q := SolveMove(b1, d);
      AlikeTogether(epochs, weeks, b0, b1, k, q);
    }
    if RolloversAgree(epochs, weeks, k) {
      var q :| RolloversAlike(epochs, weeks, k, q);
      AlikeTogether(epochs, weeks, b0, b1, k, q);
    }
  }

  // --------------------------------------------------------------------- an input

  /** Satellite 2 last seen ten seconds, satellite 1 one second before the rollover. */
  function RolloverRun(): seq<Epoch>
  {
    [Epoch(604790.0, [Sat(2, 0.0, 0)]), Epoch(604799.0, [Sat(1, 0.0, 0)]), Epoch(1.0, [Sat(1, 0.0, 0), Sat(2, 0.0, 0)])]
  }

  const ROLLOVER_WEEKS: seq<int> := [0, 0, 1]

  lemma LastInRun()
    ensures Last(RolloverRun()[..2], 1) == Some((1, 0.0)) && Last(RolloverRun()[..2], 2) == Some((0, 0.0))
  {
    var e := RolloverRun()[..2];
    assert e[..1] == [RolloverRun()[0]] && e[..1][..0] == [];
    assert e[1].sats[..0] == [] && e[0].sats[..0] == [];
  }

  lemma RolloverMoves()
    ensures Rollovers(RolloverRun(), ROLLOVER_WEEKS, 2, 1) == Some(1.0 / -604798.0)
    ensures Rollovers(RolloverRun(), ROLLOVER_WEEKS, 2, 2) == Some(1.0 / -604789.0)
  {
    LastInRun();
    var run := RolloverRun();
    assert run[2].tow - run[1].tow == -604798.0 && run[2].tow - run[0].tow == -604789.0;
    assert (ROLLOVER_WEEKS[2] - ROLLOVER_WEEKS[1]) as real == 1.0 && (ROLLOVER_WEEKS[2] - ROLLOVER_WEEKS[0]) as real == 1.0;
  }

  /** The input: with a drift of 300 m/s the two rates move apart by over two fine RRC counts, and the
      epoch after the rollover comes out different. */
  lemma DriftShowsAtRollover(b0: real, maxResidual: real)
    requires maxResidual >= 0.0
    ensures var cs := Continuous(RolloverRun(), ROLLOVER_WEEKS, b0, 300.0);
            && OutAt(maxResidual, ShiftRun(RolloverRun(), cs), 2) != OutAt(maxResidual, RolloverRun(), 2)
            && RateMove(RolloverRun(), cs, 2, 1).Some? && RateMove(RolloverRun(), cs, 2, 2).Some?
            && RateMove(RolloverRun(), cs, 2, 1).value - RateMove(RolloverRun(), cs, 2, 2).value > 0.004
  {
    var run, cs := RolloverRun(), Continuous(RolloverRun(), ROLLOVER_WEEKS, b0, 300.0);
    RolloverMoves();
    ContinuousMove(run, ROLLOVER_WEEKS, b0, 300.0, 2, 1);
    ContinuousMove(run, ROLLOVER_WEEKS, b0, 300.0, 2, 2);
    RolloverShown(maxResidual, cs);
    RolloverDisagrees();
    DriftShowsExactly(maxResidual, run, ROLLOVER_WEEKS, b0, 300.0, 2);
  }

  lemma RolloverShown(maxResidual: real, cs: seq<real>)
    requires maxResidual >= 0.0 && |cs| == 3
    ensures ValidRun(RolloverRun()) && NoneDropped(maxResidual, RolloverRun(), cs, 2)
  {
    var sats := RolloverRun()[2].sats;
    assert Values(sats) == [0.0, 0.0];
    assert [0.0, 0.0][1..] == [0.0] && Sort([0.0]) == [0.0];
    assert Sort([0.0, 0.0]) == [0.0, 0.0];
  }

  lemma RolloverDisagrees()
    ensures !RolloversAgree(RolloverRun(), ROLLOVER_WEEKS, 2)
  {
    RolloverMoves();
    var sats := RolloverRun()[2].sats;
    assert sats[0] in sats && sats[1] in sats && sats[0].prn == 1 && sats[1].prn == 2;
  }
}
