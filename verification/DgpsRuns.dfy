/** What DgpsGenerator keeps and emits over whole runs of epochs. */
module DgpsRuns {
  import opened Basics
  import opened Statistics
  import opened Rtcm2
  import opened Dgps

  /** An epoch after the gates. */
  datatype Epoch = Epoch(tow: real, sats: seq<Sat>)

  /** The usable satellites of an epoch come from a dict: one entry per PRN. */
  ghost predicate OnePerPrn(sats: seq<Sat>)
  {
    forall s, t :: s in sats && t in sats && s.prn == t.prn ==> s == t
  }

  ghost predicate ValidRun(epochs: seq<Epoch>)
  {
    forall e <- epochs :: OnePerPrn(e.sats)
  }

  /** The generator's history after a run from the initial state. */
  function PrevAfter(epochs: seq<Epoch>): History
  {
    if epochs == [] then map[]
    else
      var n := |epochs| - 1;
      Recall(PrevAfter(epochs[..n]), epochs[n].tow, epochs[n].sats)
  }

  /** What is emitted at epoch k of a run. */
  function OutAt(maxResidual: real, epochs: seq<Epoch>, k: nat): seq<Correction>
    requires k < |epochs|
  {
    Emit(RateFn(PrevAfter(epochs[..k]), epochs[k].tow), maxResidual, epochs[k].sats)
  }

  function Outputs(maxResidual: real, epochs: seq<Epoch>): (outs: seq<seq<Correction>>)
    ensures |outs| == |epochs|
  {
    seq(|epochs|, k requires 0 <= k < |epochs| => OutAt(maxResidual, epochs, k))
  }

  // ---------------------------------------------------------------------- gates

  /** The gates in figures: a stored and healthy ephemeris, a positive pseudorange, and a reference time
      no further from the time of transmission than the limit, in this week or the next or the last. */
  predicate InUse(ephs: map<int, Ephemeris>, maxAge: real, tow: real, prn: int, pr: real)
  {
    && prn in ephs && pr > 0.0 && ephs[prn].health == 0
    && var dt := tow - pr / 299792458.0 - ephs[prn].toe;
       Abs(dt) <= maxAge || Abs(dt - 604800.0) <= maxAge || Abs(dt + 604800.0) <= maxAge
  }

  lemma UsableExactly(ephs: map<int, Ephemeris>, maxAge: real, tow: real, prn: int, pr: real)
    ensures Usable(ephs, maxAge, tow, prn, pr) <==> InUse(ephs, maxAge, tow, prn, pr)
  {
  }

  /** A satellite is used exactly when its observation passes every gate, with its own ephemeris. */
  lemma {:induction false} GateMembers(ephs: map<int, Ephemeris>, base: Ecef, model: RawModel, maxAge: real, tow: real,
                                       prs: seq<(int, real)>)
    ensures forall s :: s in Gate(ephs, base, model, maxAge, tow, prs) <==>
              exists o <- prs :: InUse(ephs, maxAge, tow, o.0, o.1)
                                 && s == Sat(o.0, model(ephs[o.0], base, tow, o.1), ephs[o.0].iode)
  {
    if prs != [] {
      var n := |prs| - 1;
      assert prs == prs[..n] + [prs[n]];
      UsableExactly(ephs, maxAge, tow, prs[n].0, prs[n].1);
      GateMembers(ephs, base, model, maxAge, tow, prs[..n]);
    }
  }

  /** Observations keyed by PRN give at most one satellite per PRN. */
  lemma GateOnePerPrn(ephs: map<int, Ephemeris>, base: Ecef, model: RawModel, maxAge: real, tow: real,
                      prs: seq<(int, real)>)
    requires forall o, q :: o in prs && q in prs && o.0 == q.0 ==> o == q
    ensures OnePerPrn(Gate(ephs, base, model, maxAge, tow, prs))
  {
    GateMembers(ephs, base, model, maxAge, tow, prs);
  }

  /** The rate uses the plain difference of the two times. For times of week it is the rate over the
      rollover-corrected interval exactly when the times are within half a week, or nothing moved. */
  lemma RateAcrossWeek(t: real, v: real, tow: real, value: real)
    requires 0.0 <= t < WEEK && 0.0 <= tow < WEEK && tow != t
    ensures DeltaTWeek(tow, t) != 0.0
    ensures RateFrom(Some((t, v)), tow, value) == Some((value - v) / DeltaTWeek(tow, t)) <==>
            Abs(tow - t) <= HALF_WEEK || value == v
  {
    var a, b, x := tow - t, DeltaTWeek(tow, t), value - v;
    assert x / a * a == x && x / b * b == x;
    if x / a == x / b && a != b { NoQuotient(x / a, a, b); }
  }

  lemma NoQuotient(q: real, a: real, b: real)
    requires q * a == q * b && a != b
    ensures q == 0.0
  {
    assert q * (a - b) == 0.0;
  }

  /** One second after midnight of the rollover the plain interval is taken instead of 2 s. */
  lemma RateAtRollover(v: real)
    ensures RateFrom(Some((604799.0, v)), 1.0, v + 2.0) == Some(2.0 / -604798.0)
    ensures DeltaTWeek(1.0, 604799.0) == 2.0
  {
  }

  // -------------------------------------------------------------------- sorting

  ghost predicate Ascending(sats: seq<Sat>)
  {
    forall i, j :: 0 <= i < j < |sats| ==> sats[i].prn <= sats[j].prn
  }

  lemma AscendingCons(s: Sat, sats: seq<Sat>)
    requires Ascending(sats) && forall t :: t in sats ==> s.prn <= t.prn
    ensures Ascending([s] + sats)
  {
    forall j | 0 <= j < |sats| ensures s.prn <= sats[j].prn { assert sats[j] in sats; }
  }

  lemma {:induction false} InsertSatAscending(s: Sat, sats: seq<Sat>)
    requires Ascending(sats)
    ensures Ascending(InsertSat(s, sats))
  {
    if sats == [] || s.prn <= sats[0].prn {
      forall t | t in sats ensures s.prn <= t.prn {
        var i :| 0 <= i < |sats| && sats[i] == t;
        assert sats[0].prn <= sats[i].prn;
      }
      AscendingCons(s, sats);
    } else {
      var tail := sats[1..];
      InsertSatAscending(s, tail);
      InsertSatMembers(s, tail);
      forall t | t in tail ensures sats[0].prn <= t.prn {
        var i :| 0 <= i < |tail| && tail[i] == t;
        assert sats[0].prn <= sats[i + 1].prn;
      }
      AscendingCons(sats[0], InsertSat(s, tail));
    }
  }

  lemma {:induction false} SortSatsAscending(sats: seq<Sat>)
    ensures Ascending(SortSats(sats))
  {
    if sats != [] {
      SortSatsAscending(sats[1..]);
      InsertSatAscending(sats[0], SortSats(sats[1..]));
    }
  }

  // ------------------------------------------------------------- history refinement

  /** The value a satellite had in an epoch, if it was there. */
  function Find(sats: seq<Sat>, prn: int): Option<real>
  {
    if sats == [] then None
    else
      var n := |sats| - 1;
      if sats[n].prn == prn then Some(sats[n].value) else Find(sats[..n], prn)
  }

  lemma {:induction false} FindMember(sats: seq<Sat>, prn: int)
    requires OnePerPrn(sats)
    ensures forall s <- sats :: s.prn == prn ==> Find(sats, prn) == Some(s.value)
    ensures Find(sats, prn).Some? ==> exists s <- sats :: s.prn == prn
  {
    if sats != [] {
      var n := |sats| - 1;
      assert sats == sats[..n] + [sats[n]];
      assert sats[n] in sats;
      FindMember(sats[..n], prn);
    }
  }

  /** A satellite's last usable sample in a run: the epoch's index and the raw value then. */
  function Last(epochs: seq<Epoch>, prn: int): (r: Option<(int, real)>)
    ensures r.Some? ==> 0 <= r.value.0 < |epochs|
  {
    if epochs == [] then None
    else
      var n := |epochs| - 1;
      match Find(epochs[n].sats, prn)
      case Some(v) => Some((n, v))
      case None => Last(epochs[..n], prn)
  }

  /** The same, with the epoch's tow. */
  function LastSample(epochs: seq<Epoch>, prn: int): Option<(real, real)>
  {
    match Last(epochs, prn)
    case None => None
    case Some((j, v)) => Some((epochs[j].tow, v))
  }

  /** Last is the latest epoch in which the satellite passed the gates. */
  lemma {:induction false} LastIsLatest(epochs: seq<Epoch>, prn: int, i: nat)
    requires i < |epochs| && Find(epochs[i].sats, prn).Some?
    ensures Last(epochs, prn).Some? && Last(epochs, prn).value.0 >= i
    ensures Last(epochs, prn).value.0 == i ==> Last(epochs, prn).value.1 == Find(epochs[i].sats, prn).value
  {
    var n := |epochs| - 1;
    if i < n && Find(epochs[n].sats, prn).None? { LastIsLatest(epochs[..n], prn, i); }
  }

  lemma {:induction false} RememberLooksUp(prev: History, tow: real, sats: seq<Sat>, prn: int)
    ensures Sample(Remember(prev, tow, sats), prn) ==
            match Find(sats, prn) case Some(v) => Some((tow, v)) case None => Sample(prev, prn)
  {
    if sats != [] { RememberLooksUp(prev, tow, sats[..|sats| - 1], prn); }
  }

  lemma SortedFind(sats: seq<Sat>, prn: int)
    requires OnePerPrn(sats)
    ensures Find(SortSats(sats), prn) == Find(sats, prn)
  {
    SortSatsMembers(sats);
    FindMember(sats, prn);
    FindMember(SortSats(sats), prn);
    if Find(sats, prn).Some? {
      var s :| s in sats && s.prn == prn;
      assert s in SortSats(sats);
    }
    assert forall s <- SortSats(sats) :: s in sats;
  }

  /** Main result: whatever was dropped as an outlier and whichever other satellites were there,
      the history kept for a satellite is its own last usable sample. */
  lemma {:induction false} HistoryIsLastSample(epochs: seq<Epoch>, prn: int)
    requires ValidRun(epochs)
    ensures Sample(PrevAfter(epochs), prn) == LastSample(epochs, prn)
    decreases |epochs|
  {
    if epochs != [] {
      var n := |epochs| - 1;
      var e := epochs[n];
      assert e in epochs;
      PrefixValid(epochs, n);
      HistoryIsLastSample(epochs[..n], prn);
      RememberLooksUp(PrevAfter(epochs[..n]), e.tow, SortSats(e.sats), prn);
      SortedFind(e.sats, prn);
    }
  }

  lemma PrefixValid(epochs: seq<Epoch>, k: nat)
    requires ValidRun(epochs) && k <= |epochs|
    ensures ValidRun(epochs[..k])
  {
    forall e | e in epochs[..k] ensures OnePerPrn(e.sats) { assert e in epochs; }
  }

  /** The same run with every other satellite taken away. */
  function OnlySats(sats: seq<Sat>, prn: int): (r: seq<Sat>)
    ensures forall s :: s in r <==> s in sats && s.prn == prn
  {
    if sats == [] then []
    else
      var n := |sats| - 1;
      OnlySats(sats[..n], prn) + if sats[n].prn == prn then [sats[n]] else []
  }

  function OnlyPrn(epochs: seq<Epoch>, prn: int): (r: seq<Epoch>)
    ensures |r| == |epochs|
    ensures forall i :: 0 <= i < |epochs| ==> r[i] == Epoch(epochs[i].tow, OnlySats(epochs[i].sats, prn))
  {
    seq(|epochs|, i requires 0 <= i < |epochs| => Epoch(epochs[i].tow, OnlySats(epochs[i].sats, prn)))
  }

  lemma {:induction false} OnlyFind(sats: seq<Sat>, prn: int)
    ensures Find(OnlySats(sats, prn), prn) == Find(sats, prn)
  {
    if sats != [] { OnlyFind(sats[..|sats| - 1], prn); }
  }

  lemma {:induction false} OnlyKeepsLast(epochs: seq<Epoch>, prn: int)
    ensures LastSample(OnlyPrn(epochs, prn), prn) == LastSample(epochs, prn)
    ensures Last(OnlyPrn(epochs, prn), prn) == Last(epochs, prn)
  {
    if epochs != [] {
      var n := |epochs| - 1;
      OnlyFind(epochs[n].sats, prn);
      OnlyKeepsLast(epochs[..n], prn);
      assert OnlyPrn(epochs, prn)[..n] == OnlyPrn(epochs[..n], prn);
    }
  }

  lemma OnlyValid(epochs: seq<Epoch>, prn: int)
    requires ValidRun(epochs)
    ensures ValidRun(OnlyPrn(epochs, prn))
  {
    forall e | e in OnlyPrn(epochs, prn) ensures OnePerPrn(e.sats) {
      var i :| 0 <= i < |epochs| && OnlyPrn(epochs, prn)[i] == e;
      assert epochs[i] in epochs;
    }
  }

  /** Main result: a satellite's raw rate does not depend on which others were present, ever. */
  lemma RateIsItsOwn(epochs: seq<Epoch>, tow: real, s: Sat)
    requires ValidRun(epochs)
    ensures RateFn(PrevAfter(epochs), tow)(s) == RateFn(PrevAfter(OnlyPrn(epochs, s.prn)), tow)(s)
    ensures RateFn(PrevAfter(epochs), tow)(s) == RateFrom(LastSample(epochs, s.prn), tow, s.value)
  {
    OnlyValid(epochs, s.prn);
    HistoryIsLastSample(epochs, s.prn);
    HistoryIsLastSample(OnlyPrn(epochs, s.prn), s.prn);
    OnlyKeepsLast(epochs, s.prn);
  }

  // ------------------------------------------------------------- common-mode invariance

  function ShiftSats(sats: seq<Sat>, c: real): (r: seq<Sat>)
    ensures |r| == |sats|
    ensures forall i :: 0 <= i < |sats| ==> r[i] == sats[i].(value := sats[i].value + c)
  {
    seq(|sats|, i requires 0 <= i < |sats| => sats[i].(value := sats[i].value + c))
  }

  function ShiftRun(epochs: seq<Epoch>, cs: seq<real>): (r: seq<Epoch>)
    requires |cs| == |epochs|
    ensures |r| == |epochs|
    ensures forall i :: 0 <= i < |epochs| ==> r[i] == Epoch(epochs[i].tow, ShiftSats(epochs[i].sats, cs[i]))
  {
    seq(|epochs|, i requires 0 <= i < |epochs| => Epoch(epochs[i].tow, ShiftSats(epochs[i].sats, cs[i])))
  }

  lemma {:induction false} InsertSatShift(s: Sat, sats: seq<Sat>, c: real)
    ensures InsertSat(s.(value := s.value + c), ShiftSats(sats, c)) == ShiftSats(InsertSat(s, sats), c)
  {
    if sats == [] || s.prn <= sats[0].prn {
    } else {
      InsertSatShift(s, sats[1..], c);
      assert ShiftSats(sats, c)[1..] == ShiftSats(sats[1..], c);
    }
  }

  lemma {:induction false} SortSatsShift(sats: seq<Sat>, c: real)
    ensures SortSats(ShiftSats(sats, c)) == ShiftSats(SortSats(sats), c)
  {
    if sats != [] {
      SortSatsShift(sats[1..], c);
      assert ShiftSats(sats, c)[1..] == ShiftSats(sats[1..], c);
      InsertSatShift(sats[0], SortSats(sats[1..]), c);
    }
  }

  function Moved(s: Sat, c: real): Sat { s.(value := s.value + c) }

  function PlusRate(r: Option<real>, d: real): Option<real>
  {
    match r case None => None case Some(x) => Some(x + d)
  }

  /** Every satellite's rate moves by the same d when its values move by c. */
  ghost predicate RatesMove(rate: Sat -> Option<real>, rate': Sat -> Option<real>, sats: seq<Sat>, c: real, d: real)
  {
    forall s :: s in sats ==> rate'(Moved(s, c)) == PlusRate(rate(s), d)
  }

  lemma {:induction false} RatesShift(rate: Sat -> Option<real>, rate': Sat -> Option<real>, sats: seq<Sat>, c: real, d: real)
    requires RatesMove(rate, rate', sats, c, d)
    ensures FilterMap(rate', ShiftSats(sats, c)) == Shift(FilterMap(rate, sats), d)
  {
    if sats != [] {
      var n := |sats| - 1;
      assert ShiftSats(sats, c)[..n] == ShiftSats(sats[..n], c);
      assert sats[n] in sats && ShiftSats(sats, c)[n] == Moved(sats[n], c);
      RatesShift(rate, rate', sats[..n], c, d);
    }
  }

  lemma {:induction false} FilterMapSame<T, U>(f: T -> Option<U>, g: T -> Option<U>, s: seq<T>, t: seq<T>)
    requires |s| == |t| && forall i :: 0 <= i < |s| ==> f(s[i]) == g(t[i])
    ensures FilterMap(f, s) == FilterMap(g, t)
  {
    if s != [] {
      var n := |s| - 1;
      FilterMapSame(f, g, s[..n], t[..n]);
    }
  }

  lemma {:induction false} FilterMapEmpty<T, U>(f: T -> Option<U>, s: seq<T>)
    ensures FilterMap(f, s) == [] <==> forall x <- s :: f(x) == None
  {
    if s != [] {
      var n := |s| - 1;
      FilterMapEmpty(f, s[..n]);
      assert s == s[..n] + [s[n]];
    }
  }

  lemma OutOfShift(r: Option<real>, maxResidual: real, offset: real, rateOffset: real, s: Sat, c: real, d: real)
    ensures OutOf(PlusRate(r, d), maxResidual, offset + c, rateOffset + d, Moved(s, c)) ==
            OutOf(r, maxResidual, offset, rateOffset, s)
  {
  }

  lemma OutsShift(rate: Sat -> Option<real>, rate': Sat -> Option<real>, maxResidual: real,
                  offset: real, rateOffset: real, sats: seq<Sat>, c: real, d: real)
    requires RatesMove(rate, rate', sats, c, d)
    ensures OutputOf(rate', maxResidual, offset + c, rateOffset + d, ShiftSats(sats, c)) ==
            OutputOf(rate, maxResidual, offset, rateOffset, sats)
  {
    var f, g := OutFn(rate', maxResidual, offset + c, rateOffset + d), OutFn(rate, maxResidual, offset, rateOffset);
    var t := ShiftSats(sats, c);
    forall i | 0 <= i < |sats| ensures f(t[i]) == g(sats[i]) {
      assert sats[i] in sats && t[i] == Moved(sats[i], c);
      OutOfShift(rate(sats[i]), maxResidual, offset, rateOffset, sats[i], c, d);
    }
    FilterMapSame(f, g, t, sats);
  }

  /** Without any rate, the rate offset is not used. */
  lemma OutsUnrated(rate: Sat -> Option<real>, maxResidual: real, offset: real, r1: real, r2: real, sats: seq<Sat>)
    requires forall s :: s in sats ==> rate(s) == None
    ensures OutputOf(rate, maxResidual, offset, r1, sats) == OutputOf(rate, maxResidual, offset, r2, sats)
  {
    forall i | 0 <= i < |sats|
      ensures OutFn(rate, maxResidual, offset, r1)(sats[i]) == OutFn(rate, maxResidual, offset, r2)(sats[i])
    {
      assert sats[i] in sats;
    }
    FilterMapSame(OutFn(rate, maxResidual, offset, r1), OutFn(rate, maxResidual, offset, r2), sats, sats);
  }

  lemma ValuesShift(sats: seq<Sat>, c: real)
    ensures Values(ShiftSats(sats, c)) == Shift(Values(sats), c)
  {
  }

  lemma SortedRatesMove(rate: Sat -> Option<real>, rate': Sat -> Option<real>, sats: seq<Sat>, c: real, d: real)
    requires RatesMove(rate, rate', sats, c, d)
    ensures RatesMove(rate, rate', SortSats(sats), c, d)
  {
    SortSatsMembers(sats);
  }

  lemma EmitWithShift(rate: Sat -> Option<real>, rate': Sat -> Option<real>, maxResidual: real, vs: seq<real>,
                      rates: seq<real>, sorted: seq<Sat>, c: real, d: real)
    requires vs != [] && RatesMove(rate, rate', sorted, c, d)
    requires rates == [] ==> forall s :: s in ShiftSats(sorted, c) ==> rate'(s) == None
    ensures EmitWith(rate', maxResidual, Shift(vs, c), Shift(rates, d), ShiftSats(sorted, c)) ==
            EmitWith(rate, maxResidual, vs, rates, sorted)
  {
    MedianShift(vs, c);
    EmitWithAt(rate, maxResidual, vs, rates, sorted, Median(vs));
    EmitWithAt(rate', maxResidual, Shift(vs, c), Shift(rates, d), ShiftSats(sorted, c), Median(vs) + c);
    EmitWithShiftAt(rate, rate', maxResidual, Median(vs), rates, sorted, c, d);
  }

  /** The rate offset of an epoch. */
  function OffsetOf(rate: Sat -> Option<real>, sats: seq<Sat>): real
  {
    RateOffset(FilterMap(rate, sats))
  }

  /** What an epoch's output is drawn from: the median and the satellites in PRN order. */
  predicate DrawnFrom(sats: seq<Sat>, offset: real, sorted: seq<Sat>)
  {
    sats != [] && offset == Median(Values(sats)) && sorted == SortSats(sats)
  }

  lemma EmitIs(rate: Sat -> Option<real>, maxResidual: real, sats: seq<Sat>, offset: real, sorted: seq<Sat>)
    requires DrawnFrom(sats, offset, sorted)
    ensures Emit(rate, maxResidual, sats) ==
            OutputOf(rate, maxResidual, offset, OffsetOf(rate, sats), sorted)
  {
    EmitWithAt(rate, maxResidual, Values(sats), FilterMap(rate, sats), sorted, offset);
  }

  lemma EmitWithShiftAt(rate: Sat -> Option<real>, rate': Sat -> Option<real>, maxResidual: real, offset: real,
                        rates: seq<real>, sorted: seq<Sat>, c: real, d: real)
    requires RatesMove(rate, rate', sorted, c, d)
    requires rates == [] ==> forall s :: s in ShiftSats(sorted, c) ==> rate'(s) == None
    ensures OutputOf(rate', maxResidual, offset + c, RateOffset(Shift(rates, d)), ShiftSats(sorted, c)) ==
            OutputOf(rate, maxResidual, offset, RateOffset(rates), sorted)
  {
    var moved, middle := ShiftSats(sorted, c), RateOffset(rates);
    ShiftedRateOffset(rate', maxResidual, offset + c, rates, d, moved);
    OutsShift(rate, rate', maxResidual, offset, middle, sorted, c, d);
  }

  /** The rate offset moves by d too, or is not used. */
  lemma ShiftedRateOffset(rate: Sat -> Option<real>, maxResidual: real, offset: real, rates: seq<real>, d: real, sats: seq<Sat>)
    requires rates == [] ==> forall s :: s in sats ==> rate(s) == None
    ensures OutputOf(rate, maxResidual, offset, RateOffset(Shift(rates, d)), sats) ==
            OutputOf(rate, maxResidual, offset, RateOffset(rates) + d, sats)
  {
    if rates == [] {
      OutsUnrated(rate, maxResidual, offset, 0.0, d, sats);
    } else {
      MedianShift(rates, d);
    }
  }

  lemma UnratedSorted(rate: Sat -> Option<real>, sats: seq<Sat>, c: real)
    requires FilterMap(rate, ShiftSats(sats, c)) == []
    ensures forall s :: s in ShiftSats(SortSats(sats), c) ==> rate(s) == None
  {
    FilterMapEmpty(rate, ShiftSats(sats, c));
    SortSatsMembers(sats);
    ShiftedMembers(sats, SortSats(sats), c);
  }

  /** One epoch: a common offset c, with every rate moved by d, changes nothing at all. */
  lemma EmitShift(rate: Sat -> Option<real>, rate': Sat -> Option<real>, maxResidual: real, sats: seq<Sat>, c: real, d: real)
    requires RatesMove(rate, rate', sats, c, d)
    ensures Emit(rate', maxResidual, ShiftSats(sats, c)) == Emit(rate, maxResidual, sats)
  {
    if sats == [] { return; }
    var rates := FilterMap(rate, sats);
    ValuesShift(sats, c);
    SortSatsShift(sats, c);
    SortedRatesMove(rate, rate', sats, c, d);
    RatesShift(rate, rate', sats, c, d);
    if rates == [] { UnratedSorted(rate', sats, c); }
    EmitWithShift(rate, rate', maxResidual, Values(sats), rates, SortSats(sats), c, d);
  }

  lemma ShiftedMembers(a: seq<Sat>, b: seq<Sat>, c: real)
    requires forall t :: t in b ==> t in a
    ensures forall t :: t in ShiftSats(b, c) ==> t in ShiftSats(a, c)
  {
    forall t | t in ShiftSats(b, c) ensures t in ShiftSats(a, c) {
      var i :| 0 <= i < |b| && ShiftSats(b, c)[i] == t;
      assert b[i] in a;
      var j :| 0 <= j < |a| && a[j] == b[i];
      assert ShiftSats(a, c)[j] == t;
    }
  }

  // ------------------------------------------------------------------ whole runs

  lemma ShiftedRunPrefix(epochs: seq<Epoch>, cs: seq<real>, k: nat)
    requires |cs| == |epochs| && k <= |epochs|
    ensures ShiftRun(epochs, cs)[..k] == ShiftRun(epochs[..k], cs[..k])
  {
  }

  lemma ShiftOnePerPrn(sats: seq<Sat>, c: real)
    requires OnePerPrn(sats)
    ensures OnePerPrn(ShiftSats(sats, c))
  {
    var r := ShiftSats(sats, c);
    forall t | t in r ensures Moved(t, -c) in sats && t == Moved(Moved(t, -c), c) {
      var i :| 0 <= i < |sats| && r[i] == t;
      assert sats[i] == Moved(t, -c);
    }
    forall t, u | t in r && u in r && t.prn == u.prn ensures t == u {
      assert Moved(t, -c) in sats && Moved(u, -c) in sats;
    }
  }

  lemma ShiftedRunValid(epochs: seq<Epoch>, cs: seq<real>)
    requires |cs| == |epochs| && ValidRun(epochs)
    ensures ValidRun(ShiftRun(epochs, cs))
  {
    var r := ShiftRun(epochs, cs);
    forall i | 0 <= i < |epochs| ensures OnePerPrn(r[i].sats) {
      assert epochs[i] in epochs;
      ShiftOnePerPrn(epochs[i].sats, cs[i]);
    }
  }

  lemma {:induction false} ShiftedFind(sats: seq<Sat>, c: real, prn: int)
    ensures Find(ShiftSats(sats, c), prn) == PlusRate(Find(sats, prn), c)
  {
    if sats != [] {
      var n := |sats| - 1;
      ShiftedFind(sats[..n], c, prn);
      assert ShiftSats(sats, c)[..n] == ShiftSats(sats[..n], c);
    }
  }

  /** In a shifted run each satellite's last sample is moved by that epoch's offset. */
  lemma {:induction false} ShiftedLast(epochs: seq<Epoch>, cs: seq<real>, prn: int)
    requires |cs| == |epochs|
    ensures Last(ShiftRun(epochs, cs), prn) ==
            match Last(epochs, prn) case None => None case Some((j, v)) => Some((j, v + cs[j]))
    decreases |epochs|
  {
    if epochs != [] {
      var n := |epochs| - 1;
      ShiftedFind(epochs[n].sats, cs[n], prn);
      ShiftedLast(epochs[..n], cs[..n], prn);
      ShiftedRunPrefix(epochs, cs, n);
    }
  }

  /** How much a satellite's rate moves at epoch k when the epochs are offset by cs; None when the
      satellite has no usable earlier sample, or one with the same tow. */
  function RateMove(epochs: seq<Epoch>, cs: seq<real>, k: nat, prn: int): Option<real>
    requires |cs| == |epochs| && k < |epochs|
  {
    match Last(epochs[..k], prn)
    case None => None
    case Some((j, _)) =>
      if epochs[k].tow == epochs[j].tow then None
      else Some((cs[k] - cs[j]) / (epochs[k].tow - epochs[j].tow))
  }

  lemma DivSum(a: real, b: real, d: real)
    requires d != 0.0
    ensures (a + b) / d == a / d + b / d
  {
  }

  lemma RateFromMoved(t: real, v: real, tow: real, value: real, c: real, cj: real)
    requires tow != t
    ensures RateFrom(Some((t, v + cj)), tow, value + c) ==
            PlusRate(RateFrom(Some((t, v)), tow, value), (c - cj) / (tow - t))
  {
    DivSum(value - v, c - cj, tow - t);
    assert value + c - (v + cj) == (value - v) + (c - cj);
  }

  lemma ShiftedSample(epochs: seq<Epoch>, cs: seq<real>, k: nat, prn: int)
    requires |cs| == |epochs| && k < |epochs|
    ensures LastSample(ShiftRun(epochs, cs)[..k], prn) ==
            match Last(epochs[..k], prn) case None => None case Some((j, v)) => Some((epochs[j].tow, v + cs[j]))
  {
    ShiftedRunPrefix(epochs, cs, k);
    ShiftedLast(epochs[..k], cs[..k], prn);
  }

  /** Every satellite's rate moves by RateMove; one without a move has no rate in either run. */
  lemma RateMoves(epochs: seq<Epoch>, cs: seq<real>, k: nat, prn: int, value: real)
    requires |cs| == |epochs| && k < |epochs|
    ensures var rate := RateFrom(LastSample(epochs[..k], prn), epochs[k].tow, value);
            var rate' := RateFrom(LastSample(ShiftRun(epochs, cs)[..k], prn), epochs[k].tow, value + cs[k]);
            match RateMove(epochs, cs, k, prn)
            case None => rate == None && rate' == None
            case Some(d) => rate.Some? && rate' == PlusRate(rate, d)
  {
    ShiftedSample(epochs, cs, k, prn);
    match Last(epochs[..k], prn)
    case None =>
    case Some((j, v)) =>
      if epochs[k].tow != epochs[j].tow {
        RateFromMoved(epochs[j].tow, v, epochs[k].tow, value, cs[k], cs[j]);
      }
  }

  /** The rates at epoch k in terms of the run alone. */
  function RunRate(epochs: seq<Epoch>, k: nat): Sat -> Option<real>
    requires k < |epochs|
  {
    (s: Sat) => RateFrom(LastSample(epochs[..k], s.prn), epochs[k].tow, s.value)
  }

  lemma {:induction false} RatesSame(f: Sat -> Option<real>, g: Sat -> Option<real>, maxResidual: real, sats: seq<Sat>)
    requires forall s :: s in sats ==> f(s) == g(s)
    ensures Emit(f, maxResidual, sats) == Emit(g, maxResidual, sats)
  {
    var sorted := SortSats(sats);
    SortSatsMembers(sats);
    forall i | 0 <= i < |sats| ensures f(sats[i]) == g(sats[i]) { assert sats[i] in sats; }
    FilterMapSame(f, g, sats, sats);
    if sats != [] {
      var m, o := Median(Values(sats)), RateOffset(FilterMap(f, sats));
      forall i | 0 <= i < |sorted| ensures OutFn(f, maxResidual, m, o)(sorted[i]) == OutFn(g, maxResidual, m, o)(sorted[i]) {
        assert sorted[i] in sorted;
      }
      FilterMapSame(OutFn(f, maxResidual, m, o), OutFn(g, maxResidual, m, o), sorted, sorted);
    }
  }

  /** What is emitted depends on the run only through each satellite's own last sample. */
  lemma OutAtIs(maxResidual: real, epochs: seq<Epoch>, k: nat)
    requires ValidRun(epochs) && k < |epochs|
    ensures OutAt(maxResidual, epochs, k) == Emit(RunRate(epochs, k), maxResidual, epochs[k].sats)
  {
    var f := RateFn(PrevAfter(epochs[..k]), epochs[k].tow);
    PrefixValid(epochs, k);
    forall s | s in epochs[k].sats ensures f(s) == RunRate(epochs, k)(s) {
      HistoryIsLastSample(epochs[..k], s.prn);
    }
    RatesSame(f, RunRate(epochs, k), maxResidual, epochs[k].sats);
  }

  lemma RunRatesMove(epochs: seq<Epoch>, cs: seq<real>, k: nat, d: real)
    requires |cs| == |epochs| && k < |epochs|
    requires forall s :: s in epochs[k].sats && RateMove(epochs, cs, k, s.prn).Some?
                         ==> RateMove(epochs, cs, k, s.prn) == Some(d)
    ensures RatesMove(RunRate(epochs, k), RunRate(ShiftRun(epochs, cs), k), epochs[k].sats, cs[k], d)
  {
    forall s | s in epochs[k].sats
      ensures RunRate(ShiftRun(epochs, cs), k)(Moved(s, cs[k])) == PlusRate(RunRate(epochs, k)(s), d)
    {
      RunRateMoves(epochs, cs, k, d, s);
    }
  }

  lemma RunRateMoves(epochs: seq<Epoch>, cs: seq<real>, k: nat, d: real, s: Sat)
    requires |cs| == |epochs| && k < |epochs|
    requires RateMove(epochs, cs, k, s.prn).Some? ==> RateMove(epochs, cs, k, s.prn) == Some(d)
    ensures RunRate(ShiftRun(epochs, cs), k)(Moved(s, cs[k])) == PlusRate(RunRate(epochs, k)(s), d)
  {
    RateMoves(epochs, cs, k, s.prn, s.value);
  }

  /** Main result: an epoch is emitted unchanged, RRCs included, when the offsets move all of its
      rated satellites' rates by the same amount. */
  lemma EmissionUnchanged(maxResidual: real, epochs: seq<Epoch>, cs: seq<real>, k: nat, d: real)
    requires |cs| == |epochs| && ValidRun(epochs) && k < |epochs|
    requires forall s :: s in epochs[k].sats && RateMove(epochs, cs, k, s.prn).Some?
                         ==> RateMove(epochs, cs, k, s.prn) == Some(d)
    ensures OutAt(maxResidual, ShiftRun(epochs, cs), k) == OutAt(maxResidual, epochs, k)
  {
    RunRatesMove(epochs, cs, k, d);
    EmitShift(RunRate(epochs, k), RunRate(ShiftRun(epochs, cs), k), maxResidual, epochs[k].sats, cs[k], d);
    ShiftedRunValid(epochs, cs);
    OutAtIs(maxResidual, epochs, k);
    OutAtIs(maxResidual, ShiftRun(epochs, cs), k);
  }

  /** The offsets a clock with constant drift adds. */
  function Drift(epochs: seq<Epoch>, b0: real, b1: real): (cs: seq<real>)
    ensures |cs| == |epochs| && forall i :: 0 <= i < |epochs| ==> cs[i] == b0 + b1 * epochs[i].tow
  {
    seq(|epochs|, i requires 0 <= i < |epochs| => b0 + b1 * epochs[i].tow)
  }

  lemma DriftRate(b0: real, b1: real, t: real, u: real, ct: real, cu: real)
    requires t != u && ct == b0 + b1 * t && cu == b0 + b1 * u
    ensures (ct - cu) / (t - u) == b1
  {
    var dt := t - u;
    assert ct - cu == b1 * dt;
    assert b1 * dt / dt == b1;
  }

  lemma DriftMove(epochs: seq<Epoch>, b0: real, b1: real, k: nat, prn: int)
    requires k < |epochs|
    ensures RateMove(epochs, Drift(epochs, b0, b1), k, prn).Some? ==>
              RateMove(epochs, Drift(epochs, b0, b1), k, prn) == Some(b1)
  {
    match Last(epochs[..k], prn)
    case None =>
    case Some((j, _)) =>
      if epochs[k].tow != epochs[j].tow {
        var cs := Drift(epochs, b0, b1);
        DriftRate(b0, b1, epochs[k].tow, epochs[j].tow, cs[k], cs[j]);
      }
  }

  /** Main result: a base clock with any bias and drift, in terms of the broadcast tow, changes no
      output of any run: satellites come and go, skip epochs, and tow may repeat or wrap. */
  lemma ClockDriftInvariance(maxResidual: real, epochs: seq<Epoch>, b0: real, b1: real)
    requires ValidRun(epochs)
    ensures Outputs(maxResidual, ShiftRun(epochs, Drift(epochs, b0, b1))) == Outputs(maxResidual, epochs)
  {
    var cs := Drift(epochs, b0, b1);
    forall k | 0 <= k < |epochs|
      ensures OutAt(maxResidual, ShiftRun(epochs, cs), k) == OutAt(maxResidual, epochs, k)
    {
      forall s | s in epochs[k].sats { DriftMove(epochs, b0, b1, k, s.prn); }
      EmissionUnchanged(maxResidual, epochs, cs, k, b1);
    }
  }

  /** With arbitrary offsets, an epoch whose rated satellites share their previous epoch is
      still emitted unchanged. */
  lemma SharedPreviousEpoch(maxResidual: real, epochs: seq<Epoch>, cs: seq<real>, k: nat, j: int)
    requires |cs| == |epochs| && ValidRun(epochs) && k < |epochs|
    requires forall s :: s in epochs[k].sats && RateMove(epochs, cs, k, s.prn).Some?
                         ==> Last(epochs[..k], s.prn).value.0 == j
    ensures OutAt(maxResidual, ShiftRun(epochs, cs), k) == OutAt(maxResidual, epochs, k)
  {
    var d := if 0 <= j < k && epochs[k].tow != epochs[j].tow
             then (cs[k] - cs[j]) / (epochs[k].tow - epochs[j].tow) else 0.0;
    EmissionUnchanged(maxResidual, epochs, cs, k, d);
  }

  /** Everything but the RRC. */
  function WithoutRrc(cs: seq<Correction>): (r: seq<Correction>)
    ensures |r| == |cs| && forall i :: 0 <= i < |cs| ==> r[i] == cs[i].(rrc := 0.0)
  {
    seq(|cs|, i requires 0 <= i < |cs| => cs[i].(rrc := 0.0))
  }

  lemma OutOfShiftPrc(r: Option<real>, r': Option<real>, maxResidual: real, offset: real, r1: real, r2: real, s: Sat, c: real)
    ensures var a := OutOf(r, maxResidual, offset, r1, s);
            var b := OutOf(r', maxResidual, offset + c, r2, Moved(s, c));
            a.Some? == b.Some? && (a.Some? ==> a.value.(rrc := 0.0) == b.value.(rrc := 0.0))
  {
  }

  lemma {:induction false} FilterMapSimilar(f: Sat -> Option<Correction>, g: Sat -> Option<Correction>, s: seq<Sat>, t: seq<Sat>)
    requires |s| == |t|
    requires forall i :: 0 <= i < |s| ==> f(s[i]).Some? == g(t[i]).Some?
    requires forall i :: 0 <= i < |s| && f(s[i]).Some? ==> f(s[i]).value.(rrc := 0.0) == g(t[i]).value.(rrc := 0.0)
    ensures WithoutRrc(FilterMap(f, s)) == WithoutRrc(FilterMap(g, t))
  {
    if s != [] {
      var n := |s| - 1;
      FilterMapSimilar(f, g, s[..n], t[..n]);
      if f(s[n]).Some? {
        WithoutRrcSnoc(FilterMap(f, s[..n]), f(s[n]).value);
        WithoutRrcSnoc(FilterMap(g, t[..n]), g(t[n]).value);
      }
    }
  }

  lemma WithoutRrcSnoc(cs: seq<Correction>, c: Correction)
    ensures WithoutRrc(cs + [c]) == WithoutRrc(cs) + [c.(rrc := 0.0)]
  {
  }

  lemma OutsShiftPrc(rate: Sat -> Option<real>, rate': Sat -> Option<real>, maxResidual: real,
                     offset: real, r1: real, r2: real, sats: seq<Sat>, c: real)
    ensures WithoutRrc(OutputOf(rate', maxResidual, offset + c, r2, ShiftSats(sats, c))) ==
            WithoutRrc(OutputOf(rate, maxResidual, offset, r1, sats))
  {
    var t := ShiftSats(sats, c);
    forall i | 0 <= i < |sats| {
      OutOfShiftPrc(rate(sats[i]), rate'(t[i]), maxResidual, offset, r1, r2, sats[i], c);
    }
    FilterMapSimilar(OutFn(rate', maxResidual, offset + c, r2), OutFn(rate, maxResidual, offset, r1), t, sats);
  }

  lemma EmitWithShiftPrc(rate: Sat -> Option<real>, rate': Sat -> Option<real>, maxResidual: real, vs: seq<real>,
                         rates: seq<real>, rates': seq<real>, sorted: seq<Sat>, c: real)
    requires vs != []
    ensures WithoutRrc(EmitWith(rate', maxResidual, Shift(vs, c), rates', ShiftSats(sorted, c))) ==
            WithoutRrc(EmitWith(rate, maxResidual, vs, rates, sorted))
  {
    MedianShift(vs, c);
    var offset, moved := Median(vs), ShiftSats(sorted, c);
    EmitWithAt(rate, maxResidual, vs, rates, sorted, offset);
    EmitWithAt(rate', maxResidual, Shift(vs, c), rates', moved, offset + c);
    OutsShiftPrc(rate, rate', maxResidual, offset, RateOffset(rates), RateOffset(rates'), sorted, c);
  }

  /** Main result: for an arbitrary offset at every epoch, every PRC, UDRE, IOD and drop decision of
      every epoch is unchanged. */
  lemma OffsetInvariance(maxResidual: real, epochs: seq<Epoch>, cs: seq<real>, k: nat)
    requires |cs| == |epochs| && k < |epochs|
    ensures WithoutRrc(OutAt(maxResidual, ShiftRun(epochs, cs), k)) == WithoutRrc(OutAt(maxResidual, epochs, k))
  {
    var sats, tow, c := epochs[k].sats, epochs[k].tow, cs[k];
    if sats != [] {
      var rate := RateFn(PrevAfter(epochs[..k]), tow);
      var rate' := RateFn(PrevAfter(ShiftRun(epochs, cs)[..k]), tow);
      SortSatsShift(sats, c);
      ValuesShift(sats, c);
      EmitWithShiftPrc(rate, rate', maxResidual, Values(sats), FilterMap(rate, sats),
                       FilterMap(rate', ShiftSats(sats, c)), SortSats(sats), c);
    }
  }

  // ------------------------------------------------------------------ robustness

  /** A satellite is emitted exactly when it is within the limit of the median, with that PRC. */
  lemma EmittedIffNearMedian(rate: Sat -> Option<real>, maxResidual: real, sats: seq<Sat>, s: Sat)
    requires s in sats
    ensures var prc := s.value - Median(Values(sats));
            Abs(prc) <= maxResidual <==>
            exists c :: c in Emit(rate, maxResidual, sats) && c.prn == s.prn && c.prc == prc && c.iod == s.iod
  {
    var offset := Median(Values(sats));
    var out := OutFn(rate, maxResidual, offset, RateOffset(FilterMap(rate, sats)));
    SortSatsMembers(sats);
    FilterMapMembers(out, SortSats(sats));
    if Abs(s.value - offset) <= maxResidual {
      assert out(s).value in Emit(rate, maxResidual, sats);
    }
  }

  /** Main result: when strictly more than half of an epoch's values lie in an interval no wider
      than the limit, each satellite of that interval is emitted with a PRC of at most its width. */
  lemma MajorityIsKept(rate: Sat -> Option<real>, maxResidual: real, sats: seq<Sat>, lo: real, hi: real, s: Sat)
    requires 2 * CountIn(Values(sats), lo, hi) > |sats| && hi - lo <= maxResidual
    requires s in sats && lo <= s.value <= hi
    ensures exists c :: c in Emit(rate, maxResidual, sats) && c.prn == s.prn && Abs(c.prc) <= hi - lo
  {
    MedianBreakdown(Values(sats), lo, hi);
    EmittedIffNearMedian(rate, maxResidual, sats, s);
  }

  /** Main result: exactly when an epoch with usable satellites emits nothing. The gap is zero for an
      odd count, so with a limit of at least zero only an even count can come out empty. */
  lemma EmptyIffMiddleApart(rate: Sat -> Option<real>, maxResidual: real, sats: seq<Sat>)
    requires sats != []
    ensures Emit(rate, maxResidual, sats) == [] <==> MiddleGap(Values(sats)) > maxResidual
    ensures |sats| % 2 == 1 ==> MiddleGap(Values(sats)) == 0.0
  {
    var vs := Values(sats);
    NearestToMedian(vs);
    if MiddleGap(vs) <= maxResidual {
      var i :| 0 <= i < |vs| && Abs(vs[i] - Median(vs)) == MiddleGap(vs);
      EmittedIffNearMedian(rate, maxResidual, sats, sats[i]);
    } else {
      SortSatsMembers(sats);
      forall s | s in sats ensures Abs(s.value - Median(vs)) > maxResidual {
        var i :| 0 <= i < |sats| && sats[i] == s;
        assert vs[i] == s.value;
      }
      FilterMapEmpty(OutFn(rate, maxResidual, Median(vs), RateOffset(FilterMap(rate, sats))), SortSats(sats));
    }
  }

  ghost predicate PrnOrder(out: seq<Correction>)
  {
    forall i, j :: 0 <= i < j < |out| ==> out[i].prn <= out[j].prn
  }

  lemma {:induction false} OutsAscending(f: Sat -> Option<Correction>, sats: seq<Sat>)
    requires Ascending(sats) && forall s <- sats :: f(s).Some? ==> f(s).value.prn == s.prn
    ensures PrnOrder(FilterMap(f, sats))
  {
    if sats != [] {
      var n := |sats| - 1;
      var a := FilterMap(f, sats[..n]);
      assert sats == sats[..n] + [sats[n]];
      OutsAscending(f, sats[..n]);
      if f(sats[n]).Some? {
        FilterMapMembers(f, sats[..n]);
        forall i | 0 <= i < |a| ensures a[i].prn <= sats[n].prn { assert a[i] in a; }
      }
    }
  }

  /** Corrections come out in PRN order. */
  lemma EmittedInPrnOrder(rate: Sat -> Option<real>, maxResidual: real, sats: seq<Sat>)
    ensures PrnOrder(Emit(rate, maxResidual, sats))
  {
    if sats != [] {
      SortSatsAscending(sats);
      OutsAscending(OutFn(rate, maxResidual, Median(Values(sats)), RateOffset(FilterMap(rate, sats))), SortSats(sats));
    }
  }
}
