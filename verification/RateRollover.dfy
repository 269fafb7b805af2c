/** What the plain difference of times of week does to the emitted range rates at a rollover. */
module RateRollover {
  import opened Basics
  import opened Statistics
  import opened Rtcm2
  import opened Dgps
  import opened DgpsRuns

  /** The rate over the rollover-corrected interval. */
  function WeekRateFrom(sample: Option<(real, real)>, tow: real, value: real): Option<real>
  {
    match sample
    case None => None
    case Some((t, v)) => if DeltaTWeek(tow, t) != 0.0 then Some((value - v) / DeltaTWeek(tow, t)) else None
  }

  function WeekRateFn(prev: History, tow: real): Sat -> Option<real>
  {
    (s: Sat) => WeekRateFrom(Sample(prev, s.prn), tow, s.value)
  }

  /** How the plain interval stretches a rate: corrected interval over plain interval. */
  function Stretch(tow: real, t: real): real
    requires tow != t
  {
    DeltaTWeek(tow, t) / (tow - t)
  }

  function Stretched(r: Option<real>, q: real): Option<real>
  {
    match r case None => None case Some(x) => Some(q * x)
  }

  /** The same correction with its RRC stretched. */
  function StretchOne(c: Correction, q: real): Correction { c.(rrc := q * c.rrc) }

  function StretchRrc(cs: seq<Correction>, q: real): (r: seq<Correction>)
    ensures |r| == |cs| && forall i :: 0 <= i < |cs| ==> r[i] == StretchOne(cs[i], q)
  {
    seq(|cs|, i requires 0 <= i < |cs| => StretchOne(cs[i], q))
  }

  /** Every satellite's rate is the other one, stretched. */
  ghost predicate RatesStretch(rate: Sat -> Option<real>, plain: Sat -> Option<real>, sats: seq<Sat>, q: real)
  {
    forall s :: s in sats ==> plain(s) == Stretched(rate(s), q)
  }

  lemma {:induction false} RatesScale(rate: Sat -> Option<real>, plain: Sat -> Option<real>, sats: seq<Sat>, q: real)
    requires RatesStretch(rate, plain, sats, q)
    ensures FilterMap(plain, sats) == Scale(FilterMap(rate, sats), q)
  {
    if sats != [] {
      var n := |sats| - 1;
      assert sats[n] in sats && plain(sats[n]) == Stretched(rate(sats[n]), q);
      RatesScale(rate, plain, sats[..n], q);
      if rate(sats[n]).Some? {
        ScaleSnoc(FilterMap(rate, sats[..n]), rate(sats[n]).value, plain(sats[n]).value, q);
      }
    }
  }

  lemma ScaleSnoc(s: seq<real>, x: real, y: real, q: real)
    requires y == q * x
    ensures Scale(s + [x], q) == Scale(s, q) + [y]
  {
    MappedSnoc(Times(q), s, x);
    assert Times(q)(x) == y;
  }

  lemma MappedSnoc(f: real -> real, s: seq<real>, x: real)
    ensures Mapped(f, s + [x]) == Mapped(f, s) + [f(x)]
  {
  }

  lemma RateOffsetScales(rates: seq<real>, q: real)
    requires q != 0.0
    ensures RateOffset(Scale(rates, q)) == q * RateOffset(rates)
  {
    if rates != [] { MedianScale(rates, q); }
  }

  lemma Product(q: real, x: real, y: real)
    ensures q * x - q * y == q * (x - y) && q * 0.0 == 0.0
  {
  }

  lemma OutOfStretch(r: Option<real>, maxResidual: real, offset: real, rateOffset: real, other: real, s: Sat, q: real)
    requires other == Times(q)(rateOffset)
    ensures OutOf(Stretched(r, q), maxResidual, offset, other, s) ==
            match OutOf(r, maxResidual, offset, rateOffset, s)
            case None => None
            case Some(c) => Some(StretchOne(c, q))
  {
    var out := OutOf(r, maxResidual, offset, rateOffset, s);
    if out.Some? {
      match r
      case None =>
        assert out.value.rrc == 0.0 && StretchOne(out.value, q).rrc == 0.0;
      case Some(x) =>
        Product(q, x, rateOffset);
        var plain := OutOf(Stretched(r, q), maxResidual, offset, other, s);
        assert plain.value.rrc == q * x - q * rateOffset && out.value.rrc == x - rateOffset;
        assert plain.value == StretchOne(out.value, q);
    }
  }

  lemma StretchSnoc(cs: seq<Correction>, c: Correction, q: real)
    ensures StretchRrc(cs + [c], q) == StretchRrc(cs, q) + [StretchOne(c, q)]
  {
  }

  lemma {:induction false} OutsStretch(rate: Sat -> Option<real>, plain: Sat -> Option<real>, maxResidual: real,
                                       offset: real, rateOffset: real, other: real, sats: seq<Sat>, q: real)
    requires RatesStretch(rate, plain, sats, q) && other == Times(q)(rateOffset)
    ensures OutputOf(plain, maxResidual, offset, other, sats) ==
            StretchRrc(OutputOf(rate, maxResidual, offset, rateOffset, sats), q)
  {
    if sats != [] {
      var n := |sats| - 1;
      var s := sats[n];
      assert s in sats && plain(s) == Stretched(rate(s), q);
      OutsStretch(rate, plain, maxResidual, offset, rateOffset, other, sats[..n], q);
      OutOfStretch(rate(s), maxResidual, offset, rateOffset, other, s, q);
      var out := OutOf(rate(s), maxResidual, offset, rateOffset, s);
      if out.Some? {
        StretchSnoc(FilterMap(OutFn(rate, maxResidual, offset, rateOffset), sats[..n]), out.value, q);
      }
    }
  }

  /** Rates that are all stretched alike give the same corrections with stretched RRCs. */
  lemma EmitStretch(rate: Sat -> Option<real>, plain: Sat -> Option<real>, maxResidual: real, sats: seq<Sat>, q: real)
    requires RatesStretch(rate, plain, sats, q) && q != 0.0
    ensures Emit(plain, maxResidual, sats) == StretchRrc(Emit(rate, maxResidual, sats), q)
  {
    if sats != [] {
      var offset, sorted := Median(Values(sats)), SortSats(sats);
      EmitIs(rate, maxResidual, sats, offset, sorted);
      EmitIs(plain, maxResidual, sats, offset, sorted);
      OffsetStretches(rate, plain, sats, q);
      SortSatsMembers(sats);
      OutsStretch(rate, plain, maxResidual, offset, OffsetOf(rate, sats), OffsetOf(plain, sats), sorted, q);
    }
  }

  lemma OffsetStretches(rate: Sat -> Option<real>, plain: Sat -> Option<real>, sats: seq<Sat>, q: real)
    requires RatesStretch(rate, plain, sats, q) && q != 0.0
    ensures OffsetOf(plain, sats) == Times(q)(OffsetOf(rate, sats))
  {
    RatesScale(rate, plain, sats, q);
    ScaledOffset(FilterMap(rate, sats), FilterMap(plain, sats), q);
  }

  lemma ScaledOffset(rates: seq<real>, others: seq<real>, q: real)
    requires q != 0.0 && others == Scale(rates, q)
    ensures RateOffset(others) == Times(q)(RateOffset(rates))
  {
    RateOffsetScales(rates, q);
  }

  lemma StretchFacts(t: real, tow: real)
    requires 0.0 <= t < WEEK && 0.0 <= tow < WEEK && tow != t
    ensures DeltaTWeek(tow, t) != 0.0 && Stretch(tow, t) != 0.0
    ensures Stretch(tow, t) == 1.0 <==> Abs(tow - t) <= HALF_WEEK
    ensures Stretch(tow, t) < 0.0 <==> Abs(tow - t) > HALF_WEEK
  {
    var d, a := DeltaTWeek(tow, t), tow - t;
    var q := Stretch(tow, t);
    assert q * a == d;
    SignOf(q, a, d);
  }

  lemma SignOf(q: real, a: real, d: real)
    requires q * a == d && a != 0.0 && d != 0.0
    ensures q != 0.0 && (q < 0.0 <==> (a > 0.0) != (d > 0.0)) && (q == 1.0 <==> a == d)
  {
    assert (q > 0.0 && a > 0.0) || (q < 0.0 && a < 0.0) ==> q * a > 0.0;
    assert (q > 0.0 && a < 0.0) || (q < 0.0 && a > 0.0) ==> q * a < 0.0;
    assert (q - 1.0) * a == d - a;
  }

  lemma OneRate(t: real, v: real, tow: real, value: real)
    requires tow != t && DeltaTWeek(tow, t) != 0.0
    ensures RateFrom(Some((t, v)), tow, value) == Stretched(WeekRateFrom(Some((t, v)), tow, value), Stretch(tow, t))
  {
    Quotients(value - v, DeltaTWeek(tow, t), tow - t);
    var week, plain := WeekRateFrom(Some((t, v)), tow, value), RateFrom(Some((t, v)), tow, value);
    var stretched := Stretched(week, Stretch(tow, t));
    assert plain.Some? && stretched.Some? && plain.value == stretched.value;
  }

  lemma Quotients(n: real, d: real, a: real)
    requires d != 0.0 && a != 0.0
    ensures n / a == d / a * (n / d)
  {
    var u, w := n / d, d / a;
    assert u * d == n && w * a == d;
    Regroup(u, w, a);
    Divided(w * u, a, n);
  }

  lemma Regroup(u: real, w: real, a: real)
    ensures u * (w * a) == w * u * a
  {
  }

  lemma Divided(z: real, a: real, n: real)
    requires a != 0.0 && z * a == n
    ensures n / a == z
  {
    var e := n / a - z;
    assert n / a * a == n;
    assert e * a == 0.0;
    assert e != 0.0 ==> e * a != 0.0;
  }

  /** Main result: in an epoch whose rated satellites share a previous time, every RRC sent is the
      week-corrected one times the stretch of the interval. Within half a week that is 1; across a
      rollover it is negative, so every RRC has the wrong sign. */
  lemma RolloverStretchesRrc(prev: History, t: real, tow: real, maxResidual: real, sats: seq<Sat>)
    requires 0.0 <= t < WEEK && 0.0 <= tow < WEEK && tow != t
    requires forall s :: s in sats && s.prn in prev ==> prev[s.prn].0 == t
    ensures Emit(RateFn(prev, tow), maxResidual, sats) ==
            StretchRrc(Emit(WeekRateFn(prev, tow), maxResidual, sats), Stretch(tow, t))
    ensures Stretch(tow, t) == 1.0 <==> Abs(tow - t) <= HALF_WEEK
    ensures Stretch(tow, t) < 0.0 <==> Abs(tow - t) > HALF_WEEK
  {
    StretchFacts(t, tow);
    forall s | s in sats ensures RateFn(prev, tow)(s) == Stretched(WeekRateFn(prev, tow)(s), Stretch(tow, t)) {
      if s.prn in prev { OneRate(t, prev[s.prn].1, tow, s.value); }
    }
    EmitStretch(WeekRateFn(prev, tow), RateFn(prev, tow), maxResidual, sats, Stretch(tow, t));
  }
}
