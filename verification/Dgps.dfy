/** Per-satellite corrections with the common clock term removed (dgps.py, DgpsGenerator). */
module Dgps {
  import opened Basics
  import opened Statistics
  import opened Rtcm2

  const SPEED_OF_LIGHT := 299792458.0
  const HALF_WEEK := 302400.0
  const WEEK := 604800.0

  /** The fields the gates read; the orbit and clock parameters stay together. */
  datatype Ephemeris = Ephemeris(prn: int, toe: real, iode: int, health: int, orbit: seq<real>)

  /** raw_correction: geometric range minus pseudorange minus satellite clock, in metres. */
  type RawModel = (Ephemeris, Ecef, real, real) -> real

  /** One satellite that passed the gates: its raw correction and the ephemeris issue used. */
  datatype Sat = Sat(prn: int, value: real, iod: int)

  type History = map<int, (real, real)>  // prn -> (tow, raw correction)

  /** Time from a week reference, corrected for one rollover. */
  function DeltaTWeek(t: real, ref: real): real
  {
    var dt := t - ref;
    if dt > HALF_WEEK then dt - WEEK else if dt < -HALF_WEEK then dt + WEEK else dt
  }

  function UdreIndex(prc: real): int
  {
    if Abs(prc) <= 1.0 then 0 else if Abs(prc) <= 4.0 then 1 else if Abs(prc) <= 8.0 then 2 else 3
  }

  // ------------------------------------------------------------------- the gates

  predicate Usable(ephs: map<int, Ephemeris>, maxAge: real, tow: real, prn: int, pr: real)
  {
    && prn in ephs && pr > 0.0 && ephs[prn].health == 0
    && Abs(DeltaTWeek(tow - pr / SPEED_OF_LIGHT, ephs[prn].toe)) <= maxAge
  }

  function Gate(ephs: map<int, Ephemeris>, base: Ecef, model: RawModel, maxAge: real, tow: real,
                prs: seq<(int, real)>): (sats: seq<Sat>)
    ensures |sats| <= |prs|
  {
    if prs == [] then []
    else
      var n := |prs| - 1;
      var (prn, pr) := prs[n];
      Gate(ephs, base, model, maxAge, tow, prs[..n]) +
      if Usable(ephs, maxAge, tow, prn, pr)
      then [Sat(prn, model(ephs[prn], base, tow, pr), ephs[prn].iode)] else []
  }

  // --------------------------------------------------------------- one epoch's core

  function Values(sats: seq<Sat>): (vs: seq<real>)
    ensures |vs| == |sats| && forall i :: 0 <= i < |sats| ==> vs[i] == sats[i].value
  {
    seq(|sats|, i requires 0 <= i < |sats| => sats[i].value)
  }

  function Sample(prev: History, prn: int): Option<(real, real)>
  {
    if prn in prev then Some(prev[prn]) else None
  }

  /** A satellite's own divided difference since its previous usable sample. */
  function RateFrom(sample: Option<(real, real)>, tow: real, value: real): Option<real>
  {
    match sample
    case None => None
    case Some((t, v)) => if tow != t then Some((value - v) / (tow - t)) else None
  }

  function RateFn(prev: History, tow: real): Sat -> Option<real>
  {
    (s: Sat) => RateFrom(Sample(prev, s.prn), tow, s.value)
  }

  /** f over a list, keeping what it yields. */
  function FilterMap<T, U>(f: T -> Option<U>, s: seq<T>): seq<U>
  {
    if s == [] then []
    else
      var n := |s| - 1;
      FilterMap(f, s[..n]) + match f(s[n]) case None => [] case Some(y) => [y]
  }

  function RateOffset(rates: seq<real>): real
  {
    if rates == [] then 0.0 else Median(rates)
  }

  /** sorted(raw.items()); the keys of a dict are distinct. */
  function InsertSat(s: Sat, sats: seq<Sat>): seq<Sat>
  {
    if sats == [] || s.prn <= sats[0].prn then [s] + sats else [sats[0]] + InsertSat(s, sats[1..])
  }

  function SortSats(sats: seq<Sat>): seq<Sat>
  {
    if sats == [] then [] else InsertSat(sats[0], SortSats(sats[1..]))
  }

  /** The correction for one satellite, or none when it is a gross outlier. */
  function OutOf(rate: Option<real>, maxResidual: real, offset: real, rateOffset: real, s: Sat): Option<Correction>
  {
    var prc := s.value - offset;
    if Abs(prc) > maxResidual then None
    else
      var rrc := match rate case None => 0.0 case Some(r) => r - rateOffset;
      Some(Correction(s.prn, prc, rrc, s.iod, UdreIndex(prc)))
  }

  function OutFn(rate: Sat -> Option<real>, maxResidual: real, offset: real, rateOffset: real): Sat -> Option<Correction>
  {
    (s: Sat) => OutOf(rate(s), maxResidual, offset, rateOffset, s)
  }

  function Remember(prev: History, tow: real, sats: seq<Sat>): History
  {
    if sats == [] then prev
    else
      var n := |sats| - 1;
      Remember(prev, tow, sats[..n])[sats[n].prn := (tow, sats[n].value)]
  }

  /** The history kept: every satellite that passed the gates, dropped as an outlier or not. */
  function Recall(prev: History, tow: real, sats: seq<Sat>): History
  {
    Remember(prev, tow, SortSats(sats))
  }

  /** The corrections of an epoch: values vs, known rates, satellites in PRN order. */
  function EmitWith(rate: Sat -> Option<real>, maxResidual: real, vs: seq<real>, rates: seq<real>, sorted: seq<Sat>):
    seq<Correction>
    requires vs != []
  {
    FilterMap(OutFn(rate, maxResidual, Median(vs), RateOffset(rates)), sorted)
  }

  /** The corrections of an epoch, given each satellite's own rate. */
  function Emit(rate: Sat -> Option<real>, maxResidual: real, sats: seq<Sat>): seq<Correction>
  {
    if sats == [] then []
    else EmitWith(rate, maxResidual, Values(sats), FilterMap(rate, sats), SortSats(sats))
  }

  /** The corrections drawn from the satellites in PRN order, given the median and the rate offset. */
  function OutputOf(rate: Sat -> Option<real>, maxResidual: real, offset: real, rateOffset: real, sorted: seq<Sat>): seq<Correction>
  {
    FilterMap(OutFn(rate, maxResidual, offset, rateOffset), sorted)
  }

  lemma EmitWithAt(rate: Sat -> Option<real>, maxResidual: real, vs: seq<real>, rates: seq<real>, sorted: seq<Sat>,
                   offset: real)
    requires vs != [] && offset == Median(vs)
    ensures EmitWith(rate, maxResidual, vs, rates, sorted) == OutputOf(rate, maxResidual, offset, RateOffset(rates), sorted)
  {
  }

  // ------------------------------------------------------- what a correction has to say

  lemma {:induction false} InsertSatMembers(s: Sat, sats: seq<Sat>)
    ensures forall t :: t in InsertSat(s, sats) <==> t == s || t in sats
  {
    if sats == [] || s.prn <= sats[0].prn {
    } else {
      InsertSatMembers(s, sats[1..]);
      assert sats == [sats[0]] + sats[1..];
    }
  }

  lemma {:induction false} SortSatsMembers(sats: seq<Sat>)
    ensures forall t :: t in SortSats(sats) <==> t in sats
  {
    if sats != [] {
      SortSatsMembers(sats[1..]);
      InsertSatMembers(sats[0], SortSats(sats[1..]));
      assert sats == [sats[0]] + sats[1..];
    }
  }

  lemma {:induction false} FilterMapMembers<T, U>(f: T -> Option<U>, s: seq<T>)
    ensures forall y :: y in FilterMap(f, s) <==> exists x <- s :: f(x) == Some(y)
  {
    if s != [] {
      var n := |s| - 1;
      FilterMapMembers(f, s[..n]);
      assert s == s[..n] + [s[n]];
    }
  }

  /** The correction of one satellite, spelled out: its own number and issue of data, the raw value
      above the offset, the UDRE of that magnitude, and its rate above the common rate, 0 without one. */
  predicate EntryFor(c: Correction, rate: Sat -> Option<real>, offset: real, rateOffset: real, s: Sat)
  {
    && c.prn == s.prn && c.iod == s.iod && c.prc == s.value - offset
    && c.udre == (if Abs(c.prc) <= 1.0 then 0 else if Abs(c.prc) <= 4.0 then 1 else if Abs(c.prc) <= 8.0 then 2 else 3)
    && c.rrc == match rate(s) case None => 0.0 case Some(r) => r - rateOffset
  }

  ghost predicate HasEntry(out: seq<Correction>, rate: Sat -> Option<real>, offset: real, rateOffset: real, s: Sat)
  {
    exists c <- out :: EntryFor(c, rate, offset, rateOffset, s)
  }

  ghost predicate IsEntry(c: Correction, rate: Sat -> Option<real>, maxResidual: real, offset: real, rateOffset: real,
                          sats: seq<Sat>)
  {
    exists s <- sats :: Abs(s.value - offset) <= maxResidual && EntryFor(c, rate, offset, rateOffset, s)
  }

  /** One entry for every satellite within the limit of the offset, and nothing else. */
  ghost predicate Entries(out: seq<Correction>, rate: Sat -> Option<real>, maxResidual: real, offset: real,
                          rateOffset: real, sats: seq<Sat>)
  {
    && (forall s <- sats :: Abs(s.value - offset) <= maxResidual ==> HasEntry(out, rate, offset, rateOffset, s))
    && forall c <- out :: IsEntry(c, rate, maxResidual, offset, rateOffset, sats)
  }

  lemma OutIsEntry(rate: Sat -> Option<real>, maxResidual: real, offset: real, rateOffset: real, s: Sat)
    ensures var c := OutFn(rate, maxResidual, offset, rateOffset)(s);
            && (c.Some? <==> Abs(s.value - offset) <= maxResidual)
            && (c.Some? ==> EntryFor(c.value, rate, offset, rateOffset, s))
  {
    var c := OutOf(rate(s), maxResidual, offset, rateOffset, s);
    assert OutFn(rate, maxResidual, offset, rateOffset)(s) == c;
    if c.Some? { assert c.value.prc == s.value - offset; }
  }

  lemma OutsAreEntries(rate: Sat -> Option<real>, maxResidual: real, offset: real, rateOffset: real, sats: seq<Sat>)
    ensures Entries(OutputOf(rate, maxResidual, offset, rateOffset, sats), rate, maxResidual, offset, rateOffset, sats)
  {
    var f := OutFn(rate, maxResidual, offset, rateOffset);
    FilterMapMembers(f, sats);
    forall s | s in sats && Abs(s.value - offset) <= maxResidual
      ensures HasEntry(FilterMap(f, sats), rate, offset, rateOffset, s)
    {
      OutIsEntry(rate, maxResidual, offset, rateOffset, s);
      assert f(s).value in FilterMap(f, sats);
    }
    forall c | c in FilterMap(f, sats)
      ensures IsEntry(c, rate, maxResidual, offset, rateOffset, sats)
    {
      var s :| s in sats && f(s) == Some(c);
      OutIsEntry(rate, maxResidual, offset, rateOffset, s);
    }
  }

  lemma SameEntries(out: seq<Correction>, rate: Sat -> Option<real>, maxResidual: real, offset: real, rateOffset: real,
                    sats: seq<Sat>)
    requires Entries(out, rate, maxResidual, offset, rateOffset, SortSats(sats))
    ensures Entries(out, rate, maxResidual, offset, rateOffset, sats)
  {
    SortSatsMembers(sats);
    forall c | c in out ensures IsEntry(c, rate, maxResidual, offset, rateOffset, sats) {
      var s :| s in SortSats(sats) && Abs(s.value - offset) <= maxResidual && EntryFor(c, rate, offset, rateOffset, s);
      assert s in sats;
    }
  }

  /** The median of the rates an epoch knows; 0 when it knows none. */
  function CommonRate(rate: Sat -> Option<real>, sats: seq<Sat>): real
  {
    var rates := FilterMap(rate, sats);
    if rates == [] then 0.0 else Median(rates)
  }

  /** An epoch's corrections: one entry, above the median of the raw values and the median of the rates,
      for every satellite within the limit of that median; none without satellites. */
  ghost predicate EpochEntries(out: seq<Correction>, rate: Sat -> Option<real>, maxResidual: real, sats: seq<Sat>)
  {
    if sats == [] then out == []
    else Entries(out, rate, maxResidual, Median(Values(sats)), CommonRate(rate, sats), sats)
  }

  /** Main result: what an epoch emits is, for each satellite within the limit of the median of the raw
      values and for no other, its raw value above that median and its own rate above the median of
      the rates. */
  lemma EmittedExactly(rate: Sat -> Option<real>, maxResidual: real, sats: seq<Sat>)
    ensures EpochEntries(Emit(rate, maxResidual, sats), rate, maxResidual, sats)
  {
    if sats != [] {
      var offset, common := Median(Values(sats)), CommonRate(rate, sats);
      EmitWithAt(rate, maxResidual, Values(sats), FilterMap(rate, sats), SortSats(sats), offset);
      EntriesOf(Emit(rate, maxResidual, sats), rate, maxResidual, offset, common, sats);
    }
  }

  lemma EntriesOf(out: seq<Correction>, rate: Sat -> Option<real>, maxResidual: real, offset: real, common: real, sats: seq<Sat>)
    requires out == OutputOf(rate, maxResidual, offset, common, SortSats(sats))
    ensures Entries(out, rate, maxResidual, offset, common, sats)
  {
    OutsAreEntries(rate, maxResidual, offset, common, SortSats(sats));
    SameEntries(out, rate, maxResidual, offset, common, sats);
  }

  /** A satellite's own rate: its raw value less its last one, over the time between. */
  function OwnRate(prev: History, tow: real, s: Sat): Option<real>
  {
    if s.prn in prev && tow != prev[s.prn].0
    then Some((s.value - prev[s.prn].1) / (tow - prev[s.prn].0)) else None
  }

  ghost predicate OwnRates(rate: Sat -> Option<real>, prev: History, tow: real, sats: seq<Sat>)
  {
    forall s <- sats :: rate(s) == OwnRate(prev, tow, s)
  }

  /** The corrections of an epoch over a history. */
  ghost predicate EpochRight(out: seq<Correction>, prev: History, tow: real, maxResidual: real, sats: seq<Sat>)
  {
    OwnRates(RateFn(prev, tow), prev, tow, sats) && EpochEntries(out, RateFn(prev, tow), maxResidual, sats)
  }

  lemma RatesAreOwn(prev: History, tow: real, sats: seq<Sat>)
    ensures OwnRates(RateFn(prev, tow), prev, tow, sats)
  {
  }

  lemma EmitRight(prev: History, tow: real, maxResidual: real, sats: seq<Sat>)
    ensures EpochRight(Emit(RateFn(prev, tow), maxResidual, sats), prev, tow, maxResidual, sats)
  {
    RatesAreOwn(prev, tow, sats);
    EmittedExactly(RateFn(prev, tow), maxResidual, sats);
  }

  lemma LoopEntries(out: seq<Correction>, rate: Sat -> Option<real>, maxResidual: real, offset: real, rateOffset: real,
                    sats: seq<Sat>)
    requires out == FilterMap(OutFn(rate, maxResidual, offset, rateOffset), sats)
    ensures Entries(out, rate, maxResidual, offset, rateOffset, sats)
  {
    OutsAreEntries(rate, maxResidual, offset, rateOffset, sats);
  }

  // ------------------------------------------------------------------ the generator

  class DgpsGenerator {
    const model: RawModel
    const maxIodAge: real
    const maxResidual: real
    var base: Option<Ecef>
    var ephemerides: map<int, Ephemeris>
    var prev: History

    constructor (model: RawModel, maxIodAge: real, maxResidual: real)
      ensures this.model == model && this.maxIodAge == maxIodAge && this.maxResidual == maxResidual
      ensures base == None && ephemerides == map[] && prev == map[]
    {
      this.model, this.maxIodAge, this.maxResidual := model, maxIodAge, maxResidual;
      base, ephemerides, prev := None, map[], map[];
    }

    method SetStation(ecef: Ecef)
      modifies this`base
      ensures base == Some(ecef)
    {
      base := Some(ecef);
    }

    method AddEphemeris(eph: Ephemeris)
      modifies this`ephemerides
      ensures ephemerides == old(ephemerides)[eph.prn := eph]
    {
      ephemerides := ephemerides[eph.prn := eph];
    }

    /** The satellites of an epoch that pass the gates; none without a station position. */
    function Gated(tow: real, prs: seq<(int, real)>): seq<Sat>
      reads this
    {
      if base == None then [] else Gate(ephemerides, base.value, model, maxIodAge, tow, prs)
    }

    method Corrections(tow: real, prs: seq<(int, real)>) returns (out: seq<Correction>)
      modifies this`prev
      ensures prev == Recall(old(prev), tow, old(Gated(tow, prs)))
      ensures out == Emit(RateFn(old(prev), tow), maxResidual, old(Gated(tow, prs)))
      ensures EpochRight(out, old(prev), tow, maxResidual, old(Gated(tow, prs)))
    {
      if base == None { return []; }
      var raw: seq<Sat> := [];
      assert prs[..0] == [];
      for i := 0 to |prs|
        invariant raw == Gate(ephemerides, base.value, model, maxIodAge, tow, prs[..i])
        invariant prev == old(prev)
      {
        var (prn, pr) := prs[i];
        assert prs[..i + 1][..i] == prs[..i];
        if prn !in ephemerides || pr <= 0.0 { continue; }
        var eph := ephemerides[prn];
        if eph.health != 0 { continue; }
        var tx := tow - pr / SPEED_OF_LIGHT;
        if Abs(DeltaTWeek(tx, eph.toe)) > maxIodAge { continue; }
        raw := raw + [Sat(prn, model(eph, base.value, tow, pr), eph.iode)];
      }
      assert prs[..|prs|] == prs;
      if raw == [] { return []; }
      out := FromRaw(tow, raw);
    }

    method FromRaw(tow: real, raw: seq<Sat>) returns (out: seq<Correction>)
      requires raw != []
      modifies this`prev
      ensures prev == Recall(old(prev), tow, raw)
      ensures out == Emit(RateFn(old(prev), tow), maxResidual, raw)
      ensures EpochRight(out, old(prev), tow, maxResidual, raw)
    {
      EmitRight(prev, tow, maxResidual, raw);
      var offset := Median(Values(raw));
      var rate := RateFn(prev, tow);
      var rates: seq<real> := [];
      for i := 0 to |raw|
        invariant prev == old(prev) && rates == FilterMap(rate, raw[..i])
      {
        FilterMapSnoc(rate, raw, i);
        match rate(raw[i])
        case None =>
        case Some(r) => rates := rates + [r];
      }
      assert raw[..|raw|] == raw;
      out := EmitSorted(tow, rate, offset, RateOffset(rates), SortSats(raw));
    }

    /** The last loop: remember every satellite, emit those within the limit. */
    method EmitSorted(tow: real, rate: Sat -> Option<real>, offset: real, rateOffset: real, sorted: seq<Sat>)
      returns (out: seq<Correction>)
      modifies this`prev
      ensures prev == Remember(old(prev), tow, sorted)
      ensures out == FilterMap(OutFn(rate, maxResidual, offset, rateOffset), sorted)
      ensures Entries(out, rate, maxResidual, offset, rateOffset, sorted)
    {
      out := [];
      for i := 0 to |sorted|
        invariant prev == Remember(old(prev), tow, sorted[..i])
        invariant out == FilterMap(OutFn(rate, maxResidual, offset, rateOffset), sorted[..i])
      {
        var s := sorted[i];
        assert sorted[..i + 1][..i] == sorted[..i];
        FilterMapSnoc(OutFn(rate, maxResidual, offset, rateOffset), sorted, i);
        var prc := s.value - offset;
        prev := prev[s.prn := (tow, s.value)];
        if Abs(prc) > maxResidual { continue; }
        var own := rate(s);
        var rrc := if own.Some? then own.value - rateOffset else 0.0;
        out := out + [Correction(s.prn, prc, rrc, s.iod, UdreIndex(prc))];
      }
      assert sorted[..|sorted|] == sorted;
      LoopEntries(out, rate, maxResidual, offset, rateOffset, sorted);
    }
  }

  lemma FilterMapSnoc<T, U>(f: T -> Option<U>, s: seq<T>, i: nat)
    requires i < |s|
    ensures FilterMap(f, s[..i + 1]) == FilterMap(f, s[..i]) + match f(s[i]) case None => [] case Some(y) => [y]
  {
    assert s[..i + 1][..i] == s[..i];
  }
}
