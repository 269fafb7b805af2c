/** statistics.median over reals: sorted, middle value or mean of the two middle values. */
module Statistics {
  import opened Basics

  function Insert(x: real, s: seq<real>): (r: seq<real>)
    ensures |r| == |s| + 1
  {
    if s == [] || x <= s[0] then [x] + s else [s[0]] + Insert(x, s[1..])
  }

  function Sort(s: seq<real>): (r: seq<real>)
    ensures |r| == |s|
  {
    if s == [] then [] else Insert(s[0], Sort(s[1..]))
  }

  ghost predicate Sorted(s: seq<real>)
  {
    forall i, j :: 0 <= i < j < |s| ==> s[i] <= s[j]
  }

  /** Middle value, or the mean of the two middle values. */
  function Middle(t: seq<real>): real
    requires t != []
  {
    var n := |t|;
    if n % 2 == 1 then t[n / 2] else (t[n / 2 - 1] + t[n / 2]) / 2.0
  }

  function Median(s: seq<real>): real
    requires s != []
  {
    Middle(Sort(s))
  }

  lemma ConsSorted(h: real, s: seq<real>)
    requires Sorted(s) && forall x <- s :: h <= x
    ensures Sorted([h] + s)
  {
    forall j | 0 <= j < |s| ensures h <= s[j] { assert s[j] in s; }
  }

  lemma {:induction false} InsertKeeps(x: real, s: seq<real>)
    ensures multiset(Insert(x, s)) == multiset(s) + multiset{x}
    ensures forall y <- Insert(x, s) :: y == x || y in s
  {
    if s != [] && x > s[0] {
      InsertKeeps(x, s[1..]);
      assert s == [s[0]] + s[1..];
    }
  }

  lemma {:induction false} InsertSorted(x: real, s: seq<real>)
    requires Sorted(s)
    ensures Sorted(Insert(x, s))
  {
    if s == [] || x <= s[0] {
      forall y | y in s ensures x <= y {
        var i :| 0 <= i < |s| && s[i] == y;
        assert s[0] <= s[i];
      }
      ConsSorted(x, s);
    } else {
      InsertSorted(x, s[1..]);
      InsertKeeps(x, s[1..]);
      forall y | y in Insert(x, s[1..]) ensures s[0] <= y {
        if y != x {
          var i :| 0 <= i < |s[1..]| && s[1..][i] == y;
          assert s[0] <= s[i + 1];
        }
      }
      ConsSorted(s[0], Insert(x, s[1..]));
    }
  }

  lemma {:induction false} SortSorts(s: seq<real>)
    ensures Sorted(Sort(s)) && multiset(Sort(s)) == multiset(s)
  {
    if s != [] {
      SortSorts(s[1..]);
      InsertSorted(s[0], Sort(s[1..]));
      InsertKeeps(s[0], Sort(s[1..]));
      assert s == [s[0]] + s[1..];
    }
  }

  // ------------------------------------------------------------- common offsets

  function Shift(s: seq<real>, c: real): (r: seq<real>)
    ensures |r| == |s| && forall i :: 0 <= i < |s| ==> r[i] == s[i] + c
  {
    seq(|s|, i requires 0 <= i < |s| => s[i] + c)
  }

  lemma {:induction false} InsertShift(x: real, s: seq<real>, c: real)
    ensures Insert(x + c, Shift(s, c)) == Shift(Insert(x, s), c)
  {
    if s == [] || x <= s[0] {
      ShiftCons(x, s, c);
    } else {
      InsertShift(x, s[1..], c);
      ShiftTail(s, c);
      ShiftCons(s[0], Insert(x, s[1..]), c);
    }
  }

  lemma ShiftCons(x: real, s: seq<real>, c: real)
    ensures Shift([x] + s, c) == [x + c] + Shift(s, c)
  {
  }

  lemma ShiftTail(s: seq<real>, c: real)
    requires s != []
    ensures Shift(s, c)[0] == s[0] + c && Shift(s, c)[1..] == Shift(s[1..], c)
  {
  }

  lemma {:induction false} SortShift(s: seq<real>, c: real)
    ensures Sort(Shift(s, c)) == Shift(Sort(s), c)
  {
    if s != [] {
      SortShift(s[1..], c);
      ShiftTail(s, c);
      InsertShift(s[0], Sort(s[1..]), c);
    }
  }

  lemma MedianShift(s: seq<real>, c: real)
    requires s != []
    ensures Median(Shift(s, c)) == Median(s) + c
  {
    SortShift(s, c);
  }

  // ---------------------------------------------------------------- common factors

  function Mapped(f: real -> real, s: seq<real>): (r: seq<real>)
    ensures |r| == |s| && forall i :: 0 <= i < |s| ==> r[i] == f(s[i])
  {
    seq(|s|, i requires 0 <= i < |s| => f(s[i]))
  }

  predicate Ordered(f: real -> real, x: real, y: real) { x <= y <==> f(x) <= f(y) }

  ghost predicate Rising(f: real -> real)
  {
    forall x, y :: Ordered(f, x, y)
  }

  lemma MappedCons(f: real -> real, x: real, s: seq<real>)
    ensures Mapped(f, [x] + s) == [f(x)] + Mapped(f, s)
  {
  }

  lemma MappedTail(f: real -> real, s: seq<real>)
    requires s != []
    ensures Mapped(f, s)[0] == f(s[0]) && Mapped(f, s)[1..] == Mapped(f, s[1..])
  {
  }

  lemma {:induction false} InsertMapped(f: real -> real, x: real, s: seq<real>)
    requires Rising(f)
    ensures Insert(f(x), Mapped(f, s)) == Mapped(f, Insert(x, s))
  {
    if s == [] {
      MappedCons(f, x, s);
    } else {
      assert Ordered(f, x, s[0]);
      MappedTail(f, s);
      if x <= s[0] {
        MappedCons(f, x, s);
      } else {
        InsertMapped(f, x, s[1..]);
        MappedCons(f, s[0], Insert(x, s[1..]));
      }
    }
  }

  lemma {:induction false} SortMapped(f: real -> real, s: seq<real>)
    requires Rising(f)
    ensures Sort(Mapped(f, s)) == Mapped(f, Sort(s))
  {
    if s != [] {
      SortMapped(f, s[1..]);
      MappedTail(f, s);
      InsertMapped(f, s[0], Sort(s[1..]));
    }
  }

  function Negated(s: seq<real>): (r: seq<real>)
    ensures |r| == |s| && forall i :: 0 <= i < |s| ==> r[i] == -s[i]
  {
    seq(|s|, i requires 0 <= i < |s| => -s[i])
  }

  function Reverse(s: seq<real>): (r: seq<real>)
    ensures |r| == |s| && forall i :: 0 <= i < |s| ==> r[i] == s[|s| - 1 - i]
  {
    seq(|s|, i requires 0 <= i < |s| => s[|s| - 1 - i])
  }

  lemma LeastFirst(a: seq<real>, b: seq<real>)
    requires Sorted(a) && multiset(a) == multiset(b) && a != [] && b != []
    ensures a[0] <= b[0]
  {
    assert b[0] in multiset(b);
    assert b[0] in a;
    var j :| 0 <= j < |a| && a[j] == b[0];
    assert a[0] <= a[j];
  }

  lemma SameLength(a: seq<real>, b: seq<real>)
    requires multiset(a) == multiset(b)
    ensures |a| == |b|
  {
    assert |multiset(a)| == |a| && |multiset(b)| == |b|;
  }

  lemma TailElements(a: seq<real>)
    requires a != []
    ensures multiset(a[1..]) == multiset(a) - multiset{a[0]}
  {
    assert a == [a[0]] + a[1..];
  }

  /** There is one sorted order. */
  lemma {:induction false} SortedUnique(a: seq<real>, b: seq<real>)
    requires Sorted(a) && Sorted(b) && multiset(a) == multiset(b)
    ensures a == b
  {
    SameLength(a, b);
    if a != [] {
      LeastFirst(a, b);
      LeastFirst(b, a);
      TailElements(a);
      TailElements(b);
      SortedUnique(a[1..], b[1..]);
      assert a == [a[0]] + a[1..] && b == [b[0]] + b[1..];
    }
  }

  lemma {:induction false} NegatedCount(s: seq<real>, v: real)
    ensures multiset(Negated(s))[v] == multiset(s)[-v]
  {
    if s != [] {
      NegatedCount(s[1..], v);
      NegatedCountCons(s[0], s[1..], v);
      assert s == [s[0]] + s[1..];
    }
  }

  lemma NegatedCountCons(x: real, s: seq<real>, v: real)
    requires multiset(Negated(s))[v] == multiset(s)[-v]
    ensures multiset(Negated([x] + s))[v] == multiset([x] + s)[-v]
  {
    CountCons(x, s, -v);
    CountCons(-x, Negated(s), v);
    NegatedCons(x, s);
  }

  lemma CountCons(x: real, s: seq<real>, v: real)
    ensures multiset([x] + s)[v] == multiset(s)[v] + if x == v then 1 else 0
  {
  }

  lemma NegatedCons(x: real, s: seq<real>)
    ensures Negated([x] + s) == [-x] + Negated(s)
  {
  }

  lemma {:induction false} ReverseCount(s: seq<real>)
    ensures multiset(Reverse(s)) == multiset(s)
  {
    if s != [] {
      ReverseCount(s[1..]);
      assert s == [s[0]] + s[1..];
      assert Reverse(s) == Reverse(s[1..]) + [s[0]];
    }
  }

  lemma NegatedElements(a: seq<real>, b: seq<real>)
    requires multiset(a) == multiset(b)
    ensures multiset(Negated(a)) == multiset(Negated(b))
  {
    forall v ensures multiset(Negated(a))[v] == multiset(Negated(b))[v] {
      NegatedCount(a, v);
      NegatedCount(b, v);
    }
  }

  lemma TurnedRound(t: seq<real>)
    requires Sorted(t)
    ensures Sorted(Reverse(Negated(t)))
  {
  }

  lemma SortNegated(s: seq<real>)
    ensures Sort(Negated(s)) == Reverse(Negated(Sort(s)))
  {
    SortSorts(s);
    SortSorts(Negated(s));
    NegatedElements(Sort(s), s);
    ReverseCount(Negated(Sort(s)));
    TurnedRound(Sort(s));
    SortedUnique(Sort(Negated(s)), Reverse(Negated(Sort(s))));
  }

  lemma MiddleTurned(t: seq<real>)
    requires t != []
    ensures Middle(Reverse(Negated(t))) == -Middle(t)
  {
  }

  lemma MedianNegated(s: seq<real>)
    requires s != []
    ensures Median(Negated(s)) == -Median(s)
  {
    SortNegated(s);
    MiddleTurned(Sort(s));
  }

  function Times(q: real): real -> real { (x: real) => q * x }

  function Scale(s: seq<real>, q: real): seq<real> { Mapped(Times(q), s) }

  lemma TimesOrdered(q: real, x: real, y: real)
    requires q > 0.0
    ensures Ordered(Times(q), x, y)
  {
    assert x <= y ==> q * (y - x) >= 0.0;
    assert x > y ==> q * (x - y) > 0.0;
  }

  predicate Halves(f: real -> real, x: real, y: real) { (f(x) + f(y)) / 2.0 == f((x + y) / 2.0) }

  ghost predicate KeepsHalves(f: real -> real)
  {
    forall x, y :: Halves(f, x, y)
  }

  lemma MiddleMapped(f: real -> real, t: seq<real>)
    requires t != [] && KeepsHalves(f)
    ensures Middle(Mapped(f, t)) == f(Middle(t))
  {
    var n := |t|;
    if n % 2 == 0 { assert Halves(f, t[n / 2 - 1], t[n / 2]); }
  }

  lemma MedianMapped(f: real -> real, s: seq<real>)
    requires s != [] && Rising(f) && KeepsHalves(f)
    ensures Median(Mapped(f, s)) == f(Median(s))
  {
    SortMapped(f, s);
    MiddleMapped(f, Sort(s));
  }

  lemma HalfSum(q: real, x: real, y: real)
    ensures (q * x + q * y) / 2.0 == q * ((x + y) / 2.0)
  {
    assert q * (x + y) == q * x + q * y;
  }

  lemma TimesRegular(q: real)
    requires q > 0.0
    ensures Rising(Times(q)) && KeepsHalves(Times(q))
  {
    forall x, y ensures Ordered(Times(q), x, y) { TimesOrdered(q, x, y); }
    forall x, y ensures Halves(Times(q), x, y) { HalfSum(q, x, y); }
  }

  lemma MedianScaleUp(s: seq<real>, q: real)
    requires s != [] && q > 0.0
    ensures Median(Scale(s, q)) == q * Median(s)
  {
    TimesRegular(q);
    MedianMapped(Times(q), s);
  }

  lemma NegativeScale(s: seq<real>, q: real)
    ensures Scale(s, q) == Negated(Scale(s, -q))
  {
    forall i | 0 <= i < |s| ensures Scale(s, q)[i] == Negated(Scale(s, -q))[i] {
      assert -q * s[i] == -(q * s[i]);
    }
  }

  lemma DoubleNegative(q: real, m: real)
    ensures -(-q * m) == q * m
  {
  }

  lemma MedianScaleDown(s: seq<real>, q: real)
    requires s != [] && q < 0.0
    ensures Median(Scale(s, q)) == q * Median(s)
  {
    var t := Scale(s, -q);
    MedianScaleUp(s, -q);
    MedianNegated(t);
    NegativeScale(s, q);
    DoubleNegative(q, Median(s));
  }

  /** A common factor, negative ones included, scales the median. */
  lemma MedianScale(s: seq<real>, q: real)
    requires s != [] && q != 0.0
    ensures Median(Scale(s, q)) == q * Median(s)
  {
    if q > 0.0 { MedianScaleUp(s, q); } else { MedianScaleDown(s, q); }
  }

  // ---------------------------------------------------------------- robustness

  predicate Within(x: real, lo: real, hi: real) { lo <= x <= hi }

  function CountIn(s: seq<real>, lo: real, hi: real): (n: nat)
    ensures n <= |s|
  {
    if s == [] then 0 else (if Within(s[0], lo, hi) then 1 else 0) + CountIn(s[1..], lo, hi)
  }

  lemma {:induction false} CountInsert(x: real, s: seq<real>, lo: real, hi: real)
    ensures CountIn(Insert(x, s), lo, hi) == CountIn(s, lo, hi) + (if Within(x, lo, hi) then 1 else 0)
  {
    if s == [] || x <= s[0] {
      assert ([x] + s)[1..] == s;
    } else {
      CountInsert(x, s[1..], lo, hi);
      assert Insert(x, s)[1..] == Insert(x, s[1..]);
    }
  }

  lemma {:induction false} CountSort(s: seq<real>, lo: real, hi: real)
    ensures CountIn(Sort(s), lo, hi) == CountIn(s, lo, hi)
  {
    if s != [] {
      CountSort(s[1..], lo, hi);
      CountInsert(s[0], Sort(s[1..]), lo, hi);
    }
  }

  lemma {:induction false} CountConcat(a: seq<real>, b: seq<real>, lo: real, hi: real)
    ensures CountIn(a + b, lo, hi) == CountIn(a, lo, hi) + CountIn(b, lo, hi)
  {
    if a == [] {
      assert a + b == b;
    } else {
      CountConcat(a[1..], b, lo, hi);
      assert (a + b)[1..] == a[1..] + b;
    }
  }

  lemma {:induction false} CountNone(s: seq<real>, lo: real, hi: real)
    requires forall i :: 0 <= i < |s| ==> !Within(s[i], lo, hi)
    ensures CountIn(s, lo, hi) == 0
  {
    if s != [] { CountNone(s[1..], lo, hi); }
  }

  lemma CountBelow(t: seq<real>, k: nat, lo: real, hi: real)
    requires Sorted(t) && k < |t| && t[k] > hi
    ensures CountIn(t, lo, hi) <= k
  {
    var a, b := t[..k], t[k..];
    forall i | 0 <= i < |b| ensures !Within(b[i], lo, hi) {
      assert b[i] == t[k + i] && t[k] <= t[k + i];
    }
    CountNone(b, lo, hi);
    CountConcat(a, b, lo, hi);
    assert t == a + b;
  }

  /** In sorted order, a value below the interval has all earlier values below it too. */
  lemma CountAbove(t: seq<real>, k: nat, lo: real, hi: real)
    requires Sorted(t) && k < |t| && t[k] < lo
    ensures CountIn(t, lo, hi) <= |t| - k - 1
  {
    var a, b := t[..k + 1], t[k + 1..];
    forall i | 0 <= i < |a| ensures !Within(a[i], lo, hi) {
      assert a[i] == t[i] && t[i] <= t[k];
    }
    CountNone(a, lo, hi);
    CountConcat(a, b, lo, hi);
    assert t == a + b;
  }

  lemma MiddleInside(t: seq<real>, k: nat, lo: real, hi: real)
    requires Sorted(t) && k < |t| && |t| - k - 1 < CountIn(t, lo, hi) && k < CountIn(t, lo, hi)
    ensures Within(t[k], lo, hi)
  {
    if t[k] < lo { CountAbove(t, k, lo, hi); }
    if t[k] > hi { CountBelow(t, k, lo, hi); }
  }

  lemma MiddleBreakdown(t: seq<real>, lo: real, hi: real)
    requires Sorted(t) && 2 * CountIn(t, lo, hi) > |t|
    ensures lo <= Middle(t) <= hi
  {
    var n := |t|;
    MiddleInside(t, n / 2, lo, hi);
    if n % 2 == 0 { MiddleInside(t, n / 2 - 1, lo, hi); }
  }

  /** Main result: when strictly more than half of the values lie in an interval, so does the
      median, whatever the others are, for odd and even counts. */
  lemma MedianBreakdown(s: seq<real>, lo: real, hi: real)
    requires 2 * CountIn(s, lo, hi) > |s|
    ensures lo <= Median(s) <= hi
  {
    SortSorts(s);
    CountSort(s, lo, hi);
    MiddleBreakdown(Sort(s), lo, hi);
  }

  /** Half the distance between the two middle values; zero for an odd count. */
  function MiddleGap(s: seq<real>): real
    requires s != []
  {
    var t, n := Sort(s), |s|;
    if n % 2 == 1 then 0.0 else (t[n / 2] - t[n / 2 - 1]) / 2.0
  }

  lemma InSort(s: seq<real>, x: real)
    ensures x in s <==> x in Sort(s)
  {
    SortSorts(s);
    assert x in s <==> x in multiset(s);
    assert x in Sort(s) <==> x in multiset(Sort(s));
  }

  /** The value nearest to the median is exactly MiddleGap away. */
  lemma NearestToMedian(s: seq<real>)
    requires s != []
    ensures exists i :: 0 <= i < |s| && Abs(s[i] - Median(s)) == MiddleGap(s)
    ensures forall i :: 0 <= i < |s| ==> Abs(s[i] - Median(s)) >= MiddleGap(s)
  {
    var t, n := Sort(s), |s|;
    SortSorts(s);
    assert Median(s) == Middle(t);
    assert t[n / 2] in t;
    InSort(s, t[n / 2]);
    var i :| 0 <= i < n && s[i] == t[n / 2];
    if n % 2 == 0 {
      assert Abs(s[i] - Median(s)) == MiddleGap(s);
    }
    forall j | 0 <= j < n ensures Abs(s[j] - Median(s)) >= MiddleGap(s) {
      assert s[j] in s;
      InSort(s, s[j]);
      var k :| 0 <= k < n && t[k] == s[j];
      assert k < n / 2 - 1 ==> t[k] <= t[n / 2 - 1];
      assert k > n / 2 ==> t[n / 2] <= t[k];
    }
  }
}
