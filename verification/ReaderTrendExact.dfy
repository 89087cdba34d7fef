/** For which days the publication trend is right, whatever orders its loops visit them in. */
module ReaderTrendExact {
  import opened Rows
  import opened ReaderTrend

  /** The days of the map that a loop has visited. */
  function Seen(days: map<int, Count>, again: seq<int>): map<int, Count> {
    map d | d in days && d in again :: days[d]
  }

  /** From a Monday on, and up to the last day, every day is counted where it belongs. */
  lemma {:induction false} CountedAreBins(days: map<int, Count>, again: seq<int>, first: int, last: int, width: int)
    requires first <= last && width > 0 && (forall d | d in again :: d in days && Monday(first) <= d <= last)
    requires forall i, j | 0 <= i < j < |again| :: again[i] != again[j]
    ensures var n := BinCount(Weeks(first, last), width);
            n >= 0 && var counted := Counted(days, again, first, width, EmptyBins(first, width, n));
            counted.Some? && |counted.value| == n && AreBins(Seen(days, again), first, width, counted.value)
    decreases |again|
  {
    SpanHasWeeks(first, last);
    WeekInRange(0, Weeks(first, last), width);
    var n := BinCount(Weeks(first, last), width);
    if again == [] {
      EmptyBinsAreBins(first, width, n);
      assert Seen(days, again) == map[];
    } else {
      var front := again[..|again| - 1];
      assert forall e | e in front :: e in again;
      CountedAreBins(days, front, first, last, width);
      CountsOneMore(days, again, first, last, width, Counted(days, front, first, width, EmptyBins(first, width, n)).value);
    }
  }

  lemma CountsOneMore(days: map<int, Count>, again: seq<int>, first: int, last: int, width: int, bins: seq<Bin>)
    requires again != [] && width > 0 && (forall d | d in again :: d in days && Monday(first) <= d <= last)
    requires (forall i, j | 0 <= i < j < |again| :: again[i] != again[j]) && |bins| == BinCount(Weeks(first, last), width)
    requires AreBins(Seen(days, again[..|again| - 1]), first, width, bins)
    ensures var d := again[|again| - 1];
            var more := WithDay(bins, IndexOf(first, width, d), days[d]);
            more.Some? && |more.value| == |bins| && AreBins(Seen(days, again), first, width, more.value)
  {
    var front, d := again[..|again| - 1], again[|again| - 1];
    assert d in again && d !in front;
    CountsDay(Seen(days, front), first, last, width, bins, d, days[d]);
    assert Seen(days, again) == Seen(days, front)[d := days[d]] by { assert forall e :: e in again <==> e in front || e == d; }
    assert IndexOf(first, width, d) == BinOf(first, width, d);
  }

  /** The trend of the days does not panic and is the one it should be. */
  ghost predicate IsRight(days: map<int, Count>, order: seq<int>, again: seq<int>)
    requires forall d | d in again :: d in days
  {
    var trend := Trend(days, order, again); trend.Some? && IsTrend(days, trend.value.0, trend.value.1)
  }

  predicate InFirstWeek(days: set<int>) { forall d | d in days :: ZERO_DAY <= d < ZERO_DAY + 7 }

  lemma ZeroDayIsMonday()
    ensures forall d | ZERO_DAY <= d < ZERO_DAY + 7 :: Monday(d) == ZERO_DAY
  {
  }

  lemma {:induction false} FirstIsSome(order: seq<int>)
    requires order != []
    ensures FirstDay(order) in order
    decreases |order|
  {
    var front, day := order[..|order| - 1], order[|order| - 1];
    assert order == front + [day];
    if front != [] { FirstIsSome(front); }
  }

  /** Wherever the first loop starts in the first week, and if it ends at the last day, the trend is right. */
  lemma RightFromMonday(days: map<int, Count>, order: seq<int>, again: seq<int>, first: int, last: int)
    requires Enumerates(order, days.Keys) && Enumerates(again, days.Keys) && order != []
    requires Spans(first, last, days.Keys) && Monday(FirstDay(order)) == Monday(first) && LastDay(order) == last
    ensures IsRight(days, order, again)
  {
    var start := FirstDay(order);
    FirstIsNotAfterLast(order);
    MondayIsMonday(first);
    SpanHasWeeks(start, last);
    var width := Width(Weeks(start, last));
    CountedAreBins(days, again, start, last, width);
    AllSeen(days, again);
    TrendFromMonday(days, start, first, last, Trend(days, order, again).value.0);
  }

  lemma AllSeen(days: map<int, Count>, again: seq<int>)
    requires Enumerates(again, days.Keys)
    ensures Seen(days, again) == days
  {
    forall d | d in days ensures d in again { assert d in days.Keys; }
  }

  /** Bins depend on the first day only through its Monday. */
  lemma TrendFromMonday(days: map<int, Count>, start: int, first: int, last: int, bins: seq<Bin>)
    requires Spans(first, last, days.Keys) && Monday(start) == Monday(first) && Weeks(start, last) > 0
    requires var width := Width(Weeks(start, last));
             width > 0 && |bins| == BinCount(Weeks(start, last), width) && AreBins(days, start, width, bins)
    ensures IsTrend(days, bins, Width(Weeks(start, last)))
  {
    assert AreBins(days, first, Width(Weeks(start, last)), bins);
  }

  lemma {:induction false} EndsAtZero(order: seq<int>, e: int)
    requires e != ZERO_DAY && (forall d | d in order :: d > ZERO_DAY)
    ensures FirstDay(order + [ZERO_DAY, e]) == e
  {
    var front := order + [ZERO_DAY];
    assert (order + [ZERO_DAY, e])[..|front|] == front && front[..|order|] == order;
    FirstNotBelow(order);
  }

  /** An order in which the zero day is visited last but one. */
  lemma OrderWithZero(days: set<int>, e: int) returns (rest: seq<int>, order: seq<int>)
    requires ZERO_DAY in days && e in days && e != ZERO_DAY
    ensures Enumerates(order, days) && order == rest + [ZERO_DAY, e] && forall d | d in rest :: d in days && d != ZERO_DAY
  {
    rest := EnumerationExists(days - {ZERO_DAY, e});
    order := rest + [ZERO_DAY, e];
    forall d ensures d in order <==> d in days { assert d in rest <==> d in days - {ZERO_DAY, e}; }
    forall i, j | 0 <= i < j < |order| ensures order[i] != order[j] {
      if i < |rest| { assert rest[i] in rest; }
    }
  }
  lemma {:induction false} LastAtZero(order: seq<int>, e: int)
    requires e < ZERO_DAY && (forall d | d in order :: d < ZERO_DAY)
    ensures LastDay(order + [ZERO_DAY, e]) == e
  {
    var front := order + [ZERO_DAY];
    assert (order + [ZERO_DAY, e])[..|front|] == front && front[..|order|] == order;
    if order != [] { LastIsGreatest(order); }
    assert LastDay(front) == ZERO_DAY;
  }

  /** The zero day comes first and some day follows after its week: visited before that day, it is forgotten. */
  lemma WrongAtStart(days: map<int, Count>, e: int) returns (order: seq<int>)
    requires ZERO_DAY in days && (forall d | d in days :: d >= ZERO_DAY) && e in days && e >= ZERO_DAY + 7
    ensures Enumerates(order, days.Keys) && !IsRight(days, order, order)
  {
    var rest;
    rest, order := OrderWithZero(days.Keys, e);
    EndsAtZero(rest, e);
    MondayIsMonday(e);
    ZeroDayIsMonday();
    var trend := Trend(days, order, order);
    if trend.Some? {
      FirstIsNotAfterLast(order);
      SpanHasWeeks(e, LastDay(order));
      var width := Width(Weeks(e, LastDay(order)));
      KeepsBounds(days, order, e, width, EmptyBins(e, width, BinCount(Weeks(e, LastDay(order)), width)));
      assert trend.value.0[0].from == Monday(e);
      StartsAtFirst(days, trend.value.0, trend.value.1, ZERO_DAY);
    }
  }

  /** A trend starts at the Monday of its first day and has as many bins as its weeks need. */
  lemma StartsAtFirst(days: map<int, Count>, bins: seq<Bin>, width: int, first: int)
    requires first in days && forall d | d in days :: first <= d
    ensures IsTrend(days, bins, width) ==> |bins| > 0 && bins[0].from == Monday(first)
  {
    if f, l :| Spans(f, l, days.Keys) && width == Width(Weeks(f, l)) && |bins| == BinCount(Weeks(f, l), Width(Weeks(f, l))) && AreBins(days, f, width, bins) {
      assert f == first;
      SpanHasWeeks(f, l);
    }
  }

  /** Counting changes neither the number of bins nor where they begin. */
  lemma {:induction false} KeepsBounds(days: map<int, Count>, again: seq<int>, first: int, width: int, empty: seq<Bin>)
    requires width > 0 && (forall d | d in again :: d in days) && Counted(days, again, first, width, empty).Some?
    ensures var bins := Counted(days, again, first, width, empty).value;
            |bins| == |empty| && forall i | 0 <= i < |bins| :: bins[i].from == empty[i].from
    decreases |again|
  {
    if again != [] { KeepsBounds(days, again[..|again| - 1], first, width, empty); }
  }

  /** The zero day comes last: visited before another day, it is forgotten, and its week has no bin. */
  lemma WrongAtEnd(days: map<int, Count>, e: int) returns (order: seq<int>)
    requires ZERO_DAY in days && (forall d | d in days :: EARLIEST_DAY <= d <= ZERO_DAY) && e in days && e < ZERO_DAY
    ensures Enumerates(order, days.Keys) && !IsRight(days, order, order)
  {
    var rest;
    rest, order := OrderWithZero(days.Keys, e);
    LastAtZero(rest, e);
    FirstIsLeast(order);
    var first := FirstDay(order);
    assert first in days.Keys && forall d | d in days :: d in order;
    WeeksMissing(first, e);
    var trend := Trend(days, order, order);
    if trend.Some? {
      FirstIsNotAfterLast(order);
      SpanHasWeeks(first, e);
      KeepsBounds(days, order, first, 1, EmptyBins(first, 1, Weeks(first, e)));
      assert |trend.value.0| == Weeks(first, e);
      HasAllWeeks(days, trend.value.0, trend.value.1, first, ZERO_DAY);
    }
  }

  /** The zero day is a Monday, so a day before it is in an earlier week. */
  lemma WeeksMissing(first: int, e: int)
    requires EARLIEST_DAY <= first <= e < ZERO_DAY
    ensures 0 < Weeks(first, e) < Weeks(first, ZERO_DAY) <= 104
  {
  }

  lemma HasAllWeeks(days: map<int, Count>, bins: seq<Bin>, width: int, first: int, last: int)
    requires Spans(first, last, days.Keys) && 0 < Weeks(first, last) <= 104
    ensures IsTrend(days, bins, width) ==> |bins| == Weeks(first, last)
  {
    if f, l :| Spans(f, l, days.Keys) && width == Width(Weeks(f, l)) && |bins| == BinCount(Weeks(f, l), Width(Weeks(f, l))) && AreBins(days, f, width, bins) {
      assert f == first && l == last && Width(Weeks(f, l)) == 1;
    }
  }

  /** For dates from year 0 on, the trend is right in all orders of its loops exactly if the zero day is harmless
  or all days are in its week. */
  lemma TrendIsRightExactly(days: map<int, Count>)
    requires days != map[] && forall d | d in days :: d >= EARLIEST_DAY
    ensures (forall order, again | Enumerates(order, days.Keys) && Enumerates(again, days.Keys) :: IsRight(days, order, again)) <==>
              ZeroIsHarmless(days.Keys) || InFirstWeek(days.Keys)
  {
    if ZeroIsHarmless(days.Keys) || InFirstWeek(days.Keys) {
      forall order, again | Enumerates(order, days.Keys) && Enumerates(again, days.Keys) ensures IsRight(days, order, again) {
        RightIfHarmless(days, order, again);
      }
    } else {
      var order := WrongOrder(days);
      assert !IsRight(days, order, order);
    }
  }

  lemma WrongOrder(days: map<int, Count>) returns (order: seq<int>)
    requires (forall d | d in days :: d >= EARLIEST_DAY) && !ZeroIsHarmless(days.Keys) && !InFirstWeek(days.Keys)
    ensures Enumerates(order, days.Keys) && !IsRight(days, order, order)
  {
    var e :| e in days && !(ZERO_DAY <= e < ZERO_DAY + 7);
    if e < ZERO_DAY { order := WrongAtEnd(days, e); } else { order := WrongAtStart(days, e); }
  }

  lemma RightIfHarmless(days: map<int, Count>, order: seq<int>, again: seq<int>)
    requires days != map[] && Enumerates(order, days.Keys) && Enumerates(again, days.Keys)
    requires ZeroIsHarmless(days.Keys) || InFirstWeek(days.Keys)
    ensures IsRight(days, order, again)
  {
    var some := Member(days.Keys);
    assert some in order;
    if ZeroIsHarmless(days.Keys) {
      HarmlessIsFound(days.Keys, order);
      RightFromMonday(days, order, again, FirstDay(order), LastDay(order));
    } else {
      ZeroDayIsMonday();
      FirstIsSome(order);
      var other := Member(days.Keys - {ZERO_DAY});
      assert other in order && other > ZERO_DAY;
      LastIsGreatest(order);
      assert Spans(ZERO_DAY, LastDay(order), days.Keys) by { assert forall d | d in days.Keys :: d in order; }
      RightFromMonday(days, order, again, ZERO_DAY, LastDay(order));
    }
  }

  /** Two publications two days apart around the turn to year one: visited in the wrong order the page panics. */
  lemma PanicsAtYearOne(c: Count, d: Count)
    ensures var days := map[ZERO_DAY := c, ZERO_DAY - 2 := d];
            Trend(days, [ZERO_DAY, ZERO_DAY - 2], [ZERO_DAY - 2, ZERO_DAY]) == None
  {
    var days := map[ZERO_DAY := c, ZERO_DAY - 2 := d];
    var order, again := [ZERO_DAY, ZERO_DAY - 2], [ZERO_DAY - 2, ZERO_DAY];
    assert order[..1] == [ZERO_DAY] && order[..1][..0] == [] && again[..1] == [ZERO_DAY - 2] && again[..1][..0] == [];
    assert FirstDay(order[..1]) == ZERO_DAY && LastDay(order[..1]) == ZERO_DAY;
    assert FirstDay(order) == ZERO_DAY - 2 && LastDay(order) == ZERO_DAY - 2;
    var empty := EmptyBins(ZERO_DAY - 2, 1, 1);
    assert Counted(days, again[..1][..0], ZERO_DAY - 2, 1, empty) == Some(empty);
    assert IndexOf(ZERO_DAY - 2, 1, ZERO_DAY) == 1 && IndexOf(ZERO_DAY - 2, 1, ZERO_DAY - 2) == 0;
    var one := Counted(days, again[..1], ZERO_DAY - 2, 1, empty);
    assert one == WithDay(empty, 0, d) && |one.value| == 1;
    assert Counted(days, again, ZERO_DAY - 2, 1, empty) == WithDay(one.value, 1, c);
  }
}
