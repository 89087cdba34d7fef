/** Publication statistics: the totals by district, category and day, and the bins of the trend. */
module ReaderTrend {
  import opened Rows

  datatype Count = Count(total: nat, available: nat)
  datatype Bin = Bin(from: int, to: int, total: nat, available: nat)

  // ----- the first and the last day -----

  /** Days count from 1970-01-01. Go's zero time is the first day of year one. */
  const ZERO_DAY := -719162

  /** The first day of year 0, before which dates cannot be written. */
  const EARLIEST_DAY := ZERO_DAY - 366

  /** The day of the week with Sunday as 0; 1970-01-01 was a Thursday. */
  function Weekday(day: int): int { (day + 4) % 7 }

  /** The loop over the dates starts from the zero time and takes a zero time for "not set yet". */
  function NextFirst(first: int, day: int): int { if first == ZERO_DAY || day < first then day else first }
  function NextLast(last: int, day: int): int { if last == ZERO_DAY || day > last then day else last }

  function FirstDay(order: seq<int>): int {
    if order == [] then ZERO_DAY else NextFirst(FirstDay(order[..|order| - 1]), order[|order| - 1])
  }

  function LastDay(order: seq<int>): int {
    if order == [] then ZERO_DAY else NextLast(LastDay(order[..|order| - 1]), order[|order| - 1])
  }

  /** The order in which the map is iterated: any order of its keys. */
  ghost predicate Enumerates(order: seq<int>, days: set<int>) {
    && (forall d :: d in order <==> d in days)
    && (forall i, j | 0 <= i < j < |order| :: order[i] != order[j])
  }

  ghost predicate Spans(first: int, last: int, days: set<int>) {
    first in days && last in days && forall d | d in days :: first <= d <= last
  }

  /** The zero day is missing, alone, or neither the first nor the last. */
  predicate ZeroIsHarmless(days: set<int>) {
    ZERO_DAY !in days || days == {ZERO_DAY} || ((exists d | d in days :: d < ZERO_DAY) && exists d | d in days :: d > ZERO_DAY)
  }

  lemma {:induction false} FirstIsLeast(order: seq<int>)
    requires order != [] && (ZERO_DAY !in order || exists d | d in order :: d < ZERO_DAY)
    ensures FirstDay(order) in order && forall d | d in order :: FirstDay(order) <= d
    decreases |order|
  {
    var front, day := order[..|order| - 1], order[|order| - 1];
    assert order == front + [day];
    if front == [] {
    } else if ZERO_DAY !in front || exists d | d in front :: d < ZERO_DAY {
      FirstIsLeast(front);
    } else {
      FirstNotBelow(front);
    }
  }

  lemma {:induction false} FirstNotBelow(order: seq<int>)
    requires forall d | d in order :: d >= ZERO_DAY
    ensures FirstDay(order) >= ZERO_DAY
    decreases |order|
  {
    if order != [] {
      var front, day := order[..|order| - 1], order[|order| - 1];
      assert day in order && forall d | d in front :: d in order;
      FirstNotBelow(front);
    }
  }

  lemma {:induction false} OnlyZero(order: seq<int>)
    requires forall i | 0 <= i < |order| :: order[i] == ZERO_DAY
    ensures FirstDay(order) == ZERO_DAY && LastDay(order) == ZERO_DAY
    decreases |order|
  {
    if order != [] { OnlyZero(order[..|order| - 1]); }
  }

  /** A zero day that comes first is forgotten as soon as another day follows. */
  lemma {:induction false} LeadingZeroIsForgotten(order: seq<int>)
    requires |order| > 1 && order[0] == ZERO_DAY && forall i | 0 < i < |order| :: order[i] > ZERO_DAY
    ensures FirstDay(order) > ZERO_DAY
    decreases |order|
  {
    var front := order[..|order| - 1];
    if |front| > 1 { LeadingZeroIsForgotten(front); } else { assert front == [ZERO_DAY]; assert FirstDay(front[..0]) == ZERO_DAY; }
  }

  // The last day is the first day of the dates mirrored at the zero day.

  function Mirrored(d: int): int { 2 * ZERO_DAY - d }

  function Mirror(order: seq<int>): (m: seq<int>)
    ensures |m| == |order| && forall i | 0 <= i < |order| :: m[i] == Mirrored(order[i])
  {
    seq(|order|, i requires 0 <= i < |order| => Mirrored(order[i]))
  }

  lemma {:induction false} LastIsMirroredFirst(order: seq<int>)
    ensures LastDay(order) == Mirrored(FirstDay(Mirror(order)))
    decreases |order|
  {
    if order != [] {
      LastIsMirroredFirst(order[..|order| - 1]);
      assert Mirror(order)[..|order| - 1] == Mirror(order[..|order| - 1]);
    }
  }

  lemma MirroredDays(order: seq<int>)
    ensures forall d :: d in Mirror(order) <==> Mirrored(d) in order
  {
    forall d ensures d in Mirror(order) <==> Mirrored(d) in order {
      if d in Mirror(order) { var i :| 0 <= i < |order| && Mirror(order)[i] == d; assert Mirrored(d) == order[i]; }
      if Mirrored(d) in order { var i :| 0 <= i < |order| && order[i] == Mirrored(d); assert Mirror(order)[i] == d; }
    }
  }

  lemma LastIsGreatest(order: seq<int>)
    requires order != [] && (ZERO_DAY !in order || exists d | d in order :: d > ZERO_DAY)
    ensures LastDay(order) in order && forall d | d in order :: d <= LastDay(order)
  {
    LastIsMirroredFirst(order);
    MirroredDays(order);
    if d :| d in order && d > ZERO_DAY { assert Mirrored(Mirrored(d)) == d && Mirrored(d) in Mirror(order) && Mirrored(d) < ZERO_DAY; }
    assert Mirrored(ZERO_DAY) == ZERO_DAY;
    FirstIsLeast(Mirror(order));
    forall d | d in order ensures d <= LastDay(order) { assert Mirrored(Mirrored(d)) == d && Mirrored(d) in Mirror(order); }
  }

  lemma {:induction false} EnumerationExists(days: set<int>) returns (order: seq<int>)
    ensures Enumerates(order, days)
    decreases |days|
  {
    if days == {} {
      order := [];
    } else {
      var d := Member(days);
      var rest := EnumerationExists(days - {d});
      order := [d] + rest;
    }
  }

  /** The loop finds the first and the last day in every iteration order exactly if the zero day is harmless. */
  lemma SpanIsFound(days: set<int>)
    requires days != {}
    ensures (forall order | Enumerates(order, days) :: Spans(FirstDay(order), LastDay(order), days)) <==> ZeroIsHarmless(days)
  {
    if ZeroIsHarmless(days) {
      forall order | Enumerates(order, days) ensures Spans(FirstDay(order), LastDay(order), days) { HarmlessIsFound(days, order); }
    } else {
      var rest := EnumerationExists(days - {ZERO_DAY});
      var order := [ZERO_DAY] + rest;
      assert Enumerates(order, days);
      HarmfulIsMissed(days, order);
    }
  }

  lemma HarmlessIsFound(days: set<int>, order: seq<int>)
    requires days != {} && ZeroIsHarmless(days) && Enumerates(order, days)
    ensures Spans(FirstDay(order), LastDay(order), days)
  {
    var some := Member(days);
    assert some in order;
    if days == {ZERO_DAY} {
      forall i | 0 <= i < |order| ensures order[i] == ZERO_DAY { var d := order[i]; assert d in order; }
      OnlyZero(order);
    } else {
      FirstIsLeast(order);
      LastIsGreatest(order);
    }
  }

  lemma HarmfulIsMissed(days: set<int>, order: seq<int>)
    requires !ZeroIsHarmless(days) && Enumerates(order, days) && |order| > 0 && order[0] == ZERO_DAY
    ensures !Spans(FirstDay(order), LastDay(order), days)
  {
    var other := Member(days - {ZERO_DAY});
    assert other in order;
    if forall d | d in days :: d >= ZERO_DAY {
      forall i | 0 < i < |order| ensures order[i] > ZERO_DAY { var d := order[i]; assert d in order; }
      LeadingZeroIsForgotten(order);
    } else {
      LastIsMirroredFirst(order);
      var m := Mirror(order);
      forall i | 0 < i < |m| ensures m[i] > ZERO_DAY { var d := order[i]; assert d in order && d <= ZERO_DAY; }
      assert m[0] == ZERO_DAY;
      LeadingZeroIsForgotten(m);
    }
  }

  // ----- the bins -----

  function Monday(first: int): int { first - (Weekday(first) + 6) % 7 }
  function Weeks(first: int, last: int): int { (last - Monday(first)) / 7 + 1 }
  function Width(weeks: int): int { (weeks + 103) / 104 }
  function BinCount(weeks: int, width: int): int
    requires width > 0
  {
    (weeks + width - 1) / width
  }

  /** Bins of whole weeks begin on a Monday, and no narrower bins would be few enough. */
  lemma WidthIsLeast(weeks: int, width: int)
    requires weeks > 0 && width > 0 && BinCount(weeks, width) <= 104
    ensures 0 < Width(weeks) <= width
  {
    if width < Width(weeks) { LeastWidth(weeks, width); }
  }

  lemma LeastWidth(weeks: int, width: int)
    requires weeks > 0 && 0 < width < (weeks + 103) / 104
    ensures BinCount(weeks, width) > 104
  {
    assert weeks + 103 >= 104 * (width + 1);
    Quotients(weeks + width - 1, width, 105);
  }

  lemma Quotients(n: int, d: int, q: int)
    requires d > 0 && n >= q * d
    ensures n / d >= q
  {
    if n / d < q { Below(n / d + 1, q, d); }
  }

  lemma Below(a: int, b: int, d: int)
    requires a <= b && d > 0
    ensures a * d <= b * d
  {
  }

  lemma BinsAreFew(weeks: int)
    requires weeks > 0
    ensures Width(weeks) > 0 && 0 < BinCount(weeks, Width(weeks)) <= 104
  {
    var width := Width(weeks);
    assert 104 * width >= weeks;
    Bounded(weeks + width - 1, width, 104);
    Quotients(weeks + width - 1, width, 1);
  }

  lemma Bounded(n: int, d: int, q: int)
    requires d > 0 && n < (q + 1) * d
    ensures n / d <= q
  {
    if n / d > q { Below(q + 1, n / d, d); }
  }

  lemma MondayIsMonday(first: int)
    ensures Weekday(Monday(first)) == 1 && Monday(first) <= first < Monday(first) + 7
  {
  }

  function BinOf(first: int, width: int, day: int): int
    requires width > 0
  {
    (day - Monday(first)) / 7 / width
  }

  function BinFrom(first: int, width: int, index: int): int { Monday(first) + index * width * 7 }
  function BinTo(first: int, width: int, index: int): int { BinFrom(first, width, index) + width * 7 - 1 }

  predicate InBin(first: int, width: int, index: int, day: int) { BinFrom(first, width, index) <= day <= BinTo(first, width, index) }

  /** Each day lies in the bin it is counted in and in no other. */
  lemma BinIsUnique(first: int, last: int, width: int, day: int, index: int)
    requires width > 0 && Monday(first) <= day <= last
    ensures InBin(first, width, index, day) <==> index == BinOf(first, width, day)
    ensures 0 <= BinOf(first, width, day) < BinCount(Weeks(first, last), width)
  {
    var week := (day - Monday(first)) / 7;
    MondayIsMonday(first);
    InWeeks(week, day - Monday(first), width, index);
    WeekInRange(week, Weeks(first, last), width);
  }

  /** Days of `width` weeks, counted from a Monday. */
  lemma InWeeks(week: int, offset: int, width: int, index: int)
    requires width > 0 && week == offset / 7
    ensures index * width * 7 <= offset <= index * width * 7 + width * 7 - 1 <==> index == week / width
  {
    var q, start := week / width, index * width;
    assert q * width <= week < q * width + width;
    assert start * 7 <= offset <= start * 7 + width * 7 - 1 <==> start <= week < start + width;
    if index < q { Below(index + 1, q, width); }
    if index > q { Below(q + 1, index, width); }
  }

  lemma WeekInRange(week: int, weeks: int, width: int)
    requires width > 0 && 0 <= week < weeks
    ensures 0 <= week / width < BinCount(weeks, width)
  {
    Quotients(weeks + width - 1, width, week / width + 1);
  }

  // ----- counting into the bins -----

  function Plus(a: Count, b: Count): Count { Count(a.total + b.total, a.available + b.available) }

  function CountOn(days: map<int, Count>, d: int): Count { if d in days then days[d] else Count(0, 0) }

  /** All publications of `n` days from one day on. */
  function SumOf(days: map<int, Count>, from: int, n: nat): Count {
    if n == 0 then Count(0, 0) else Plus(SumOf(days, from, n - 1), CountOn(days, from + n - 1))
  }

  /** All publications of the days from one day to another. */
  function SumDays(days: map<int, Count>, from: int, to: int): Count {
    SumOf(days, from, if from <= to then to - from + 1 else 0)
  }

  lemma {:induction false} SumWithDay(days: map<int, Count>, d: int, c: Count, from: int, n: nat)
    requires d !in days
    ensures SumOf(days[d := c], from, n) == Plus(SumOf(days, from, n), if from <= d < from + n then c else Count(0, 0))
    decreases n
  {
    if n > 0 {
      SumWithDay(days, d, c, from, n - 1);
      assert CountOn(days[d := c], from + n - 1) == if d == from + n - 1 then c else CountOn(days, from + n - 1);
    }
  }

  lemma {:induction false} SumNothing(from: int, n: nat)
    ensures SumOf(map[], from, n) == Count(0, 0)
    decreases n
  {
    if n > 0 { SumNothing(from, n - 1); }
  }

  lemma {:induction false} SumSplits(days: map<int, Count>, from: int, m: nat, n: nat)
    ensures SumOf(days, from, m + n) == Plus(SumOf(days, from, m), SumOf(days, from + m, n))
    decreases n
  {
    if n > 0 { SumSplits(days, from, m, n - 1); }
  }

  lemma SumInParts(days: map<int, Count>, from: int, middle: int, to: int)
    requires from <= middle + 1 && middle <= to
    ensures SumDays(days, from, to) == Plus(SumDays(days, from, middle), SumDays(days, middle + 1, to))
  {
    SumSplits(days, from, middle + 1 - from, to - middle);
  }

  /** The bins with the publications of some days. */
  ghost predicate AreBins(days: map<int, Count>, first: int, width: int, bins: seq<Bin>) {
    forall i | 0 <= i < |bins| ::
      && bins[i].from == BinFrom(first, width, i) && bins[i].to == BinTo(first, width, i)
      && Count(bins[i].total, bins[i].available) == SumDays(days, bins[i].from, bins[i].to)
  }

  /** The trend: as few weeks per bin as 104 bins allow, from the Monday of the first day to the last day. */
  ghost predicate IsTrend(days: map<int, Count>, bins: seq<Bin>, width: int) {
    exists first, last :: Spans(first, last, days.Keys) && width == Width(Weeks(first, last)) &&
      |bins| == BinCount(Weeks(first, last), Width(Weeks(first, last))) && AreBins(days, first, width, bins)
  }

  function EmptyBins(first: int, width: int, n: nat): (bins: seq<Bin>)
    ensures |bins| == n && forall i | 0 <= i < n :: bins[i] == Bin(BinFrom(first, width, i), BinTo(first, width, i), 0, 0)
  {
    seq(n, i requires 0 <= i < n => Bin(BinFrom(first, width, i), BinTo(first, width, i), 0, 0))
  }

  lemma EmptyBinsAreBins(first: int, width: int, n: nat)
    requires width > 0
    ensures AreBins(map[], first, width, EmptyBins(first, width, n))
  {
    SumNothing(0, 0);
    forall i | 0 <= i < n ensures SumDays(map[], BinFrom(first, width, i), BinTo(first, width, i)) == Count(0, 0) {
      SumNothing(BinFrom(first, width, i), width * 7);
    }
  }

  lemma CountsDay(seen: map<int, Count>, first: int, last: int, width: int, bins: seq<Bin>, d: int, c: Count)
    requires width > 0 && Monday(first) <= d <= last && d !in seen && AreBins(seen, first, width, bins) && |bins| == BinCount(Weeks(first, last), width)
    ensures var i := BinOf(first, width, d);
            0 <= i < |bins| && AreBins(seen[d := c], first, width, bins[i := bins[i].(total := bins[i].total + c.total, available := bins[i].available + c.available)])
  {
    var index := BinOf(first, width, d);
    BinIsUnique(first, last, width, d, index);
    var more := bins[index := bins[index].(total := bins[index].total + c.total, available := bins[index].available + c.available)];
    forall i | 0 <= i < |more|
      ensures more[i].from == BinFrom(first, width, i) && more[i].to == BinTo(first, width, i)
      ensures Count(more[i].total, more[i].available) == SumDays(seen[d := c], more[i].from, more[i].to)
    {
      BinIsUnique(first, last, width, d, i);
      SumWithDay(seen, d, c, more[i].from, width * 7);
    }
  }

  /** Integer division of the source, which rounds towards zero. */
  function Truncated(a: int, b: int): int
    requires b > 0
  {
    if a >= 0 then a / b else -((-a) / b)
  }

  function IndexOf(first: int, width: int, day: int): int
    requires width > 0
  {
    Truncated(Truncated(day - Monday(first), 7), width)
  }

  /** One more day in its bin; None stands for an index that is out of range. */
  function WithDay(bins: seq<Bin>, index: int, c: Count): (more: Option<seq<Bin>>)
    ensures more.Some? <==> 0 <= index < |bins|
  {
    if 0 <= index < |bins|
    then Some(bins[index := bins[index].(total := bins[index].total + c.total, available := bins[index].available + c.available)])
    else None
  }

  /** The second loop over the days. */
  function Counted(days: map<int, Count>, again: seq<int>, first: int, width: int, empty: seq<Bin>): Option<seq<Bin>>
    requires width > 0 && forall d | d in again :: d in days
    decreases |again|
  {
    if again == [] then Some(empty) else
      var d := again[|again| - 1];
      match Counted(days, again[..|again| - 1], first, width, empty)
      case None => None
      case Some(bins) => WithDay(bins, IndexOf(first, width, d), days[d])
  }

  lemma {:induction false} FirstIsNotAfterLast(order: seq<int>)
    ensures FirstDay(order) <= LastDay(order)
    decreases |order|
  {
    if order != [] { FirstIsNotAfterLast(order[..|order| - 1]); }
  }

  lemma SpanHasWeeks(first: int, last: int)
    requires first <= last
    ensures Weeks(first, last) > 0 && Width(Weeks(first, last)) > 0 && BinCount(Weeks(first, last), Width(Weeks(first, last))) > 0
  {
    MondayIsMonday(first);
    BinsAreFew(Weeks(first, last));
  }

  /** The bins and their width, given the orders in which the two loops visit the days; None stands for a panic. */
  function Trend(days: map<int, Count>, order: seq<int>, again: seq<int>): Option<(seq<Bin>, int)>
    requires forall d | d in again :: d in days
  {
    if order == [] then Some(([], 1)) else
      var first, last := FirstDay(order), LastDay(order);
      FirstIsNotAfterLast(order);
      SpanHasWeeks(first, last);
      var width := Width(Weeks(first, last));
      match Counted(days, again, first, width, EmptyBins(first, width, BinCount(Weeks(first, last), width)))
      case None => None
      case Some(bins) => Some((bins, width))
  }

  method PublicationTrend(days: map<int, Count>, order: seq<int>, again: seq<int>) returns (bins: seq<Bin>, width: int, panicked: bool)
    requires Enumerates(order, days.Keys) && Enumerates(again, days.Keys)
    ensures Trend(days, order, again) == if panicked then None else Some((bins, width))
  {
    if days == map[] {
      HasSome(order);
      return [], 1, false;
    }
    assert order != [] by {
      var some := Member(days.Keys);
      assert some in order;
    }
    var first, last := ZERO_DAY, ZERO_DAY;
    for k := 0 to |order|
      invariant first == FirstDay(order[..k]) && last == LastDay(order[..k])
    {
      assert order[..k + 1][..k] == order[..k];
      first, last := NextFirst(first, order[k]), NextLast(last, order[k]);
    }
    assert order[..|order|] == order;
    FirstIsNotAfterLast(order);
    SpanHasWeeks(first, last);
    width := Width(Weeks(first, last));
    bins, panicked := CountDays(days, again, first, width, EmptyBins(first, width, BinCount(Weeks(first, last), width)));
  }

  lemma HasSome(order: seq<int>)
    ensures order == [] || exists d :: d in order
  {
    if order != [] {
      var d := order[0];
      assert d in order;
    }
  }

  method CountDays(days: map<int, Count>, again: seq<int>, first: int, width: int, empty: seq<Bin>) returns (bins: seq<Bin>, panicked: bool)
    requires width > 0 && forall d | d in again :: d in days
    ensures Counted(days, again, first, width, empty) == if panicked then None else Some(bins)
  {
    bins := empty;
    for k := 0 to |again|
      invariant Counted(days, again[..k], first, width, empty) == Some(bins)
    {
      var d := again[k];
      assert d in again && again[..k + 1][..k] == again[..k];
      var index := IndexOf(first, width, d);
      if index < 0 || index >= |bins| {
        PanicsAtLast(days, again, first, width, empty, k + 1);
        return bins, true;
      }
      bins := bins[index := bins[index].(total := bins[index].total + days[d].total, available := bins[index].available + days[d].available)];
    }
    assert again[..|again|] == again;
    panicked := false;
  }

  lemma {:induction false} PanicsAtLast(days: map<int, Count>, again: seq<int>, first: int, width: int, empty: seq<Bin>, k: nat)
    requires width > 0 && (forall d | d in again :: d in days) && k <= |again| && Counted(days, again[..k], first, width, empty) == None
    ensures Counted(days, again, first, width, empty) == None
    decreases |again|
  {
    if k < |again| {
      assert again[..|again| - 1][..k] == again[..k];
      PanicsAtLast(days, again[..|again| - 1], first, width, empty, k);
    } else {
      assert again[..k] == again;
    }
  }

  // ----- what the trend is -----

  function SumBins(bins: seq<Bin>): Count {
    if bins == [] then Count(0, 0) else Plus(SumBins(bins[..|bins| - 1]), Count(bins[|bins| - 1].total, bins[|bins| - 1].available))
  }

  /** Bins that follow each other without gaps, each with the publications of its days. */
  ghost predicate Contiguous(days: map<int, Count>, bins: seq<Bin>) {
    && (forall i | 0 <= i < |bins| - 1 :: bins[i + 1].from == bins[i].to + 1)
    && (forall i | 0 <= i < |bins| :: bins[i].from <= bins[i].to)
    && (forall i | 0 <= i < |bins| :: Count(bins[i].total, bins[i].available) == SumDays(days, bins[i].from, bins[i].to))
  }

  lemma {:induction false} BinsAddUp(days: map<int, Count>, bins: seq<Bin>)
    requires bins != [] && Contiguous(days, bins)
    ensures bins[0].from <= bins[|bins| - 1].to && SumBins(bins) == SumDays(days, bins[0].from, bins[|bins| - 1].to)
    decreases |bins|
  {
    var last := |bins| - 1;
    if last == 0 {
      assert bins[..0] == [];
    } else {
      var front := bins[..last];
      BinsAddUp(days, front);
      assert bins[last].from == bins[last - 1].to + 1;
      SumInParts(days, bins[0].from, bins[last - 1].to, bins[last].to);
    }
  }

  /** At most 104 bins, contiguous and beginning on Mondays, of the least possible width, with every day in
  exactly one of them. */
  lemma TrendIsWellFormed(days: map<int, Count>, bins: seq<Bin>, width: int)
    requires IsTrend(days, bins, width)
    ensures 0 < |bins| <= 104 && width > 0
    ensures forall i | 0 <= i < |bins| :: Weekday(bins[i].from) == 1 && bins[i].to == bins[i].from + 7 * width - 1
    ensures forall i | 0 <= i < |bins| - 1 :: bins[i + 1].from == bins[i].to + 1
    ensures forall d | d in days :: exists i | 0 <= i < |bins| :: bins[i].from <= d <= bins[i].to
  {
    var first, last :| Spans(first, last, days.Keys) && width == Width(Weeks(first, last)) &&
      |bins| == BinCount(Weeks(first, last), Width(Weeks(first, last))) && AreBins(days, first, width, bins);
    MondayIsMonday(first);
    BinsAreFew(Weeks(first, last));
    forall i | 0 <= i < |bins| ensures Weekday(bins[i].from) == 1 && bins[i].to == bins[i].from + 7 * width - 1 {
      WeeksLater(Monday(first), i * width);
    }
    forall i | 0 <= i < |bins| - 1 ensures bins[i + 1].from == bins[i].to + 1 { assert (i + 1) * width == i * width + width; }
    forall d | d in days ensures exists i | 0 <= i < |bins| :: bins[i].from <= d <= bins[i].to {
      var i := BinOf(first, width, d);
      BinIsUnique(first, last, width, d, i);
      assert bins[i].from <= d <= bins[i].to;
    }
  }

  lemma WeeksLater(day: int, weeks: int)
    ensures Weekday(day + weeks * 7) == Weekday(day)
  {
  }

  /** The bins hold exactly the publications of the days, no more and no fewer. */
  lemma TrendConserves(days: map<int, Count>, bins: seq<Bin>, width: int, from: int, to: int)
    requires IsTrend(days, bins, width) && |bins| > 0 && forall d | d in days :: from <= d <= to
    requires from <= bins[0].from && bins[|bins| - 1].to <= to
    ensures SumBins(bins) == SumDays(days, from, to)
  {
    TrendIsWellFormed(days, bins, width);
    TrendIsContiguous(days, bins, width);
    BinsAddUp(days, bins);
    DaysAreInside(days, bins, width);
    SumWhole(days, from, bins[0].from, bins[|bins| - 1].to, to);
  }

  lemma DaysAreInside(days: map<int, Count>, bins: seq<Bin>, width: int)
    requires IsTrend(days, bins, width) && |bins| > 0
    ensures forall d | d in days :: bins[0].from <= d <= bins[|bins| - 1].to
  {
    TrendIsWellFormed(days, bins, width);
    TrendIsContiguous(days, bins, width);
    forall d | d in days ensures bins[0].from <= d <= bins[|bins| - 1].to {
      var i :| 0 <= i < |bins| && bins[i].from <= d <= bins[i].to;
      InOrder(days, bins, 0, i);
      InOrder(days, bins, i, |bins| - 1);
    }
  }

  lemma SumWhole(days: map<int, Count>, from: int, start: int, end: int, to: int)
    requires from <= start <= end <= to && forall d | d in days :: start <= d <= end
    ensures SumDays(days, from, to) == SumDays(days, start, end)
  {
    SumInParts(days, from, start - 1, to);
    SumInParts(days, start, end, to);
    NoDaysThere(days, from, start - 1);
    NoDaysThere(days, end + 1, to);
  }

  lemma TrendIsContiguous(days: map<int, Count>, bins: seq<Bin>, width: int)
    requires IsTrend(days, bins, width)
    ensures Contiguous(days, bins)
  {
    TrendIsWellFormed(days, bins, width);
    var first, last :| Spans(first, last, days.Keys) && width == Width(Weeks(first, last)) &&
      |bins| == BinCount(Weeks(first, last), Width(Weeks(first, last))) && AreBins(days, first, width, bins);
  }

  lemma {:induction false} InOrder(days: map<int, Count>, bins: seq<Bin>, i: int, j: int)
    requires Contiguous(days, bins) && 0 <= i <= j < |bins|
    ensures bins[i].from <= bins[j].from && bins[i].to <= bins[j].to
    decreases j - i
  {
    if i < j {
      InOrder(days, bins, i, j - 1);
      assert bins[j].from == bins[j - 1].to + 1;
    }
  }

  lemma NoDaysThere(days: map<int, Count>, from: int, to: int)
    requires forall d | d in days :: !(from <= d <= to)
    ensures SumDays(days, from, to) == Count(0, 0)
  {
    NoDays(days, from, if from <= to then to - from + 1 else 0);
  }

  lemma {:induction false} NoDays(days: map<int, Count>, from: int, n: nat)
    requires forall d | d in days :: !(from <= d < from + n)
    ensures SumOf(days, from, n) == Count(0, 0)
    decreases n
  {
    if n > 0 { NoDays(days, from, n - 1); }
  }
}
