/** Simplifying a boundary chain: Douglas-Peucker as a worklist, against its recursive form.

The squared distance of a point to a segment is a parameter here, because nothing depends on how it is
computed; `MapDistance` says what it is. */
module MapSimplify {
  import opened Rows
  import opened MapDistance

  type Measure = (Point, Point, Point) -> real

  const TOLERANCE_SQUARED := 100.0

  // ----- the recursive form -----

  /** The first of the farthest inner points before `end`, with its squared distance; `first` itself if no
  inner point is off the segment. */
  function Farthest(d: Measure, points: seq<Point>, first: int, last: int, end: int): (far: (int, real))
    requires 0 <= first <= last < |points| && first < end <= last + 1
    ensures far.1 >= 0.0 && (far.0 == first || first < far.0 < end)
    ensures far.0 == first ==> far.1 == 0.0
    ensures far.0 != first ==> far.1 == d(points[far.0], points[first], points[last])
    ensures forall i | first < i < end :: d(points[i], points[first], points[last]) <= far.1
    decreases end - first
  {
    if end == first + 1 then (first, 0.0) else
      var before := Farthest(d, points, first, last, end - 1);
      var candidate := d(points[end - 1], points[first], points[last]);
      if candidate > before.1 then (end - 1, candidate) else before
  }

  function FarthestInner(d: Measure, points: seq<Point>, first: int, last: int): (far: (int, real))
    requires 0 <= first <= last < |points|
    ensures far.1 > TOLERANCE_SQUARED ==> first < far.0 < last && far.1 == d(points[far.0], points[first], points[last])
    ensures forall i | first < i < last :: d(points[i], points[first], points[last]) <= far.1
  {
    Farthest(d, points, first, last, if first < last then last else last + 1)
  }

  /** The inner points that are kept. */
  function Kept(d: Measure, points: seq<Point>, first: int, last: int): (kept: set<int>)
    requires 0 <= first <= last < |points|
    ensures forall k | k in kept :: first < k < last
    decreases last - first
  {
    var (m, distance) := FarthestInner(d, points, first, last);
    if distance > TOLERANCE_SQUARED then Kept(d, points, first, m) + {m} + Kept(d, points, m, last) else {}
  }

  function Keep(d: Measure, points: seq<Point>): (keep: set<int>)
    requires |points| > 0
    ensures 0 in keep && |points| - 1 in keep && forall k | k in keep :: 0 <= k < |points|
  {
    {0, |points| - 1} + Kept(d, points, 0, |points| - 1)
  }

  function Ascending(): (int, int) -> bool { (a: int, b: int) => a < b }

  /** The points at some indices, in their order. */
  function Chosen(points: seq<Point>, indices: seq<int>): (chosen: seq<Point>)
    requires forall i | 0 <= i < |indices| :: 0 <= indices[i] < |points|
    ensures |chosen| == |indices| && forall i | 0 <= i < |indices| :: chosen[i] == points[indices[i]]
  {
    seq(|indices|, i requires 0 <= i < |indices| => points[indices[i]])
  }

  function SortedIndices(keep: set<int>): (indices: seq<int>)
    ensures forall k :: k in indices <==> k in keep
    ensures forall i, j | 0 <= i < j < |indices| :: indices[i] < indices[j]
  {
    Sorted(keep, Ascending())
  }

  function SimplifiedBy(d: Measure, points: seq<Point>): (simplified: seq<Point>)
    requires |points| > 0
  {
    ChooseSorted(points, Keep(d, points))
  }

  function ChooseSorted(points: seq<Point>, keep: set<int>): seq<Point>
    requires forall k | k in keep :: 0 <= k < |points|
  {
    var indices := SortedIndices(keep);
    assert forall i | 0 <= i < |indices| :: indices[i] in indices;
    Chosen(points, indices)
  }

  /** Two kept points around an index, with nothing kept between them. */
  predicate Enclose(keep: set<int>, a: int, i: int, b: int) {
    a in keep && b in keep && a < i < b && forall k | k in keep :: !(a < k < b)
  }

  /** Every dropped point lies within the tolerance of the segment between the kept points around it. */
  lemma DroppedPointsAreNear(d: Measure, points: seq<Point>, i: int)
    requires 0 <= i < |points| && i !in Keep(d, points)
    ensures exists a, b :: Enclose(Keep(d, points), a, i, b) && 0 <= a < b < |points| && d(points[i], points[a], points[b]) <= TOLERANCE_SQUARED
  {
    var a, b := Around(d, points, 0, |points| - 1, i);
  }

  lemma {:induction false} Around(d: Measure, points: seq<Point>, first: int, last: int, i: int) returns (a: int, b: int)
    requires 0 <= first < i < last < |points| && i !in Kept(d, points, first, last)
    ensures Enclose({first, last} + Kept(d, points, first, last), a, i, b) && first <= a < b <= last
    ensures d(points[i], points[a], points[b]) <= TOLERANCE_SQUARED
    decreases last - first
  {
    var m, distance := FarthestInner(d, points, first, last).0, FarthestInner(d, points, first, last).1;
    if distance <= TOLERANCE_SQUARED {
      a, b := first, last;
    } else if i < m {
      a, b := Around(d, points, first, m, i);
      Widen({first, m} + Kept(d, points, first, m), {first, last} + Kept(d, points, first, last), first, m, a, i, b);
    } else {
      a, b := Around(d, points, m, last, i);
      Widen({m, last} + Kept(d, points, m, last), {first, last} + Kept(d, points, first, last), m, last, a, i, b);
    }
  }

  lemma Widen(inner: set<int>, outer: set<int>, low: int, high: int, a: int, i: int, b: int)
    requires Enclose(inner, a, i, b) && inner <= outer && low <= a && b <= high
    requires forall k | k in outer && k !in inner :: k <= low || high <= k
    ensures Enclose(outer, a, i, b)
  {
    forall k | k in outer ensures !(a < k < b) { assert k in inner || k <= low || high <= k; }
  }

  // ----- the worklist -----

  /** What the pairs of the worklist will still add. */
  ghost function ToAdd(d: Measure, points: seq<Point>, work: seq<(int, int)>): set<int>
    requires Pairs(points, work)
  {
    if work == [] then {}
    else
      var rest, top := work[..|work| - 1], work[|work| - 1];
      assert top in work && forall w | w in rest :: w in work;
      ToAdd(d, points, rest) + Kept(d, points, top.0, top.1)
  }

  ghost predicate Pairs(points: seq<Point>, work: seq<(int, int)>) {
    forall w | w in work :: 0 <= w.0 <= w.1 < |points|
  }

  ghost function Width(w: (int, int)): nat {
    if w.0 < w.1 then 2 * (w.1 - w.0) - 1 else 1
  }

  /** Steps left: splitting a pair always leaves less. */
  ghost function Steps(work: seq<(int, int)>): nat {
    if work == [] then 0 else Steps(work[..|work| - 1]) + Width(work[|work| - 1])
  }

  lemma PushTwo(d: Measure, points: seq<Point>, work: seq<(int, int)>, first: int, m: int, last: int)
    requires Pairs(points, work) && 0 <= first < m < last < |points|
    ensures var more := work + [(first, m), (m, last)];
            && Pairs(points, more) && Steps(more) == Steps(work) + 2 * (last - first) - 2
            && ToAdd(d, points, more) == ToAdd(d, points, work) + Kept(d, points, first, m) + Kept(d, points, m, last)
  {
    var one := work + [(first, m)];
    var more := work + [(first, m), (m, last)];
    assert more[..|more| - 1] == one && one[..|one| - 1] == work;
  }

  /** The inner scan of simplify. */
  method FindFarthest(d: Measure, points: seq<Point>, first: int, last: int) returns (index: int, distance: real)
    requires 0 <= first <= last < |points|
    ensures (index, distance) == FarthestInner(d, points, first, last)
  {
    index, distance := first, 0.0;
    var i := first + 1;
    while i < last
      invariant first < i && (i <= last || i == first + 1)
      invariant (index, distance) == Farthest(d, points, first, last, i)
    {
      var candidate := d(points[i], points[first], points[last]);
      if candidate > distance {
        distance, index := candidate, i;
      }
      i := i + 1;
    }
  }

  method KeepIndices(d: Measure, points: seq<Point>) returns (keep: set<int>)
    requires |points| > 0
    ensures keep == Keep(d, points)
  {
    keep := {0, |points| - 1};
    var work := [(0, |points| - 1)];
    StartWork(d, points);
    while work != []
      invariant Pairs(points, work)
      invariant keep + ToAdd(d, points, work) == Keep(d, points)
      decreases Steps(work)
    {
      assert work[|work| - 1] in work;
      var first, last := work[|work| - 1].0, work[|work| - 1].1;
      var index, distance := FindFarthest(d, points, first, last);
      Round(d, points, work, keep, index, distance);
      work := work[..|work| - 1];
      if distance > TOLERANCE_SQUARED {
        keep := keep + {index};
        work := work + [(first, index), (index, last)];
      }
    }
  }

  lemma StartWork(d: Measure, points: seq<Point>)
    requires |points| > 0
    ensures Pairs(points, [(0, |points| - 1)]) && {0, |points| - 1} + ToAdd(d, points, [(0, |points| - 1)]) == Keep(d, points)
  {
    var work := [(0, |points| - 1)];
    assert work[..0] == [];
  }

  method SimplifyBy(d: Measure, points: seq<Point>) returns (simplified: seq<Point>)
    requires |points| > 0
    ensures simplified == SimplifiedBy(d, points)
  {
    var keep := KeepIndices(d, points);
    simplified := ChooseSorted(points, keep);
  }

  /** One round of the worklist keeps its invariant and leaves fewer steps. */
  lemma Round(d: Measure, points: seq<Point>, work: seq<(int, int)>, keep: set<int>, index: int, distance: real)
    requires |points| > 0 && Pairs(points, work) && work != [] && keep + ToAdd(d, points, work) == Keep(d, points)
    requires var w := work[|work| - 1]; w in work && (index, distance) == FarthestInner(d, points, w.0, w.1)
    ensures var (rest, w) := (work[..|work| - 1], work[|work| - 1]);
            if distance > TOLERANCE_SQUARED then
              var more := rest + [(w.0, index), (index, w.1)];
              Pairs(points, more) && keep + {index} + ToAdd(d, points, more) == Keep(d, points) && Steps(more) < Steps(work)
            else Pairs(points, rest) && keep + ToAdd(d, points, rest) == Keep(d, points) && Steps(rest) < Steps(work)
  {
    var rest, w := work[..|work| - 1], work[|work| - 1];
    PopOne(d, points, work);
    if distance > TOLERANCE_SQUARED {
      PushTwo(d, points, rest, w.0, index, w.1);
      Regroup(keep, ToAdd(d, points, rest), Kept(d, points, w.0, index), index, Kept(d, points, index, w.1));
    }
  }

  lemma Regroup(keep: set<int>, rest: set<int>, left: set<int>, m: int, right: set<int>)
    ensures keep + {m} + (rest + left + right) == keep + (rest + (left + {m} + right))
  {
  }

  lemma PopOne(d: Measure, points: seq<Point>, work: seq<(int, int)>)
    requires Pairs(points, work) && work != []
    ensures var (rest, first, last) := (work[..|work| - 1], work[|work| - 1].0, work[|work| - 1].1);
            && Pairs(points, rest) && 0 <= first <= last < |points|
            && Steps(work) == Steps(rest) + Width((first, last))
            && ToAdd(d, points, work) == ToAdd(d, points, rest) +
                 (var (m, distance) := FarthestInner(d, points, first, last);
                  if distance > TOLERANCE_SQUARED then Kept(d, points, first, m) + {m} + Kept(d, points, m, last) else {})
  {
    assert work[|work| - 1] in work && forall w | w in work[..|work| - 1] :: w in work;
  }

  // ----- with the distance to a segment -----

  /** A dropped point has a point of the simplified line within ten metres. */
  lemma DroppedPointsAreWithinTenMetres(points: seq<Point>, i: int)
    requires 0 <= i < |points| && i !in Keep(SegmentDistanceSquared, points)
    ensures exists a, b, t :: Enclose(Keep(SegmentDistanceSquared, points), a, i, b) && 0 <= a < b < |points| && 0.0 <= t <= 1.0 &&
              DistanceSquaredAt(points[i], points[a], points[b], t) <= 10.0 * 10.0
  {
    DroppedPointsAreNear(SegmentDistanceSquared, points, i);
    var a, b :| Enclose(Keep(SegmentDistanceSquared, points), a, i, b) && 0 <= a < b < |points| &&
      SegmentDistanceSquared(points[i], points[a], points[b]) <= TOLERANCE_SQUARED;
    SegmentDistanceIsReached(points[i], points[a], points[b]);
  }
}
