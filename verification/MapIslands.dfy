/** Rings with fewer than two junctions, which are split at a fixed point and at the point farthest from it. */
module MapIslands {
  import opened Rows
  import opened MapDistance
  import opened MapSimplify
  import opened MapRings
  import opened MapTies
  import opened MapBorders

  // ----- a ring followed the other way -----

  /** The other ring has the same points in the opposite order; its first one is at `o` in this one. */
  predicate IsTurnedRing(points: seq<Point>, others: seq<Point>, o: int) {
    |others| == |points| && 0 <= o < |points| && forall t | 0 <= t < |others| :: others[t] == At(points, o + |points| - t)
  }

  /** Where the other ring has the point of an index. */
  function Opposed(n: int, o: int, i: int): (t: int)
    requires 0 <= o < n && 0 <= i < n
    ensures 0 <= t < n
  {
    if i <= o then o - i else o + n - i
  }

  lemma OpposedPoint(points: seq<Point>, others: seq<Point>, o: int, i: int)
    requires IsTurnedRing(points, others, o) && 0 <= i < |points|
    ensures others[Opposed(|points|, o, i)] == points[i]
  {
  }

  lemma ChainIsRun(points: seq<Point>, first: int, last: int)
    requires 0 <= first < |points| && 0 <= last < |points| && first != last
    ensures IsRun(points, first, Chain(points, first, last)) && EndOf(points, first, Chain(points, first, last)) == last
  {
  }

  lemma TurnedRun(points: seq<Point>, others: seq<Point>, o: int, i: int, run: seq<Point>)
    requires IsTurnedRing(points, others, o) && IsRun(points, i, run)
    ensures var j := Opposed(|points|, o, EndOf(points, i, run));
            IsRun(others, j, Reversed(run)) && EndOf(others, j, Reversed(run)) == Opposed(|points|, o, i)
  {
    var j := Opposed(|points|, o, EndOf(points, i, run));
    forall u | 0 <= u < |run| ensures Reversed(run)[u] == At(others, j + u) {
      var q := i + |run| - 1 - u;
      var k := if q < |points| then q else q - |points|;
      assert run[|run| - 1 - u] == At(points, q);
      OpposedPoint(points, others, o, k);
    }
  }

  // ----- the fixed point and the farthest one -----

  lemma {:induction false} LeastIsLeast(points: seq<Point>, n: nat)
    requires 0 < n <= |points|
    ensures forall i | 0 <= i < n :: !Less(points[i], points[LeastIndex(points, n)])
    decreases n
  {
    if n > 1 { LeastIsLeast(points, n - 1); }
  }

  /** The fixed point of a ring: its only junction, or its least point. */
  predicate IsAnchor(points: seq<Point>, junctions: set<Point>, a: Point) {
    a in points && if a in junctions then (forall p | p in points && p in junctions :: p == a)
                   else (forall p | p in points :: p !in junctions && !Less(p, a))
  }

  lemma AnchorIsUnique(points: seq<Point>, others: seq<Point>, junctions: set<Point>, a: Point, b: Point)
    requires IsAnchor(points, junctions, a) && IsAnchor(others, junctions, b) && forall p :: p in points <==> p in others
    ensures a == b
  {
  }

  /** One point is farther from the anchor than all others. */
  predicate IsFarthest(d: Measure, points: seq<Point>, a: Point, f: Point) {
    f in points && f != a && forall p | p in points && p != f :: d(p, a, a) < d(f, a, a)
  }

  /** The ring is split at its anchor and at the point farthest from it. */
  lemma IslandIsSplit(d: Measure, points: seq<Point>, junctions: set<Point>, a: Point, f: Point) returns (i: int, j: int)
    requires points != [] && Distinct(points) && |JunctionSplits(points, junctions, |points|)| < 2
    requires IsAnchor(points, junctions, a) && IsFarthest(d, points, a, f)
    ensures 0 <= i < |points| && 0 <= j < |points| && i != j && points[i] == a && points[j] == f
    ensures Splits(d, points, junctions) == Both(i, j)
  {
    var found := JunctionSplits(points, junctions, |points|);
    i := if |found| > 0 then found[0] else LeastIndex(points, |points|);
    AnchorAt(points, junctions, found, i);
    AnchorIsUnique(points, points, junctions, points[i], a);
    j := FarthestIndex(d, points, points[i], |points|);
    FarthestAt(d, points, a, f, j);
  }

  lemma AnchorAt(points: seq<Point>, junctions: set<Point>, found: seq<int>, i: int)
    requires points != [] && found == JunctionSplits(points, junctions, |points|) && |found| < 2
    requires i == if |found| > 0 then found[0] else LeastIndex(points, |points|)
    ensures 0 <= i < |points| && IsAnchor(points, junctions, points[i])
  {
    LeastIsLeast(points, |points|);
    if |found| > 0 { assert found[0] in found; }
    forall p | p in points && p in junctions ensures |found| > 0 && p == points[i] {
      var k :| 0 <= k < |points| && points[k] == p;
      assert k in found;
      assert found == [k];
    }
  }

  lemma FarthestAt(d: Measure, points: seq<Point>, a: Point, f: Point, j: int)
    requires 0 <= j < |points| && IsFarthest(d, points, a, f)
    requires forall k | 0 <= k < |points| :: d(points[k], a, a) <= d(points[j], a, a)
    ensures points[j] == f
  {
    var k :| 0 <= k < |points| && points[k] == f;
    assert points[j] in points;
  }

  lemma SamePoints(points: seq<Point>, others: seq<Point>, o: int)
    requires IsTurnedRing(points, others, o)
    ensures (forall p :: p in points <==> p in others) && (Distinct(points) ==> Distinct(others))
  {
    forall p ensures p in points <==> p in others {
      if p in points {
        var i :| 0 <= i < |points| && points[i] == p;
        OpposedPoint(points, others, o, i);
      }
      if p in others {
        var t :| 0 <= t < |others| && others[t] == p;
        assert At(points, o + |points| - t) in points;
      }
    }
    if Distinct(points) {
      forall s, t | 0 <= s < t < |others| ensures others[s] != others[t] {
        assert others[s] == At(points, o + |points| - s) && others[t] == At(points, o + |points| - t);
      }
    }
  }

  lemma FewJunctions(points: seq<Point>, others: seq<Point>, junctions: set<Point>, a: Point)
    requires Distinct(others) && IsAnchor(points, junctions, a) && forall p :: p in points <==> p in others
    ensures |JunctionSplits(others, junctions, |others|)| < 2
  {
    var found := JunctionSplits(others, junctions, |others|);
    JunctionSplitsAscend(others, junctions, |others|);
    if |found| >= 2 { OneJunction(points, others, junctions, a, found, 0, 1); }
  }

  lemma OneJunction(points: seq<Point>, others: seq<Point>, junctions: set<Point>, a: Point, found: seq<int>, x: int, y: int)
    requires Distinct(others) && IsAnchor(points, junctions, a) && forall p :: p in points <==> p in others
    requires found == JunctionSplits(others, junctions, |others|) && 0 <= x < |found| && 0 <= y < |found|
    ensures found[x] == found[y]
  {
    assert found[x] in found && found[y] in found;
    assert others[found[x]] in points && others[found[y]] in points;
  }

  // ----- both chains of an island -----

  /** The chain between the two splits that starts at the one of them. */
  lemma IslandChainIsShown(d: Measure, ring: seq<Point>, junctions: set<Point>, shown: seq<Point>, i: int, j: int)
    requires |ring| > 1 && SimplifiedRing(d, ring, junctions) == Some(shown)
    requires var points := ring[..|ring| - 1];
             0 <= i < |points| && 0 <= j < |points| && i != j && Splits(d, points, junctions) in {Both(i, j), Both(j, i)}
    ensures Shows(shown, SimplifiedChain(d, Chain(ring[..|ring| - 1], i, j)))
  {
    ChainIsShown(d, ring, junctions, if i < j then 0 else 1);
  }

  lemma IslandChainsStayReverses(d: Measure, one: seq<Point>, other: seq<Point>, junctions: set<Point>, first: seq<Point>, second: seq<Point>,
                                 o: int, i: int, j: int)
    requires |one| > 1 && |other| > 1 && IsTurnedRing(one[..|one| - 1], other[..|other| - 1], o) && Distinct(one[..|one| - 1])
    requires SimplifiedRing(d, one, junctions) == Some(first) && SimplifiedRing(d, other, junctions) == Some(second)
    requires var points := one[..|one| - 1];
             && 0 <= i < |points| && 0 <= j < |points| && i != j
             && Splits(d, points, junctions) in {Both(i, j), Both(j, i)}
             && var (s, t) := (Opposed(|points|, o, i), Opposed(|points|, o, j));
                Splits(d, other[..|other| - 1], junctions) in {Both(s, t), Both(t, s)}
    ensures ShownReversed(d, first, second, Chain(one[..|one| - 1], i, j))
  {
    var points, others := one[..|one| - 1], other[..|other| - 1];
    var run := Chain(points, i, j);
    var s, t := Opposed(|points|, o, i), Opposed(|points|, o, j);
    OpposedPoint(points, others, o, i);
    OpposedPoint(points, others, o, j);
    ChainIsRun(points, i, j);
    TurnedRun(points, others, o, i, run);
    RunIsChain(others, t, Reversed(run));
    IslandChainIsShown(d, one, junctions, first, i, j);
    IslandChainIsShown(d, other, junctions, second, t, s);
    OpenChainsComeOutReversed(d, run);
  }

  /** Two rings that follow the same points in opposite directions, with at most one junction among them, show both
  parts of it as exact reverses if one point is farthest from the anchor. */
  lemma IslandsStayReverses(d: Measure, one: seq<Point>, other: seq<Point>, junctions: set<Point>, first: seq<Point>, second: seq<Point>,
                            o: int, a: Point, f: Point) returns (i: int, j: int)
    requires |one| > 1 && |other| > 1 && IsTurnedRing(one[..|one| - 1], other[..|other| - 1], o) && Distinct(one[..|one| - 1])
    requires SimplifiedRing(d, one, junctions) == Some(first) && SimplifiedRing(d, other, junctions) == Some(second)
    requires IsAnchor(one[..|one| - 1], junctions, a) && IsFarthest(d, one[..|one| - 1], a, f)
    ensures 0 <= i < |one| - 1 && 0 <= j < |one| - 1 && i != j && one[i] == a && one[j] == f
    ensures ShownReversed(d, first, second, Chain(one[..|one| - 1], i, j))
    ensures ShownReversed(d, first, second, Chain(one[..|one| - 1], j, i))
  {
    i, j := IslandSplitsMatch(d, one[..|one| - 1], other[..|other| - 1], junctions, o, a, f);
    IslandChainsStayReverses(d, one, other, junctions, first, second, o, i, j);
    IslandChainsStayReverses(d, one, other, junctions, first, second, o, j, i);
  }

  lemma IslandSplitsMatch(d: Measure, points: seq<Point>, others: seq<Point>, junctions: set<Point>, o: int, a: Point, f: Point)
    returns (i: int, j: int)
    requires IsTurnedRing(points, others, o) && Distinct(points) && IsAnchor(points, junctions, a) && IsFarthest(d, points, a, f)
    ensures 0 <= i < |points| && 0 <= j < |points| && i != j && points[i] == a && points[j] == f
    ensures Splits(d, points, junctions) == Both(i, j)
    ensures Splits(d, others, junctions) == Both(Opposed(|points|, o, i), Opposed(|points|, o, j))
  {
    FewJunctions(points, points, junctions, a);
    i, j := IslandIsSplit(d, points, junctions, a, f);
    TurnedSplits(d, points, others, junctions, o, a, f, i, j);
  }

  lemma TurnedSplits(d: Measure, points: seq<Point>, others: seq<Point>, junctions: set<Point>, o: int, a: Point, f: Point, i: int, j: int)
    requires IsTurnedRing(points, others, o) && Distinct(points) && IsAnchor(points, junctions, a) && IsFarthest(d, points, a, f)
    requires 0 <= i < |points| && 0 <= j < |points| && points[i] == a && points[j] == f
    ensures Splits(d, others, junctions) == Both(Opposed(|points|, o, i), Opposed(|points|, o, j))
  {
    SamePoints(points, others, o);
    FewJunctions(points, others, junctions, a);
    var s, t := IslandIsSplit(d, others, junctions, a, f);
    OpposedPoint(points, others, o, i);
    OpposedPoint(points, others, o, j);
    assert s == Opposed(|points|, o, i) && t == Opposed(|points|, o, j);
  }
}
