/** Two maps on which a tie makes a shared border come out differently in its two rings. */
module MapTieExamples {
  import opened Rows
  import opened MapDistance
  import opened MapSimplify
  import opened MapRings
  import opened MapTies

  const ORIGIN := Point(0.0, 0.0)
  const EAST := Point(16.0, 12.0)
  const NORTHEAST := Point(12.0, 16.0)
  const NORTH := Point(0.0, 18.0)
  const WEST := Point(-16.0, -12.0)
  const SOUTHWEST := Point(-12.0, -16.0)

  // ----- distances -----

  lemma FromItself(p: Point)
    ensures SegmentDistanceSquared(p, ORIGIN, ORIGIN) == Square(p.x) + Square(p.y)
  {
    assert ClosestParameter(p.x, p.y, 0.0, 0.0) == 0.0;
    assert p.x - 0.0 * 0.0 == p.x;
  }

  lemma Near(p: Point, a: Point, b: Point, t: real)
    requires 0.0 <= t <= 1.0 && OffsetSquared(p.x - a.x, p.y - a.y, b.x - a.x, b.y - a.y, t) <= 100.0
    ensures SegmentDistanceSquared(p, a, b) <= 100.0
  {
    SegmentDistanceIsLeast(p, a, b, t);
  }

  lemma NorthIsFar()
    ensures SegmentDistanceSquared(NORTH, ORIGIN, NORTHEAST) == 116.64
    ensures SegmentDistanceSquared(NORTH, ORIGIN, EAST) == 207.36 && SegmentDistanceSquared(NORTHEAST, ORIGIN, EAST) == 31.36
  {
    SegmentDistanceIs(NORTH, ORIGIN, NORTHEAST, 400.0, 288.0, 0.72);
    SegmentDistanceIs(NORTH, ORIGIN, EAST, 400.0, 216.0, 0.54);
    SegmentDistanceIs(NORTHEAST, ORIGIN, EAST, 400.0, 384.0, 0.96);
    assert OffsetSquared(0.0, 18.0, 12.0, 16.0, 0.72) == 116.64;
    assert OffsetSquared(0.0, 18.0, 16.0, 12.0, 0.54) == 207.36;
    assert OffsetSquared(12.0, 16.0, 16.0, 12.0, 0.96) == 31.36;
  }

  // ----- short chains -----

  lemma KeptAre(d: Measure, chain: seq<Point>, indices: seq<int>)
    requires |chain| > 0 && Ascends(indices) && (forall k :: k in indices <==> k in Keep(d, chain))
    ensures (forall i | 0 <= i < |indices| :: 0 <= indices[i] < |chain|) && SimplifiedBy(d, chain) == Chosen(chain, indices)
  {
    SortedIsUnique(SortedIndices(Keep(d, chain)), indices);
    forall i | 0 <= i < |indices| ensures 0 <= indices[i] < |chain| { assert indices[i] in indices; }
  }

  /** Two points are both kept. */
  lemma SimplifiedTwo(d: Measure, a: Point, b: Point)
    ensures SimplifiedBy(d, [a, b]) == [a, b]
  {
    assert FarthestInner(d, [a, b], 0, 1) == (0, 0.0);
    assert Keep(d, [a, b]) == {0, 1};
    KeptAre(d, [a, b], [0, 1]);
  }

  /** Of three points the middle one is kept if it is far enough. */
  lemma SimplifiedThree(d: Measure, a: Point, p: Point, b: Point)
    ensures SimplifiedBy(d, [a, p, b]) == if d(p, a, b) > TOLERANCE_SQUARED then [a, p, b] else [a, b]
  {
    var chain := [a, p, b];
    assert Farthest(d, chain, 0, 2, 2) == if d(p, a, b) > 0.0 then (1, d(p, a, b)) else (0, 0.0);
    assert FarthestInner(d, chain, 0, 2) == Farthest(d, chain, 0, 2, 2);
    if d(p, a, b) > TOLERANCE_SQUARED {
      assert FarthestInner(d, chain, 0, 1) == (0, 0.0) && FarthestInner(d, chain, 1, 2) == (1, 0.0);
      assert Keep(d, chain) == {0, 1, 2};
      KeptAre(d, chain, [0, 1, 2]);
    } else {
      assert Keep(d, chain) == {0, 2};
      KeptAre(d, chain, [0, 2]);
      assert Chosen(chain, [0, 2]) == [a, b];
    }
  }

  /** Of two inner points the first of the farthest is kept, and the other dropped when it is near what is left. */
  lemma SimplifiedFour(d: Measure, a: Point, p: Point, q: Point, b: Point)
    requires d(p, a, b) > TOLERANCE_SQUARED && d(q, a, b) <= d(p, a, b) && d(q, p, b) <= TOLERANCE_SQUARED
    ensures SimplifiedBy(d, [a, p, q, b]) == [a, p, b]
  {
    FirstOfTwoIsKept(d, a, p, q, b);
    assert Keep(d, [a, p, q, b]) == {0, 1, 3};
    KeptAre(d, [a, p, q, b], [0, 1, 3]);
    assert Chosen([a, p, q, b], [0, 1, 3]) == [a, p, b];
  }

  lemma FirstOfTwoIsKept(d: Measure, a: Point, p: Point, q: Point, b: Point)
    requires d(p, a, b) > TOLERANCE_SQUARED && d(q, a, b) <= d(p, a, b) && d(q, p, b) <= TOLERANCE_SQUARED
    ensures Kept(d, [a, p, q, b], 0, 3) == {1}
  {
    var points := [a, p, q, b];
    assert Farthest(d, points, 0, 3, 1) == (0, 0.0);
    assert Farthest(d, points, 0, 3, 2) == (1, d(p, a, b));
    assert FarthestInner(d, points, 0, 3) == (1, d(p, a, b));
    assert FarthestInner(d, points, 0, 1).1 <= TOLERANCE_SQUARED;
    assert FarthestInner(d, points, 1, 3).1 <= TOLERANCE_SQUARED by {
      assert Farthest(d, points, 1, 3, 2) == (1, 0.0);
    }
  }

  // ----- two loops through one junction -----

  lemma {:induction false} EdgeAt(ring: seq<Point>, a: Point, b: Point)
    ensures (a, b) in Edges(ring) <==> exists k :: 0 <= k < |ring| - 1 && ring[k] == a && ring[k + 1] == b
    decreases |ring|
  {
    if |ring| >= 2 {
      var front, n := ring[..|ring| - 1], |ring| - 2;
      EdgeAt(front, a, b);
      if (a, b) in Edges(front) {
        var k :| 0 <= k < |front| - 1 && front[k] == a && front[k + 1] == b;
        assert ring[k] == a && ring[k + 1] == b;
      }
      if k :| 0 <= k < |ring| - 1 && ring[k] == a && ring[k + 1] == b {
        assert k < n ==> front[k] == a && front[k + 1] == b;
      }
    }
  }

  lemma EdgesOfTwo(one: seq<Point>, other: seq<Point>)
    ensures AllEdges([one, other]) == Edges(one) + Edges(other)
  {
    assert [one, other][..1] == [one] && [one][..0] == [];
    assert AllEdges([one]) == {} + Edges(one);
    assert AllEdges([one, other]) == AllEdges([one]) + Edges(other);
  }

  /** Who is next to whom in a ring, in either direction. */
  predicate Adjacent(ring: seq<Point>, a: Point, b: Point) {
    exists k :: 0 <= k < |ring| - 1 && ((ring[k] == a && ring[k + 1] == b) || (ring[k] == b && ring[k + 1] == a))
  }

  lemma NeighboursOf(one: seq<Point>, other: seq<Point>, graph: Graph, a: Point, b: Point)
    requires other == Reversed(one) && IsGraph(AllEdges([one, other]), graph)
    ensures Adjacent(one, a, b) <==> a in graph && b in graph[a]
  {
    var edges := AllEdges([one, other]);
    assert (a, b) in edges || (b, a) in edges <==> a in graph && b in graph[a];
    EdgesOfTwo(one, other);
    AdjacentByEdges(one, a, b);
    AdjacentByEdges(other, a, b);
    AdjacentBack(one, other, a, b);
  }

  lemma AdjacentByEdges(ring: seq<Point>, a: Point, b: Point)
    ensures Adjacent(ring, a, b) <==> (a, b) in Edges(ring) || (b, a) in Edges(ring)
  {
    EdgeAt(ring, a, b);
    EdgeAt(ring, b, a);
  }

  lemma AdjacentBack(one: seq<Point>, other: seq<Point>, a: Point, b: Point)
    requires other == Reversed(one)
    ensures Adjacent(other, a, b) ==> Adjacent(one, a, b)
  {
    if k :| 0 <= k < |other| - 1 && ((other[k] == a && other[k + 1] == b) || (other[k] == b && other[k + 1] == a)) {
      var j := |one| - 2 - k;
      assert one[j] == other[k + 1] && one[j + 1] == other[k];
    }
  }

  function TwoLoops(o: Point, p: Point, q: Point, x: Point, y: Point): seq<Point> { [o, p, q, o, x, y, o] }

  lemma TwoLoopsGraph(o: Point, p: Point, q: Point, x: Point, y: Point, graph: Graph)
    requires o != p && o != q && o != x && o != y && p != q && p != x && p != y && q != x && q != y && x != y
    requires IsGraph(AllEdges([TwoLoops(o, p, q, x, y), TwoLoops(o, y, x, q, p)]), graph)
    ensures Junctions(graph) == {o}
  {
    var one, other := TwoLoops(o, p, q, x, y), TwoLoops(o, y, x, q, p);
    assert other == Reversed(one);
    forall a ensures a in Junctions(graph) <==> a == o {
      forall b ensures Adjacent(one, a, b) <==> a in graph && b in graph[a] { NeighboursOf(one, other, graph, a, b); }
      LoopNeighbours(o, p, q, x, y, graph, a);
    }
  }

  function NeighboursInLoops(o: Point, p: Point, q: Point, x: Point, y: Point, a: Point): set<Point> {
    if a == o then {p, q, x, y} else if a == p then {o, q} else if a == q then {o, p} else if a == x then {o, y}
    else if a == y then {o, x} else {}
  }

  lemma LoopNeighbours(o: Point, p: Point, q: Point, x: Point, y: Point, graph: Graph, a: Point)
    requires o != p && o != q && o != x && o != y && p != q && p != x && p != y && q != x && q != y && x != y
    requires forall b :: Adjacent(TwoLoops(o, p, q, x, y), a, b) <==> a in graph && b in graph[a]
    requires a in graph ==> graph[a] != {}
    ensures a in Junctions(graph) <==> a == o
  {
    var ns := NeighboursInLoops(o, p, q, x, y, a);
    forall b ensures b in ns <==> a in graph && b in graph[a] { LoopAdjacent(o, p, q, x, y, a, b); }
    AreNeighbours(graph, a, ns);
    NeighbourCount(o, p, q, x, y, a);
  }

  lemma AreNeighbours(graph: Graph, a: Point, ns: set<Point>)
    requires (a in graph ==> graph[a] != {}) && forall b :: b in ns <==> a in graph && b in graph[a]
    ensures a in graph <==> ns != {}
    ensures a in graph ==> graph[a] == ns
  {
    if a in graph {
      assert graph[a] == ns;
    } else {
      assert ns == {};
    }
  }

  lemma NeighbourCount(o: Point, p: Point, q: Point, x: Point, y: Point, a: Point)
    requires o != p && o != q && o != x && o != y && p != q && p != x && p != y && q != x && q != y && x != y
    ensures var ns := NeighboursInLoops(o, p, q, x, y, a); ns != {} && |ns| != 2 <==> a == o
  {
    assert |{p, q, x, y}| == 4 by { assert {p, q, x, y} == {p, q} + {x, y} && |{p, q}| == 2; }
    assert |{o, q}| == 2 && |{o, p}| == 2 && |{o, y}| == 2 && |{o, x}| == 2;
  }

  lemma LoopAdjacent(o: Point, p: Point, q: Point, x: Point, y: Point, a: Point, b: Point)
    requires o != p && o != q && o != x && o != y && p != q && p != x && p != y && q != x && q != y && x != y
    ensures Adjacent(TwoLoops(o, p, q, x, y), a, b) <==> b in NeighboursInLoops(o, p, q, x, y, a)
  {
    var ring := TwoLoops(o, p, q, x, y);
    assert ring[0] == o && ring[1] == p && ring[2] == q && ring[3] == o && ring[4] == x && ring[5] == y && ring[6] == o;
  }

  // ----- how the rings come out -----

  lemma LastRingAdded(d: Measure, rings: seq<seq<Point>>, front: seq<seq<Point>>, ring: seq<Point>, junctions: set<Point>,
                      all: seq<seq<Point>>, before: seq<seq<Point>>, last: seq<Point>)
    requires (forall k | 0 <= k < |rings| :: |rings[k]| > 1) && |rings| > 0 && front == rings[..|rings| - 1] && ring == rings[|rings| - 1]
    requires SimplifiedRings(d, front, junctions) == Some(before) && SimplifiedRing(d, ring, junctions) == Some(last)
    requires all == before + [last]
    ensures SimplifiedRings(d, rings, junctions) == Some(all)
  {
  }

  lemma NoRingsSimplified(d: Measure, rings: seq<seq<Point>>, junctions: set<Point>)
    requires rings == []
    ensures SimplifiedRings(d, rings, junctions) == Some(rings)
  {
  }

  lemma PairSimplified(d: Measure, one: seq<Point>, other: seq<Point>, junctions: set<Point>, first: seq<Point>, second: seq<Point>)
    requires |one| > 1 && |other| > 1
    requires SimplifiedRing(d, one, junctions) == Some(first) && SimplifiedRing(d, other, junctions) == Some(second)
    ensures SimplifiedRings(d, [one, other], junctions) == Some([first, second])
  {
    var rings, front, none := PairOf(one, other);
    var both, shown, empty := PairOf(first, second);
    NoRingsSimplified(d, none, junctions);
    LastRingAdded(d, front, none, one, junctions, shown, empty, first);
    LastRingAdded(d, rings, front, other, junctions, both, shown, second);
  }

  lemma PairOf(a: seq<Point>, b: seq<Point>) returns (pair: seq<seq<Point>>, front: seq<seq<Point>>, none: seq<seq<Point>>)
    ensures pair == [a, b] && |pair| == 2 && pair[0] == a && pair[1] == b
    ensures front == pair[..|pair| - 1] && |front| == 1 && front[0] == a && pair == front + [b]
    ensures none == [] && none == front[..|front| - 1] && front == none + [a]
  {
    pair, front, none := [a, b], [a], [];
  }

  /** A ring of two chains. */
  lemma OfTwoPieces(d: Measure, ring: seq<Point>, points: seq<Point>, junctions: set<Point>, i: int, j: int, a: seq<Point>, b: seq<Point>,
                    result: seq<Point>)
    requires |ring| > 1 && points == ring[..|ring| - 1] && 0 <= i < |points| && 0 <= j < |points| && |a| + |b| > 4
    requires Splits(d, points, junctions) == [i, j]
    requires SimplifiedChain(d, Chain(points, i, j)) == a && SimplifiedChain(d, Chain(points, j, i)) == b
    requires |a| > 1 && |b| > 1 && result == a[..|a| - 1] + b[..|b| - 1] + [a[0]]
    ensures SimplifiedRing(d, ring, junctions) == Some(result)
  {
    var parts := [a[..|a| - 1], b[..|b| - 1]];
    PartsOfTwo(d, points, i, j, a, b);
    FlatTwo(a[..|a| - 1], b[..|b| - 1]);
    RingOfParts(d, ring, points, junctions, [i, j], parts, result);
  }

  lemma PartsOfTwo(d: Measure, points: seq<Point>, i: int, j: int, a: seq<Point>, b: seq<Point>)
    requires 0 <= i < |points| && 0 <= j < |points| && |a| > 1 && |b| > 1
    requires SimplifiedChain(d, Chain(points, i, j)) == a && SimplifiedChain(d, Chain(points, j, i)) == b
    ensures Parts(d, points, [i, j]) == [a[..|a| - 1], b[..|b| - 1]]
  {
    var splits := [i, j];
    var parts := Parts(d, points, splits);
    assert NextSplit(splits, 0) == j && NextSplit(splits, 1) == i;
    assert parts[0] == Piece(d, points, splits, 0) && parts[1] == Piece(d, points, splits, 1);
    PieceIs(d, points, splits, 0, a);
    PieceIs(d, points, splits, 1, b);
  }

  lemma PieceIs(d: Measure, points: seq<Point>, splits: seq<int>, k: nat, a: seq<Point>)
    requires SplitsOf(points, splits) && k < |splits| && |a| > 1
    requires 0 <= NextSplit(splits, k) < |points| && SimplifiedChain(d, Chain(points, splits[k], NextSplit(splits, k))) == a
    ensures Piece(d, points, splits, k) == a[..|a| - 1]
  {
  }

  lemma RingOfParts(d: Measure, ring: seq<Point>, points: seq<Point>, junctions: set<Point>, splits: seq<int>, parts: seq<seq<Point>>, result: seq<Point>)
    requires |ring| > 1 && points == ring[..|ring| - 1] && SplitsOf(points, splits)
    requires Splits(d, points, junctions) == splits && Parts(d, points, splits) == parts && Closed(Flat(parts)) == Some(result)
    ensures SimplifiedRing(d, ring, junctions) == Some(result)
  {
  }

  lemma FlatTwo(a: seq<Point>, b: seq<Point>)
    ensures Flat([a, b]) == a + b
  {
    assert [a, b][..1] == [a] && [a][..0] == [];
    assert Flat([a]) == [] + a;
    assert Flat([a, b]) == Flat([a]) + b;
  }

  lemma TwoLoopsSimplified(d: Measure, o: Point, p: Point, q: Point, x: Point, y: Point)
    requires o != p && o != q && o != x && o != y
    requires d(p, o, o) > TOLERANCE_SQUARED && d(q, o, o) <= d(p, o, o) && d(q, p, o) <= TOLERANCE_SQUARED
    requires d(x, o, o) > TOLERANCE_SQUARED && d(y, o, o) <= d(x, o, o) && d(y, x, o) <= TOLERANCE_SQUARED
    ensures SimplifiedRing(d, TwoLoops(o, p, q, x, y), {o}) == Some([o, p, o, x, o])
  {
    var ring, points := TwoLoops(o, p, q, x, y), [o, p, q, o, x, y];
    assert ring[..6] == points;
    LoopSplits(d, o, p, q, x, y);
    LoopChains(d, o, p, q, x, y);
    LoopResult(o, p, x, [o, p, o], [o, x, o]);
    OfTwoPieces(d, ring, points, {o}, 0, 3, [o, p, o], [o, x, o], [o, p, o, x, o]);
  }

  lemma LoopChains(d: Measure, o: Point, p: Point, q: Point, x: Point, y: Point)
    requires d(p, o, o) > TOLERANCE_SQUARED && d(q, o, o) <= d(p, o, o) && d(q, p, o) <= TOLERANCE_SQUARED
    requires d(x, o, o) > TOLERANCE_SQUARED && d(y, o, o) <= d(x, o, o) && d(y, x, o) <= TOLERANCE_SQUARED
    ensures var points := [o, p, q, o, x, y];
            SimplifiedChain(d, Chain(points, 0, 3)) == [o, p, o] && SimplifiedChain(d, Chain(points, 3, 0)) == [o, x, o]
  {
    var points := [o, p, q, o, x, y];
    assert Chain(points, 0, 3) == [o, p, q, o] && Chain(points, 3, 0) == [o, x, y, o];
    SimplifiedFour(d, o, p, q, o);
    SimplifiedFour(d, o, x, y, o);
  }

  lemma LoopResult(o: Point, p: Point, x: Point, a: seq<Point>, b: seq<Point>)
    requires a == [o, p, o] && b == [o, x, o]
    ensures [o, p, o, x, o] == a[..|a| - 1] + b[..|b| - 1] + [a[0]]
  {
  }

  lemma LoopSplits(d: Measure, o: Point, p: Point, q: Point, x: Point, y: Point)
    requires o != p && o != q && o != x && o != y
    ensures Splits(d, [o, p, q, o, x, y], {o}) == [0, 3]
  {
    var points := [o, p, q, o, x, y];
    assert JunctionSplits(points, {o}, 0) == [];
    assert JunctionSplits(points, {o}, 1) == [0];
    assert JunctionSplits(points, {o}, 2) == [0];
    assert JunctionSplits(points, {o}, 3) == [0];
    assert JunctionSplits(points, {o}, 4) == [0, 3];
    assert JunctionSplits(points, {o}, 5) == [0, 3];
    assert JunctionSplits(points, {o}, 6) == [0, 3];
  }

  /** Two rings around the same two loops through one junction: in either loop two points are equally far from
  the junction, and each ring keeps the one that it meets first. */
  lemma ClosedBordersMayDiffer(o: Point, p: Point, q: Point, x: Point, y: Point, one: seq<Point>, other: seq<Point>, graph: Graph)
    requires o == ORIGIN && p == NORTHEAST && q == EAST && x == SOUTHWEST && y == WEST
    requires one == [o, p, q, o, x, y, o] && other == Reversed(one) && IsGraph(AllEdges([one, other]), graph)
    ensures SimplifiedRings(SegmentDistanceSquared, [one, other], Junctions(graph)) == Some([[o, p, o, x, o], [o, y, o, q, o]])
  {
    ReversedLoops(o, p, q, x, y);
    LoopsAreTied();
    LoopsSimplified(SegmentDistanceSquared, o, p, q, x, y, graph);
  }

  /** Two points are equally far from the junction, and near to each other. */
  predicate TiedPair(d: Measure, o: Point, p: Point, q: Point) {
    d(p, o, o) == d(q, o, o) > TOLERANCE_SQUARED && NearPair(d, o, p, q)
  }

  predicate NearPair(d: Measure, o: Point, p: Point, q: Point) {
    d(q, p, o) <= TOLERANCE_SQUARED && d(p, q, o) <= TOLERANCE_SQUARED
  }

  predicate TiedLoops(d: Measure, o: Point, p: Point, q: Point, x: Point, y: Point) {
    && o != p && o != q && o != x && o != y && p != q && p != x && p != y && q != x && q != y && x != y
    && TiedPair(d, o, p, q) && TiedPair(d, o, x, y)
  }

  lemma LoopsAreTied()
    ensures TiedLoops(SegmentDistanceSquared, ORIGIN, NORTHEAST, EAST, SOUTHWEST, WEST)
  {
    EasternPair();
    WesternPair();
  }

  lemma EasternPair()
    ensures TiedPair(SegmentDistanceSquared, ORIGIN, NORTHEAST, EAST)
  {
    FromItself(EAST);
    FromItself(NORTHEAST);
    Near(EAST, NORTHEAST, ORIGIN, 0.0);
    Near(NORTHEAST, EAST, ORIGIN, 0.0);
  }

  lemma WesternPair()
    ensures TiedPair(SegmentDistanceSquared, ORIGIN, SOUTHWEST, WEST)
  {
    FromItself(WEST);
    FromItself(SOUTHWEST);
    Near(WEST, SOUTHWEST, ORIGIN, 0.0);
    Near(SOUTHWEST, WEST, ORIGIN, 0.0);
  }

  lemma ReversedLoops(o: Point, p: Point, q: Point, x: Point, y: Point)
    ensures Reversed([o, p, q, o, x, y, o]) == TwoLoops(o, y, x, q, p)
  {
  }

  lemma LoopsSimplified(d: Measure, o: Point, p: Point, q: Point, x: Point, y: Point, graph: Graph)
    requires TiedLoops(d, o, p, q, x, y)
    requires IsGraph(AllEdges([TwoLoops(o, p, q, x, y), TwoLoops(o, y, x, q, p)]), graph)
    ensures SimplifiedRings(d, [TwoLoops(o, p, q, x, y), TwoLoops(o, y, x, q, p)], Junctions(graph)) ==
              Some([[o, p, o, x, o], [o, y, o, q, o]])
  {
    TwoLoopsGraph(o, p, q, x, y, graph);
    TwoLoopsSimplified(d, o, p, q, x, y);
    TwoLoopsSimplified(d, o, y, x, q, p);
    PairSimplified(d, TwoLoops(o, p, q, x, y), TwoLoops(o, y, x, q, p), {o}, [o, p, o, x, o], [o, y, o, q, o]);
  }

  // ----- an island -----

  function Island(o: Point, l: Point, p: Point, q: Point): seq<Point> { [o, l, p, q, o] }

  lemma IslandGraph(o: Point, l: Point, p: Point, q: Point, graph: Graph)
    requires o != l && o != p && o != q && l != p && l != q && p != q
    requires IsGraph(AllEdges([Island(o, l, p, q), Island(o, q, p, l)]), graph)
    ensures Junctions(graph) == {}
  {
    var one, other := Island(o, l, p, q), Island(o, q, p, l);
    assert other == Reversed(one);
    forall a ensures a !in Junctions(graph) {
      forall b ensures Adjacent(one, a, b) <==> a in graph && b in graph[a] { NeighboursOf(one, other, graph, a, b); }
      var ns := NeighboursInIsland(o, l, p, q, a);
      forall b ensures b in ns <==> a in graph && b in graph[a] { IslandAdjacent(o, l, p, q, a, b); }
      AreNeighbours(graph, a, ns);
      assert |{l, q}| == 2 && |{o, p}| == 2;
    }
  }

  function NeighboursInIsland(o: Point, l: Point, p: Point, q: Point, a: Point): set<Point> {
    if a == o || a == p then {l, q} else if a == l || a == q then {o, p} else {}
  }

  lemma IslandAdjacent(o: Point, l: Point, p: Point, q: Point, a: Point, b: Point)
    requires o != l && o != p && o != q && l != p && l != q && p != q
    ensures Adjacent(Island(o, l, p, q), a, b) <==> b in NeighboursInIsland(o, l, p, q, a)
  {
    var ring := Island(o, l, p, q);
    assert ring[0] == o && ring[1] == l && ring[2] == p && ring[3] == q && ring[4] == o;
  }

  lemma IslandSplits(d: Measure, o: Point, a: Point, b: Point, c: Point, index: int)
    requires !Less(a, o) && !Less(b, o) && !Less(c, o) && d(a, o, o) > d(o, o, o)
    requires index == if d(b, o, o) > d(a, o, o) then 2 else 1
    requires d(c, o, o) <= if d(b, o, o) > d(a, o, o) then d(b, o, o) else d(a, o, o)
    ensures Splits(d, [o, a, b, c], {}) == [0, index]
  {
    var points := [o, a, b, c];
    assert JunctionSplits(points, {}, 0) == [];
    assert JunctionSplits(points, {}, 1) == [];
    assert JunctionSplits(points, {}, 2) == [];
    assert JunctionSplits(points, {}, 3) == [];
    assert JunctionSplits(points, {}, 4) == [];
    assert LeastIndex(points, 1) == 0 && LeastIndex(points, 3) == 0 && LeastIndex(points, 4) == 0;
    assert FarthestIndex(d, points, o, 2) == 1 && FarthestIndex(d, points, o, 3) == index && FarthestIndex(d, points, o, 4) == index;
  }

  lemma NorthernWay(d: Measure, o: Point, l: Point, p: Point, q: Point)
    requires Less(o, l) && Less(o, p) && Less(o, q) && !Less(l, o) && !Less(p, o) && !Less(q, o)
    requires d(o, o, o) < d(l, o, o) < d(p, o, o) && d(q, o, o) == d(p, o, o)
    requires d(l, o, p) > TOLERANCE_SQUARED && d(q, o, p) <= TOLERANCE_SQUARED
    ensures SimplifiedRing(d, Island(o, l, p, q), {}) == Some([o, l, p, o])
  {
    var points := [o, l, p, q];
    assert Island(o, l, p, q)[..4] == points;
    IslandSplits(d, o, l, p, q, 2);
    NorthernChains(d, o, l, p, q);
    assert [o, l, p][..2] == [o, l] && [p, o][..1] == [p];
    OfTwoPieces(d, Island(o, l, p, q), points, {}, 0, 2, [o, l, p], [p, o], [o, l, p, o]);
  }

  lemma NorthernChains(d: Measure, o: Point, l: Point, p: Point, q: Point)
    requires Less(o, p) && !Less(p, o) && d(l, o, p) > TOLERANCE_SQUARED && d(q, o, p) <= TOLERANCE_SQUARED
    ensures var points := [o, l, p, q];
            SimplifiedChain(d, Chain(points, 0, 2)) == [o, l, p] && SimplifiedChain(d, Chain(points, 2, 0)) == [p, o]
  {
    var points := [o, l, p, q];
    assert Chain(points, 0, 2) == [o, l, p] && Chain(points, 2, 0) == [p, q, o];
    SimplifiedThree(d, o, l, p);
    ComesBack(d, o, q, p);
  }

  lemma ComesBack(d: Measure, o: Point, q: Point, p: Point)
    requires Less(o, p) && d(q, o, p) <= TOLERANCE_SQUARED
    ensures SimplifiedChain(d, [p, q, o]) == [p, o]
  {
    assert Reversed([p, q, o]) == [o, q, p] && Reversed([o, p]) == [p, o];
    SimplifiedThree(d, o, q, p);
  }

  lemma EasternWay(d: Measure, o: Point, l: Point, p: Point, q: Point)
    requires Less(o, l) && Less(o, p) && Less(o, q) && !Less(l, o) && !Less(p, o) && !Less(q, o)
    requires d(o, o, o) < d(q, o, o) && d(p, o, o) <= d(q, o, o) && d(l, o, o) <= d(q, o, o)
    requires d(l, o, q) > TOLERANCE_SQUARED && d(p, o, q) <= d(l, o, q) && d(p, l, q) <= TOLERANCE_SQUARED
    ensures SimplifiedRing(d, Island(o, q, p, l), {}) == Some([o, q, l, o])
  {
    var points := [o, q, p, l];
    assert Island(o, q, p, l)[..4] == points;
    IslandSplits(d, o, q, p, l, 1);
    EasternChains(d, o, l, p, q);
    assert [o, q][..1] == [o] && [q, l, o][..2] == [q, l];
    OfTwoPieces(d, Island(o, q, p, l), points, {}, 0, 1, [o, q], [q, l, o], [o, q, l, o]);
  }

  lemma EasternChains(d: Measure, o: Point, l: Point, p: Point, q: Point)
    requires Less(o, q) && !Less(q, o) && d(l, o, q) > TOLERANCE_SQUARED && d(p, o, q) <= d(l, o, q) && d(p, l, q) <= TOLERANCE_SQUARED
    ensures var points := [o, q, p, l];
            SimplifiedChain(d, Chain(points, 0, 1)) == [o, q] && SimplifiedChain(d, Chain(points, 1, 0)) == [q, l, o]
  {
    var points := [o, q, p, l];
    SimplifiedTwo(d, o, q);
    SimplifiedFour(d, o, l, p, q);
    assert Chain(points, 0, 1) == [o, q] && Chain(points, 1, 0) == [q, p, l, o];
    assert Reversed([q, p, l, o]) == [o, l, p, q] && Reversed([o, l, q]) == [q, l, o];
  }

  /** The two rings of an island without junctions: two points are equally far from its least one, and each ring is
  split at the one that it meets first. */
  lemma IslandsMayDiffer(o: Point, l: Point, p: Point, q: Point, one: seq<Point>, other: seq<Point>, graph: Graph)
    requires o == ORIGIN && l == NORTH && p == NORTHEAST && q == EAST
    requires one == [o, l, p, q, o] && other == Reversed(one) && IsGraph(AllEdges([one, other]), graph)
    ensures SimplifiedRings(SegmentDistanceSquared, [one, other], Junctions(graph)) == Some([[o, l, p, o], [o, q, l, o]])
  {
    ReversedIsland(o, l, p, q);
    IslandIsTied();
    IslandSimplified(SegmentDistanceSquared, o, l, p, q, graph);
  }

  /** Two points are equally far from the least one, and near to each other. */
  predicate TiedIsland(d: Measure, o: Point, l: Point, p: Point, q: Point) {
    LeastOfFour(o, l, p, q) && FarPoints(d, o, l, p, q) && OffLines(d, o, l, p, q)
  }

  predicate LeastOfFour(o: Point, l: Point, p: Point, q: Point) {
    && l != p && l != q && p != q
    && Less(o, l) && Less(o, p) && Less(o, q) && !Less(l, o) && !Less(p, o) && !Less(q, o)
  }

  predicate FarPoints(d: Measure, o: Point, l: Point, p: Point, q: Point) {
    d(o, o, o) < d(l, o, o) < d(p, o, o) == d(q, o, o)
  }

  predicate OffLines(d: Measure, o: Point, l: Point, p: Point, q: Point) {
    && d(q, o, p) <= TOLERANCE_SQUARED && d(p, o, q) <= TOLERANCE_SQUARED && d(p, l, q) <= TOLERANCE_SQUARED
    && d(l, o, p) > TOLERANCE_SQUARED && d(l, o, q) > TOLERANCE_SQUARED
  }

  lemma IslandIsTied()
    ensures TiedIsland(SegmentDistanceSquared, ORIGIN, NORTH, NORTHEAST, EAST)
  {
    IslandOrder();
    IslandIsFar();
    IslandLines();
  }

  lemma IslandOrder()
    ensures LeastOfFour(ORIGIN, NORTH, NORTHEAST, EAST)
  {
  }

  lemma IslandIsFar()
    ensures FarPoints(SegmentDistanceSquared, ORIGIN, NORTH, NORTHEAST, EAST)
  {
    FromItself(ORIGIN);
    FromItself(NORTH);
    FromItself(EAST);
    FromItself(NORTHEAST);
  }

  lemma IslandLines()
    ensures OffLines(SegmentDistanceSquared, ORIGIN, NORTH, NORTHEAST, EAST)
  {
    NorthIsFar();
    Near(EAST, ORIGIN, NORTHEAST, 1.0);
    Near(NORTHEAST, NORTH, EAST, 1.0);
  }

  lemma ReversedIsland(o: Point, l: Point, p: Point, q: Point)
    ensures Reversed([o, l, p, q, o]) == Island(o, q, p, l)
  {
  }

  lemma IslandSimplified(d: Measure, o: Point, l: Point, p: Point, q: Point, graph: Graph)
    requires TiedIsland(d, o, l, p, q)
    requires IsGraph(AllEdges([Island(o, l, p, q), Island(o, q, p, l)]), graph)
    ensures SimplifiedRings(d, [Island(o, l, p, q), Island(o, q, p, l)], Junctions(graph)) == Some([[o, l, p, o], [o, q, l, o]])
  {
    IslandGraph(o, l, p, q, graph);
    NorthernWay(d, o, l, p, q);
    EasternWay(d, o, l, p, q);
    PairSimplified(d, Island(o, l, p, q), Island(o, q, p, l), {}, [o, l, p, o], [o, q, l, o]);
  }
}
