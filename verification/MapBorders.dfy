/** Borders that two rings share: when both rings show them alike. */
module MapBorders {
  import opened Rows
  import opened MapDistance
  import opened MapSimplify
  import opened MapRings
  import opened MapTies

  // ----- runs of points along a ring -----

  /** The points of a ring repeat after its last one. */
  function At(points: seq<Point>, i: int): Point
    requires 0 <= i < 2 * |points|
  {
    if i < |points| then points[i] else points[i - |points|]
  }

  predicate IsRun(points: seq<Point>, i: int, run: seq<Point>) {
    0 <= i < |points| && 1 < |run| <= |points| && forall t | 0 <= t < |run| :: run[t] == At(points, i + t)
  }

  /** Where a run ends. */
  function EndOf(points: seq<Point>, i: int, run: seq<Point>): (end: int)
    requires IsRun(points, i, run)
    ensures 0 <= end < |points| && points[end] == run[|run| - 1]
  {
    if i + |run| - 1 < |points| then i + |run| - 1 else i + |run| - 1 - |points|
  }

  lemma RunIsChain(points: seq<Point>, i: int, run: seq<Point>)
    requires IsRun(points, i, run)
    ensures Chain(points, i, EndOf(points, i, run)) == run
  {
    var chain := Chain(points, i, EndOf(points, i, run));
    forall t | 0 <= t < |run| ensures run[t] == chain[t] { assert run[t] == At(points, i + t); }
  }

  /** A stretch of a simplified ring. */
  ghost predicate Shows(ring: seq<Point>, stretch: seq<Point>) {
    exists a :: ShowsAt(ring, a, stretch)
  }

  predicate ShowsAt(ring: seq<Point>, a: int, stretch: seq<Point>) {
    0 <= a && a + |stretch| <= |ring| && ring[a..a + |stretch|] == stretch
  }

  lemma {:induction false} FlatFront(parts: seq<seq<Point>>, k: nat)
    requires k <= |parts|
    ensures Flat(parts[..k]) <= Flat(parts)
    decreases |parts|
  {
    if k < |parts| {
      var front := parts[..|parts| - 1];
      assert front[..k] == parts[..k];
      FlatFront(front, k);
    } else {
      assert parts[..k] == parts;
    }
  }

  /** Every part is followed by the first point of the next one, the last part by that of the first. */
  lemma PartIsShown(parts: seq<seq<Point>>, k: nat, next: Point)
    requires k < |parts| && forall p | p in parts :: |p| > 0
    requires next == if k + 1 < |parts| then parts[k + 1][0] else parts[0][0]
    requires Closed(Flat(parts)).Some?
    ensures Shows(Closed(Flat(parts)).value, parts[k] + [next])
  {
    var flat := Flat(parts);
    var a := |Flat(parts[..k])|;
    PartIsInside(parts, k);
    FirstOfAll(parts);
    if k + 1 < |parts| { FirstOfNext(parts, k); } else { assert parts[..k + 1] == parts; }
    StretchWithNext(flat, a, parts[k], next);
  }

  lemma StretchWithNext(flat: seq<Point>, a: nat, part: seq<Point>, next: Point)
    requires |flat| > 0 && a + |part| <= |flat| && flat[a..a + |part|] == part
    requires next == if a + |part| < |flat| then flat[a + |part|] else flat[0]
    ensures Shows(flat + [flat[0]], part + [next])
  {
    var ring := flat + [flat[0]];
    assert ring[a..a + |part|] == part;
    assert ShowsAt(ring, a, part + [next]);
  }

  lemma PartIsInside(parts: seq<seq<Point>>, k: nat)
    requires k < |parts|
    ensures var a := |Flat(parts[..k])|;
            && a + |parts[k]| == |Flat(parts[..k + 1])| <= |Flat(parts)| && Flat(parts)[a..a + |parts[k]|] == parts[k]
  {
    FlatGrows(parts, k);
    FlatFront(parts, k + 1);
  }

  lemma FirstOfNext(parts: seq<seq<Point>>, k: nat)
    requires k + 1 < |parts| && |parts[k + 1]| > 0
    ensures var b := |Flat(parts[..k + 1])|; b < |Flat(parts)| && Flat(parts)[b] == parts[k + 1][0]
  {
    PartIsInside(parts, k + 1);
  }

  lemma FirstOfAll(parts: seq<seq<Point>>)
    requires |parts| > 0 && |parts[0]| > 0
    ensures |Flat(parts)| > 0 && Flat(parts)[0] == parts[0][0]
  {
    FlatFront(parts, 1);
    assert parts[..1][..0] == [];
    assert Flat(parts[..1]) == parts[0];
  }

  /** Each chain of a ring, as it was simplified, is a stretch of the result. */
  lemma ChainIsShown(d: Measure, ring: seq<Point>, junctions: set<Point>, k: nat)
    requires |ring| > 1 && SimplifiedRing(d, ring, junctions).Some?
    requires var points := ring[..|ring| - 1]; k < |Splits(d, points, junctions)|
    ensures var points := ring[..|ring| - 1];
            var splits := Splits(d, points, junctions);
            Shows(SimplifiedRing(d, ring, junctions).value, SimplifiedChain(d, Chain(points, splits[k], NextSplit(splits, k))))
  {
    var points := ring[..|ring| - 1];
    var splits := Splits(d, points, junctions);
    var parts := Parts(d, points, splits);
    PieceAndNext(d, points, splits, k);
    assert parts[k] == Piece(d, points, splits, k);
    PartsHaveFirsts(d, points, splits, k);
    PartIsShown(parts, k, points[NextSplit(splits, k)]);
  }

  lemma PieceAndNext(d: Measure, points: seq<Point>, splits: seq<int>, k: nat)
    requires SplitsOf(points, splits) && k < |splits|
    ensures 0 <= NextSplit(splits, k) < |points|
    ensures SimplifiedChain(d, Chain(points, splits[k], NextSplit(splits, k))) == Piece(d, points, splits, k) + [points[NextSplit(splits, k)]]
  {
    EndsAreKept(d, Chain(points, splits[k], NextSplit(splits, k)));
  }

  lemma PartsHaveFirsts(d: Measure, points: seq<Point>, splits: seq<int>, k: nat)
    requires SplitsOf(points, splits) && k < |splits|
    ensures var parts := Parts(d, points, splits);
            && (forall p | p in parts :: |p| > 0)
            && points[NextSplit(splits, k)] == if k + 1 < |parts| then parts[k + 1][0] else parts[0][0]
  {
  }

  // ----- borders from junction to junction -----

  /** A run from one junction to the next. */
  predicate IsBorder(points: seq<Point>, junctions: set<Point>, i: int, run: seq<Point>) {
    && IsRun(points, i, run) && run[0] in junctions && run[|run| - 1] in junctions
    && forall t | 0 < t < |run| - 1 :: run[t] !in junctions
  }

  lemma {:induction false} JunctionSplitsAscend(points: seq<Point>, junctions: set<Point>, n: nat)
    requires n <= |points|
    ensures Ascends(JunctionSplits(points, junctions, n))
  {
    if n > 0 {
      JunctionSplitsAscend(points, junctions, n - 1);
      var before := JunctionSplits(points, junctions, n - 1);
      forall i | 0 <= i < |before| ensures before[i] < n - 1 { assert before[i] in before; }
    }
  }

  /** A border lies between two neighbouring splits. */
  lemma BorderIsSplit(d: Measure, points: seq<Point>, junctions: set<Point>, i: int, run: seq<Point>) returns (k: nat)
    requires IsBorder(points, junctions, i, run)
    ensures var splits := Splits(d, points, junctions);
            k < |splits| && splits[k] == i && NextSplit(splits, k) == EndOf(points, i, run)
  {
    var end := EndOf(points, i, run);
    var splits := JunctionSplits(points, junctions, |points|);
    JunctionSplitsAscend(points, junctions, |points|);
    assert run[0] == At(points, i);
    assert i in splits && end in splits && i != end;
    k :| 0 <= k < |splits| && splits[k] == i;
    var e :| 0 <= e < |splits| && splits[e] == end;
    assert Splits(d, points, junctions) == splits;
    NextIsEnd(points, junctions, i, run, splits, k, e);
  }

  lemma NextIsEnd(points: seq<Point>, junctions: set<Point>, i: int, run: seq<Point>, splits: seq<int>, k: nat, e: nat)
    requires IsBorder(points, junctions, i, run) && Ascends(splits) && k < |splits| && e < |splits|
    requires forall j :: j in splits <==> 0 <= j < |points| && points[j] in junctions
    requires splits[k] == i && splits[e] == EndOf(points, i, run)
    ensures NextSplit(splits, k) == EndOf(points, i, run)
  {
    var next := NextSplit(splits, k);
    assert next in splits;
    if next != EndOf(points, i, run) { InnerIsNoJunction(points, junctions, i, run, next); }
  }

  lemma InnerIsNoJunction(points: seq<Point>, junctions: set<Point>, i: int, run: seq<Point>, q: int)
    requires IsBorder(points, junctions, i, run) && 0 <= q < |points|
    requires i < q < i + |run| - 1 || i < q + |points| < i + |run| - 1
    ensures points[q] !in junctions
  {
    var t := if i < q < i + |run| - 1 then q - i else q + |points| - i;
    assert run[t] == At(points, i + t);
  }

  /** A border is shown as it was simplified. */
  lemma BorderIsShown(d: Measure, ring: seq<Point>, junctions: set<Point>, i: int, run: seq<Point>)
    requires |ring| > 1 && SimplifiedRing(d, ring, junctions).Some? && IsBorder(ring[..|ring| - 1], junctions, i, run)
    ensures Shows(SimplifiedRing(d, ring, junctions).value, SimplifiedChain(d, run))
  {
    var points := ring[..|ring| - 1];
    var k := BorderIsSplit(d, points, junctions, i, run);
    RunIsChain(points, i, run);
    ChainIsShown(d, ring, junctions, k);
  }

  lemma {:induction false} RingOfAll(d: Measure, rings: seq<seq<Point>>, junctions: set<Point>, simplified: seq<seq<Point>>, x: nat, ring: seq<Point>)
    returns (shown: Option<seq<Point>>)
    requires (forall k | 0 <= k < |rings| :: |rings[k]| > 1) && SimplifiedRings(d, rings, junctions) == Some(simplified)
    requires x < |rings| && rings[x] == ring
    ensures |simplified| == |rings| && |ring| > 1 && shown == SimplifiedRing(d, ring, junctions) && shown == Some(simplified[x])
    decreases |rings|
  {
    var front, last := rings[..|rings| - 1], rings[|rings| - 1];
    var before, added := LastRing(d, rings, front, last, junctions, simplified);
    if x < |front| {
      shown := RingOfAll(d, front, junctions, before, x, ring);
    } else {
      assert x == |rings| - 1;
      shown := added;
    }
  }

  lemma LastRing(d: Measure, rings: seq<seq<Point>>, front: seq<seq<Point>>, ring: seq<Point>, junctions: set<Point>, simplified: seq<seq<Point>>)
    returns (before: seq<seq<Point>>, last: Option<seq<Point>>)
    requires (forall k | 0 <= k < |rings| :: |rings[k]| > 1) && rings != [] && SimplifiedRings(d, rings, junctions) == Some(simplified)
    requires front == rings[..|rings| - 1] && ring == rings[|rings| - 1]
    ensures (forall k | 0 <= k < |front| :: |front[k]| > 1) && |before| == |front| && SimplifiedRings(d, front, junctions) == Some(before)
    ensures |ring| > 1 && last == SimplifiedRing(d, ring, junctions) && last.Some? && simplified == before + [last.value]
  {
    last := SimplifiedRing(d, ring, junctions);
    var rest := SimplifiedRings(d, front, junctions);
    assert rest.Some?;
    before := rest.value;
    LastAdded(before, last, simplified);
  }

  lemma LastAdded(before: seq<seq<Point>>, ring: Option<seq<Point>>, after: seq<seq<Point>>)
    requires Added(before, ring) == Some(after)
    ensures ring.Some? && after == before + [ring.value]
  {
  }

  /** What two rings show of a border that they follow in opposite directions. */
  ghost predicate ShownReversed(d: Measure, one: seq<Point>, other: seq<Point>, run: seq<Point>)
    requires |run| > 0
  {
    Shows(one, SimplifiedChain(d, run)) && Shows(other, Reversed(SimplifiedChain(d, run)))
  }

  /** A run from one junction to the next in one ring, followed the other way in another ring. */
  predicate IsSharedBorder(one: seq<Point>, other: seq<Point>, junctions: set<Point>, i: int, j: int, run: seq<Point>) {
    && |one| > 1 && |other| > 1
    && IsBorder(one[..|one| - 1], junctions, i, run) && IsBorder(other[..|other| - 1], junctions, j, Reversed(run))
  }

  /** The border ends at another junction than it starts from, or its ties are harmless. */
  ghost predicate Directionless(d: Measure, run: seq<Point>) {
    |run| > 0 && (run[0] != run[|run| - 1] || (Symmetric(d) && TiesAreHarmless(d, run)))
  }

  /** A border from one junction to the next that two rings follow in opposite directions is shown as exact
  reverses: always if it ends at another junction than it starts from, and if it comes back to the same one,
  when its ties are harmless. */
  lemma SharedBordersStayReverses(d: Measure, rings: seq<seq<Point>>, graph: Graph, simplified: seq<seq<Point>>,
                                  x: nat, y: nat, i: int, j: int, run: seq<Point>)
    requires (forall k | 0 <= k < |rings| :: |rings[k]| > 1) && x < |rings| && y < |rings|
    requires IsGraph(AllEdges(rings), graph) && SimplifiedRings(d, rings, Junctions(graph)) == Some(simplified)
    requires IsSharedBorder(rings[x], rings[y], Junctions(graph), i, j, run) && Directionless(d, run)
    ensures |simplified| == |rings| && ShownReversed(d, simplified[x], simplified[y], run)
  {
    var first := RingOfAll(d, rings, Junctions(graph), simplified, x, rings[x]);
    var second := RingOfAll(d, rings, Junctions(graph), simplified, y, rings[y]);
    TwoRingsShowReverses(d, rings[x], rings[y], Junctions(graph), simplified[x], simplified[y], i, j, run);
  }

  lemma TwoRingsShowReverses(d: Measure, one: seq<Point>, other: seq<Point>, junctions: set<Point>, first: seq<Point>, second: seq<Point>,
                             i: int, j: int, run: seq<Point>)
    requires IsSharedBorder(one, other, junctions, i, j, run) && Directionless(d, run)
    requires SimplifiedRing(d, one, junctions) == Some(first) && SimplifiedRing(d, other, junctions) == Some(second)
    ensures ShownReversed(d, first, second, run)
  {
    BorderIsShown(d, one, junctions, i, run);
    BorderIsShown(d, other, junctions, j, Reversed(run));
    if run[0] != run[|run| - 1] { OpenChainsComeOutReversed(d, run); } else { HarmlessChainsComeOutReversed(d, run); }
  }
}
