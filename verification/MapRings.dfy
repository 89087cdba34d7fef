/** Simplifying rings that share borders: split at the junctions, simplify every chain once, and use it in
either direction. */
module MapRings {
  import opened Rows
  import opened MapDistance
  import opened MapSimplify

  function Reversed(s: seq<Point>): (r: seq<Point>)
    ensures |r| == |s| && forall i | 0 <= i < |s| :: r[i] == s[|s| - 1 - i]
  {
    seq(|s|, i requires 0 <= i < |s| => s[|s| - 1 - i])
  }

  lemma ReversedTwice(s: seq<Point>)
    ensures Reversed(Reversed(s)) == s
  {
  }

  /** Points compare by x, then by y. */
  predicate Less(a: Point, b: Point) { a.x < b.x || (a.x == b.x && a.y < b.y) }

  // ----- the edge graph -----

  type Graph = map<Point, set<Point>>

  function Edges(ring: seq<Point>): set<(Point, Point)> {
    if |ring| < 2 then {} else Edges(ring[..|ring| - 1]) + {(ring[|ring| - 2], ring[|ring| - 1])}
  }

  function AllEdges(rings: seq<seq<Point>>): set<(Point, Point)> {
    if rings == [] then {} else AllEdges(rings[..|rings| - 1]) + Edges(rings[|rings| - 1])
  }

  /** Every point of an edge is mapped to the points it shares an edge with. */
  ghost predicate IsGraph(edges: set<(Point, Point)>, graph: Graph) {
    && (forall a, b :: (a, b) in edges || (b, a) in edges <==> a in graph && b in graph[a])
    && (forall a | a in graph :: graph[a] != {})
  }

  lemma GraphIsUnique(edges: set<(Point, Point)>, g: Graph, h: Graph)
    requires IsGraph(edges, g) && IsGraph(edges, h)
    ensures g == h
  {
    forall a ensures a in g <==> a in h {
      if a in g { var b :| b in g[a]; assert (a, b) in edges || (b, a) in edges; }
      if a in h { var b :| b in h[a]; assert (a, b) in edges || (b, a) in edges; }
    }
    forall a | a in g ensures g[a] == h[a] {
      forall b ensures b in g[a] <==> b in h[a] { assert (a, b) in edges || (b, a) in edges <==> b in g[a]; }
    }
  }

  /** Points where other than two edges meet. */
  function Junctions(graph: Graph): set<Point> {
    set p | p in graph && |graph[p]| != 2
  }

  function Linked(graph: Graph, a: Point, b: Point): Graph {
    graph[a := (if a in graph then graph[a] else {}) + {b}]
  }

  lemma LinkedBoth(edges: set<(Point, Point)>, graph: Graph, a: Point, b: Point)
    requires IsGraph(edges, graph)
    ensures IsGraph(edges + {(a, b)}, Linked(Linked(graph, a, b), b, a))
  {
  }

  method BuildGraph(rings: seq<seq<Point>>) returns (graph: Graph)
    ensures IsGraph(AllEdges(rings), graph)
  {
    graph := map[];
    for k := 0 to |rings|
      invariant IsGraph(AllEdges(rings[..k]), graph)
    {
      var ring := rings[k];
      assert rings[..k + 1][..k] == rings[..k];
      graph := AddRing(AllEdges(rings[..k]), graph, ring);
    }
    assert rings[..|rings|] == rings;
  }

  method AddRing(ghost edges: set<(Point, Point)>, before: Graph, ring: seq<Point>) returns (graph: Graph)
    requires IsGraph(edges, before)
    ensures IsGraph(edges + Edges(ring), graph)
  {
    graph := before;
    if |ring| < 2 {
      assert edges + Edges(ring) == edges;
      return;
    }
    assert edges + Edges(ring[..1]) == edges;
    for i := 1 to |ring|
      invariant IsGraph(edges + Edges(ring[..i]), graph)
    {
      assert ring[..i + 1][..i] == ring[..i];
      LinkedBoth(edges + Edges(ring[..i]), graph, ring[i - 1], ring[i]);
      assert edges + Edges(ring[..i + 1]) == edges + Edges(ring[..i]) + {(ring[i - 1], ring[i])};
      graph := Linked(Linked(graph, ring[i - 1], ring[i]), ring[i], ring[i - 1]);
    }
    assert ring[..|ring|] == ring;
  }

  // ----- chains -----

  /** The chain as it comes out, simplified in the direction that starts with the lesser end. */
  function SimplifiedChain(d: Measure, chain: seq<Point>): seq<Point>
    requires |chain| > 0
  {
    if Less(chain[|chain| - 1], chain[0]) then Reversed(SimplifiedBy(d, Reversed(chain))) else SimplifiedBy(d, chain)
  }

  lemma EndsAreKept(d: Measure, chain: seq<Point>)
    requires |chain| > 1
    ensures var s := SimplifiedChain(d, chain); |s| > 1 && s[0] == chain[0] && s[|s| - 1] == chain[|chain| - 1]
  {
    if Less(chain[|chain| - 1], chain[0]) { SimplifiedEnds(d, Reversed(chain)); } else { SimplifiedEnds(d, chain); }
  }

  lemma SimplifiedEnds(d: Measure, points: seq<Point>)
    requires |points| > 1
    ensures var s := SimplifiedBy(d, points); |s| > 1 && s[0] == points[0] && s[|s| - 1] == points[|points| - 1]
  {
    var indices := SortedIndices(Keep(d, points));
    EndIndices(Keep(d, points), |points| - 1, indices);
  }

  lemma EndIndices(keep: set<int>, n: int, indices: seq<int>)
    requires 0 in keep && n in keep && n > 0 && (forall k | k in keep :: 0 <= k <= n)
    requires (forall k :: k in indices <==> k in keep) && forall i, j | 0 <= i < j < |indices| :: indices[i] < indices[j]
    ensures |indices| > 1 && indices[0] == 0 && indices[|indices| - 1] == n
  {
    var a :| 0 <= a < |indices| && indices[a] == 0;
    var b :| 0 <= b < |indices| && indices[b] == n;
    var first, last := indices[0], indices[|indices| - 1];
    assert first in indices && last in indices;
  }

  // ----- rings -----

  function Chain(points: seq<Point>, first: int, last: int): (chain: seq<Point>)
    requires 0 <= first < |points| && 0 <= last < |points|
    ensures |chain| > 1 && chain[0] == points[first] && chain[|chain| - 1] == points[last]
  {
    if last > first then points[first..last + 1] else points[first..] + points[..last + 1]
  }

  predicate SplitsOf(points: seq<Point>, splits: seq<int>) {
    |splits| > 0 && forall i | 0 <= i < |splits| :: 0 <= splits[i] < |points|
  }

  function NextSplit(splits: seq<int>, k: int): int
    requires 0 <= k < |splits|
  {
    if k + 1 < |splits| then splits[k + 1] else splits[0]
  }

  /** The chain from one split to the next, simplified and without its last point. */
  function Piece(d: Measure, points: seq<Point>, splits: seq<int>, k: nat): (piece: seq<Point>)
    requires SplitsOf(points, splits) && k < |splits|
    ensures |piece| > 0 && piece[0] == points[splits[k]]
  {
    var chain := Chain(points, splits[k], NextSplit(splits, k));
    EndsAreKept(d, chain);
    var piece := SimplifiedChain(d, chain);
    piece[..|piece| - 1]
  }

  function Parts(d: Measure, points: seq<Point>, splits: seq<int>): (parts: seq<seq<Point>>)
    requires SplitsOf(points, splits)
    ensures |parts| == |splits| && forall k | 0 <= k < |splits| :: parts[k] == Piece(d, points, splits, k)
  {
    seq(|splits|, k requires 0 <= k < |splits| => Piece(d, points, splits, k))
  }

  function Flat(parts: seq<seq<Point>>): seq<Point> {
    if parts == [] then [] else Flat(parts[..|parts| - 1]) + parts[|parts| - 1]
  }

  lemma {:induction false} FlatKeeps(parts: seq<seq<Point>>, k: nat, p: Point)
    requires k < |parts| && p in parts[k]
    ensures p in Flat(parts)
    decreases |parts|
  {
    if k < |parts| - 1 { FlatKeeps(parts[..|parts| - 1], k, p); }
  }

  function JunctionSplits(points: seq<Point>, junctions: set<Point>, n: nat): (splits: seq<int>)
    requires n <= |points|
    ensures forall i :: i in splits <==> 0 <= i < n && points[i] in junctions
    ensures SplitsOf(points, splits) || splits == []
  {
    if n == 0 then [] else
      JunctionSplits(points, junctions, n - 1) + if points[n - 1] in junctions then [n - 1] else []
  }

  /** The first of the least points. */
  function LeastIndex(points: seq<Point>, n: nat): (index: int)
    requires 0 < n <= |points|
    ensures 0 <= index < n && forall i | 0 <= i < n :: points[index].x < points[i].x || (points[index].x == points[i].x && points[index].y <= points[i].y)
    ensures forall i | 0 <= i < index :: points[i] != points[index]
  {
    if n == 1 then 0 else
      var least := LeastIndex(points, n - 1);
      if Less(points[n - 1], points[least]) then n - 1 else least
  }

  /** The first of the points farthest from the anchor. The distance to a point is that to a segment which
  begins and ends there. */
  function FarthestIndex(d: Measure, points: seq<Point>, anchor: Point, n: nat): (index: int)
    requires 0 < n <= |points|
    ensures 0 <= index < n && forall i | 0 <= i < n :: d(points[i], anchor, anchor) <= d(points[index], anchor, anchor)
    ensures forall i | 0 <= i < index :: d(points[i], anchor, anchor) < d(points[index], anchor, anchor)
  {
    if n == 1 then 0 else
      var farthest := FarthestIndex(d, points, anchor, n - 1);
      if d(points[n - 1], anchor, anchor) > d(points[farthest], anchor, anchor) then n - 1 else farthest
  }

  /** The anchor and its opposite in ascending order. */
  function Both(anchor: int, opposite: int): (both: seq<int>)
    ensures |both| > 0 && anchor in both && forall k | 0 <= k < |both| :: both[k] == anchor || both[k] == opposite
  {
    if anchor < opposite then [anchor, opposite] else if opposite < anchor then [opposite, anchor] else [anchor]
  }

  /** The splits of a ring: its junctions, or two fixed points if it has fewer than two. */
  function Splits(d: Measure, points: seq<Point>, junctions: set<Point>): (splits: seq<int>)
    requires |points| > 0
    ensures SplitsOf(points, splits) && forall i | 0 <= i < |points| && points[i] in junctions :: i in splits
  {
    var found := JunctionSplits(points, junctions, |points|);
    if |found| >= 2 then found else
      var anchor := if |found| > 0 then found[0] else LeastIndex(points, |points|);
      assert forall i | 0 <= i < |points| && points[i] in junctions :: i in found;
      Both(anchor, FarthestIndex(d, points, points[anchor], |points|))
  }

  lemma JunctionsAreKept(d: Measure, points: seq<Point>, junctions: set<Point>, i: int)
    requires 0 <= i < |points| && points[i] in junctions
    ensures points[i] in Flat(Parts(d, points, Splits(d, points, junctions)))
  {
    var splits := Splits(d, points, junctions);
    var k :| 0 <= k < |splits| && splits[k] == i;
    FirstOfPiece(d, points, splits, k);
    FlatKeeps(Parts(d, points, splits), k, points[i]);
  }

  lemma FirstOfPiece(d: Measure, points: seq<Point>, splits: seq<int>, k: nat)
    requires SplitsOf(points, splits) && k < |splits|
    ensures points[splits[k]] in Piece(d, points, splits, k)
  {
    var piece := Piece(d, points, splits, k);
    assert piece[0] in piece;
  }

  method FindJunctions(points: seq<Point>, junctions: set<Point>) returns (splits: seq<int>)
    ensures splits == JunctionSplits(points, junctions, |points|)
  {
    splits := [];
    for i := 0 to |points|
      invariant splits == JunctionSplits(points, junctions, i)
    {
      if points[i] in junctions {
        splits := splits + [i];
      }
    }
  }

  method FindSplits(d: Measure, points: seq<Point>, junctions: set<Point>) returns (splits: seq<int>)
    requires |points| > 0
    ensures splits == Splits(d, points, junctions)
  {
    splits := FindJunctions(points, junctions);
    if |splits| < 2 {
      var anchor;
      if |splits| > 0 {
        anchor := splits[0];
      } else {
        anchor := 0;
        for i := 1 to |points|
          invariant anchor == LeastIndex(points, i)
        {
          if Less(points[i], points[anchor]) {
            anchor := i;
          }
        }
      }
      var opposite := 0;
      for i := 1 to |points|
        invariant opposite == FarthestIndex(d, points, points[anchor], i)
      {
        if d(points[i], points[anchor], points[anchor]) > d(points[opposite], points[anchor], points[anchor]) {
          opposite := i;
        }
      }
      splits := Both(anchor, opposite);
    }
  }

  /** Chains that were simplified before, in the direction that starts with the lesser end. */
  ghost predicate CacheOk(d: Measure, chains: map<seq<Point>, seq<Point>>) {
    forall key | key in chains :: |key| > 0 && chains[key] == SimplifiedBy(d, key)
  }

  method SimplifyChain(d: Measure, chain: seq<Point>, chains: map<seq<Point>, seq<Point>>)
    returns (simplified: seq<Point>, known: map<seq<Point>, seq<Point>>)
    requires |chain| > 0 && CacheOk(d, chains)
    ensures simplified == SimplifiedChain(d, chain) && CacheOk(d, known)
  {
    var reverse := Less(chain[|chain| - 1], chain[0]);
    known := chains;
    if reverse {
      simplified, known := SimplifyOnce(d, Reversed(chain), chains);
      simplified := Reversed(simplified);
    } else {
      simplified, known := SimplifyOnce(d, chain, chains);
    }
  }

  method SimplifyOnce(d: Measure, key: seq<Point>, chains: map<seq<Point>, seq<Point>>)
    returns (simplified: seq<Point>, known: map<seq<Point>, seq<Point>>)
    requires |key| > 0 && CacheOk(d, chains)
    ensures simplified == SimplifiedBy(d, key) && CacheOk(d, known)
  {
    if key in chains {
      return chains[key], chains;
    }
    simplified := SimplifyBy(d, key);
    known := chains[key := simplified];
  }

  method SimplifyPiece(d: Measure, points: seq<Point>, splits: seq<int>, k: nat, chains: map<seq<Point>, seq<Point>>)
    returns (piece: seq<Point>, known: map<seq<Point>, seq<Point>>)
    requires SplitsOf(points, splits) && k < |splits| && CacheOk(d, chains)
    ensures piece == Piece(d, points, splits, k) && CacheOk(d, known)
  {
    var chain := Chain(points, splits[k], NextSplit(splits, k));
    EndsAreKept(d, chain);
    piece, known := SimplifyChain(d, chain, chains);
    piece := piece[..|piece| - 1];
  }

  function Closed(pieces: seq<Point>): Option<seq<Point>> {
    if |pieces| < 3 then None else Some(pieces + [pieces[0]])
  }

  /** The ring that comes out: closed again, or refused if fewer than three points are left. */
  function SimplifiedRing(d: Measure, ring: seq<Point>, junctions: set<Point>): Option<seq<Point>>
    requires |ring| > 1
  {
    var points := ring[..|ring| - 1];
    Closed(Flat(Parts(d, points, Splits(d, points, junctions))))
  }

  method SimplifyRing(d: Measure, ring: seq<Point>, junctions: set<Point>, chains: map<seq<Point>, seq<Point>>)
    returns (result: Option<seq<Point>>, known: map<seq<Point>, seq<Point>>)
    requires |ring| > 1 && CacheOk(d, chains)
    ensures CacheOk(d, known) && result == SimplifiedRing(d, ring, junctions)
  {
    var points := ring[..|ring| - 1];
    var splits := FindSplits(d, points, junctions);
    var newRing;
    newRing, known := SimplifyParts(d, points, splits, chains);
    result := Closed(newRing);
  }

  method SimplifyParts(d: Measure, points: seq<Point>, splits: seq<int>, chains: map<seq<Point>, seq<Point>>)
    returns (newRing: seq<Point>, known: map<seq<Point>, seq<Point>>)
    requires SplitsOf(points, splits) && CacheOk(d, chains)
    ensures CacheOk(d, known) && newRing == Flat(Parts(d, points, splits))
  {
    ghost var parts := Parts(d, points, splits);
    newRing, known := [], chains;
    for k := 0 to |splits|
      invariant CacheOk(d, known) && newRing == Flat(parts[..k])
    {
      var piece;
      piece, known := SimplifyPiece(d, points, splits, k, known);
      FlatGrows(parts, k);
      newRing := newRing + piece;
    }
    assert parts[..|splits|] == parts;
  }

  lemma FlatGrows(parts: seq<seq<Point>>, k: nat)
    requires k < |parts|
    ensures Flat(parts[..k + 1]) == Flat(parts[..k]) + parts[k]
  {
    assert parts[..k + 1][..k] == parts[..k];
  }

  /** All rings, or None as soon as one collapses. */
  function SimplifiedRings(d: Measure, rings: seq<seq<Point>>, junctions: set<Point>): (result: Option<seq<seq<Point>>>)
    requires forall k | 0 <= k < |rings| :: |rings[k]| > 1
    ensures result.Some? ==> |result.value| == |rings|
  {
    if rings == [] then Some([]) else
      var last := |rings| - 1;
      match SimplifiedRings(d, rings[..last], junctions)
      case None => None
      case Some(simplified) => Added(simplified, SimplifiedRing(d, rings[last], junctions))
  }

  function Added(simplified: seq<seq<Point>>, ring: Option<seq<Point>>): Option<seq<seq<Point>>> {
    match ring case None => None case Some(r) => Some(simplified + [r])
  }

  lemma {:induction false} OneCollapsed(d: Measure, rings: seq<seq<Point>>, junctions: set<Point>, n: nat)
    requires forall k | 0 <= k < |rings| :: |rings[k]| > 1
    requires n <= |rings| && SimplifiedRings(d, rings[..n], junctions) == None
    ensures SimplifiedRings(d, rings, junctions) == None
    decreases |rings|
  {
    if n < |rings| {
      var front := rings[..|rings| - 1];
      assert front[..n] == rings[..n];
      OneCollapsed(d, front, junctions, n);
    } else {
      assert rings[..n] == rings;
    }
  }

  lemma RingsGrow(d: Measure, rings: seq<seq<Point>>, junctions: set<Point>, k: nat, simplified: seq<seq<Point>>)
    requires forall k | 0 <= k < |rings| :: |rings[k]| > 1
    requires k < |rings| && SimplifiedRings(d, rings[..k], junctions) == Some(simplified)
    ensures SimplifiedRings(d, rings[..k + 1], junctions) == Added(simplified, SimplifiedRing(d, rings[k], junctions))
  {
    assert rings[..k + 1][..k] == rings[..k];
  }

  /** simplify_rings; None when a ring collapses. */
  method SimplifyRings(d: Measure, rings: seq<seq<Point>>) returns (result: Option<seq<seq<Point>>>)
    requires forall k | 0 <= k < |rings| :: |rings[k]| > 1
    ensures exists graph :: IsGraph(AllEdges(rings), graph) && result == SimplifiedRings(d, rings, Junctions(graph))
  {
    var graph := BuildGraph(rings);
    result := SimplifyAll(d, rings, Junctions(graph));
  }

  method SimplifyAll(d: Measure, rings: seq<seq<Point>>, junctions: set<Point>) returns (result: Option<seq<seq<Point>>>)
    requires forall k | 0 <= k < |rings| :: |rings[k]| > 1
    ensures result == SimplifiedRings(d, rings, junctions)
  {
    var chains: map<seq<Point>, seq<Point>> := map[];
    var simplified: seq<seq<Point>> := [];
    for k := 0 to |rings|
      invariant CacheOk(d, chains) && SimplifiedRings(d, rings[..k], junctions) == Some(simplified)
    {
      RingsGrow(d, rings, junctions, k, simplified);
      var ring;
      ring, chains := SimplifyRing(d, rings[k], junctions, chains);
      if ring.None? {
        OneCollapsed(d, rings, junctions, k + 1);
        return None;
      }
      simplified := simplified + [ring.value];
    }
    assert rings[..|rings|] == rings;
    result := Some(simplified);
  }

  /** Every junction of a ring is a point of the simplified ring, which is closed. */
  lemma SimplifiedRingKeepsJunctions(d: Measure, ring: seq<Point>, junctions: set<Point>, i: int)
    requires |ring| > 1 && SimplifiedRing(d, ring, junctions).Some? && 0 <= i < |ring| - 1 && ring[i] in junctions
    ensures var simplified := SimplifiedRing(d, ring, junctions).value; ring[i] in simplified && simplified[0] == simplified[|simplified| - 1]
  {
    JunctionsAreKept(d, ring[..|ring| - 1], junctions, i);
  }
}
