/** What a simplified ring has to do with the ring: it takes some of its points, in their order around the ring, every
junction among them, and all others are near the line between the two taken points around them. */
module MapOutline {
  import opened Rows
  import opened MapDistance
  import opened MapSimplify
  import opened MapRings
  import opened MapTies
  import MapBorders

  // ----- which points of a chain are kept -----

  /** A kept inner point was, between two other kept points, more than ten metres off and farthest. */
  ghost predicate IsFarthestOff(d: Measure, points: seq<Point>, keep: set<int>, a: int, k: int, b: int) {
    && 0 <= a < k < b < |points| && a in keep && b in keep && d(points[k], points[a], points[b]) > 10.0 * 10.0
    && forall i | a < i < b :: d(points[i], points[a], points[b]) <= d(points[k], points[a], points[b])
  }

  lemma KeptPointsAreFar(d: Measure, points: seq<Point>, k: int) returns (a: int, b: int)
    requires |points| > 0 && k in Keep(d, points) && 0 < k < |points| - 1
    ensures IsFarthestOff(d, points, Keep(d, points), a, k, b)
  {
    a, b := FarWithin(d, points, 0, |points| - 1, k);
  }

  lemma {:induction false} FarWithin(d: Measure, points: seq<Point>, first: int, last: int, k: int) returns (a: int, b: int)
    requires 0 <= first < last < |points| && k in Kept(d, points, first, last)
    ensures IsFarthestOff(d, points, {first, last} + Kept(d, points, first, last), a, k, b)
    decreases last - first
  {
    var m := FarthestInner(d, points, first, last).0;
    if k == m {
      a, b := first, last;
    } else if k in Kept(d, points, first, m) {
      a, b := FarWithin(d, points, first, m, k);
    } else {
      a, b := FarWithin(d, points, m, last, k);
    }
  }

  // ----- outlines -----

  ghost predicate Ascends(at: seq<int>) { forall i, j | 0 <= i < j < |at| :: at[i] < at[j] }

  /** A line takes points of another one, from the first to the last, in their order. */
  ghost predicate Takes(points: int -> Point, start: int, end: int, at: seq<int>, line: seq<Point>) {
    && |at| == |line| > 1 && at[0] == start && at[|at| - 1] == end && Ascends(at)
    && forall k | 0 <= k < |at| :: line[k] == points(at[k])
  }

  ghost predicate IsNear(d: Measure, points: int -> Point, at: seq<int>, line: seq<Point>, k: nat, i: int)
    requires |at| == |line| && k + 1 < |at|
  {
    at[k] < i < at[k + 1] ==> d(points(i), line[k], line[k + 1]) <= 10.0 * 10.0
  }

  /** All points between two that it takes are within ten metres of the segment between these. */
  ghost predicate IsOutline(d: Measure, points: int -> Point, start: int, end: int, at: seq<int>, line: seq<Point>) {
    Takes(points, start, end, at, line) && forall k: nat, i | k + 1 < |at| :: IsNear(d, points, at, line, k, i)
  }

  function Of(chain: seq<Point>): int -> Point
    requires |chain| > 0
  {
    (i: int) => if 0 <= i < |chain| then chain[i] else chain[0]
  }

  lemma SimplifiedIsOutline(d: Measure, chain: seq<Point>) returns (at: seq<int>)
    requires |chain| > 1
    ensures IsOutline(d, Of(chain), 0, |chain| - 1, at, SimplifiedBy(d, chain))
  {
    at := SortedIndices(Keep(d, chain));
    EndIndices(Keep(d, chain), |chain| - 1, at);
    assert forall k | 0 <= k < |at| :: at[k] in at;
    forall k: nat, i | k + 1 < |at| ensures IsNear(d, Of(chain), at, SimplifiedBy(d, chain), k, i) {
      if at[k] < i < at[k + 1] { GapIsNear(d, chain, at, k, i); }
    }
  }

  lemma GapIsNear(d: Measure, chain: seq<Point>, at: seq<int>, k: nat, i: int)
    requires |chain| > 1 && at == SortedIndices(Keep(d, chain)) && k + 1 < |at| && at[k] < i < at[k + 1]
    ensures 0 <= at[k] < i < at[k + 1] < |chain| && d(chain[i], chain[at[k]], chain[at[k + 1]]) <= 10.0 * 10.0
  {
    var keep := Keep(d, chain);
    assert at[k] in at && at[k + 1] in at;
    NoneBetween(at, k, i);
    DroppedPointsAreNear(d, chain, i);
    var a, b :| Enclose(keep, a, i, b) && 0 <= a < b < |chain| && d(chain[i], chain[a], chain[b]) <= TOLERANCE_SQUARED;
    BothAround(at, keep, k, a, i, b);
  }

  lemma NoneBetween(at: seq<int>, k: nat, i: int)
    requires Ascends(at) && k + 1 < |at| && at[k] < i < at[k + 1]
    ensures i !in at
  {
  }

  lemma BothAround(at: seq<int>, keep: set<int>, k: nat, a: int, i: int, b: int)
    requires Ascends(at) && (forall x :: x in at <==> x in keep) && k + 1 < |at| && at[k] < i < at[k + 1] && Enclose(keep, a, i, b)
    ensures a == at[k] && b == at[k + 1]
  {
    assert at[k] in at && at[k + 1] in at && a in at && b in at;
    var x :| 0 <= x < |at| && at[x] == a;
    var y :| 0 <= y < |at| && at[y] == b;
  }

  /** The other way round the same points are taken. */
  lemma ReversedIsOutline(d: Measure, chain: seq<Point>, at: seq<int>, line: seq<Point>) returns (back: seq<int>)
    requires Symmetric(d) && |chain| > 0 && IsOutline(d, Of(Reversed(chain)), 0, |chain| - 1, at, line)
    ensures IsOutline(d, Of(chain), 0, |chain| - 1, back, Reversed(line))
  {
    var n := |at|;
    back := seq(n, k requires 0 <= k < n => |chain| - 1 - at[n - 1 - k]);
    assert forall k | 0 <= k < n :: at[0] <= at[k] <= at[n - 1];
    forall k | 0 <= k < n ensures Reversed(line)[k] == Of(chain)(back[k]) {
      assert line[n - 1 - k] == Of(Reversed(chain))(at[n - 1 - k]);
    }
    forall k: nat, i | k + 1 < n ensures IsNear(d, Of(chain), back, Reversed(line), k, i) { ReversedIsNear(d, chain, at, line, back, k, i); }
  }

  lemma ReversedIsNear(d: Measure, chain: seq<Point>, at: seq<int>, line: seq<Point>, back: seq<int>, k: nat, i: int)
    requires Symmetric(d) && |chain| > 0 && |at| == |line| == |back| && k + 1 < |at|
    requires forall k | 0 <= k < |at| :: back[k] == |chain| - 1 - at[|at| - 1 - k] && 0 <= at[k] < |chain|
    requires IsNear(d, Of(Reversed(chain)), at, line, |at| - 2 - k, |chain| - 1 - i)
    ensures IsNear(d, Of(chain), back, Reversed(line), k, i)
  {
  }

  lemma ChainIsOutline(d: Measure, chain: seq<Point>) returns (at: seq<int>)
    requires Symmetric(d) && |chain| > 1
    ensures IsOutline(d, Of(chain), 0, |chain| - 1, at, SimplifiedChain(d, chain))
  {
    if Less(chain[|chain| - 1], chain[0]) {
      var back := SimplifiedIsOutline(d, Reversed(chain));
      at := ReversedIsOutline(d, chain, back, SimplifiedBy(d, Reversed(chain)));
    } else {
      at := SimplifiedIsOutline(d, chain);
    }
  }

  // ----- rings -----

  /** The points of a ring, round and round. */
  function Around(points: seq<Point>): int -> Point
    requires |points| > 0
  {
    (i: int) => points[i % |points|]
  }

  lemma ShiftedIsOutline(d: Measure, f: int -> Point, g: int -> Point, first: int, length: int, at: seq<int>, line: seq<Point>) returns (shifted: seq<int>)
    requires IsOutline(d, f, 0, length, at, line) && forall t | 0 <= t <= length :: f(t) == g(first + t)
    ensures IsOutline(d, g, first, first + length, shifted, line)
  {
    shifted := seq(|at|, k requires 0 <= k < |at| => first + at[k]);
    assert forall k | 0 <= k < |at| :: 0 <= at[k] <= length;
    forall k: nat, i | k + 1 < |shifted| ensures IsNear(d, g, shifted, line, k, i) {
      assert IsNear(d, f, at, line, k, i - first);
      if shifted[k] < i < shifted[k + 1] { assert 0 <= at[k] < i - first < at[k + 1] <= length && f(i - first) == g(first + (i - first)); }
    }
  }

  ghost function EndOf(points: seq<Point>, first: int, last: int): int { if last > first then last else last + |points| }

  lemma PieceIsOutline(d: Measure, points: seq<Point>, splits: seq<int>, k: nat, end: int) returns (at: seq<int>)
    requires Symmetric(d) && SplitsOf(points, splits) && k < |splits| && end == EndOf(points, splits[k], NextSplit(splits, k))
    ensures IsOutline(d, Around(points), splits[k], end, at, Piece(d, points, splits, k) + [Around(points)(end)])
  {
    var first, last := splits[k], NextSplit(splits, k);
    var chain := Chain(points, first, last);
    ChainIsAround(points, first, last);
    PieceAndEnd(d, points, splits, k, chain);
    var own := ChainIsOutline(d, chain);
    at := ShiftedIsOutline(d, Of(chain), Around(points), first, |chain| - 1, own, SimplifiedChain(d, chain));
  }

  lemma PieceAndEnd(d: Measure, points: seq<Point>, splits: seq<int>, k: nat, chain: seq<Point>)
    requires SplitsOf(points, splits) && k < |splits| && chain == Chain(points, splits[k], NextSplit(splits, k))
    ensures SimplifiedChain(d, chain) == Piece(d, points, splits, k) + [chain[|chain| - 1]]
  {
    var s := SimplifiedChain(d, chain);
    EndsAreKept(d, chain);
    AllButLast(s);
  }

  lemma AllButLast(s: seq<Point>)
    requires s != []
    ensures s == s[..|s| - 1] + [s[|s| - 1]]
  {
  }

  lemma AroundOnce(points: seq<Point>, i: int)
    requires 0 <= i < 2 * |points|
    ensures Around(points)(i) == if i < |points| then points[i] else points[i - |points|]
  {
    if i >= |points| { assert i % |points| == i - |points|; }
  }

  lemma ChainIsAround(points: seq<Point>, first: int, last: int)
    requires 0 <= first < |points| && 0 <= last < |points|
    ensures var chain := Chain(points, first, last);
            |chain| - 1 == EndOf(points, first, last) - first && forall t | 0 <= t < |chain| :: Of(chain)(t) == Around(points)(first + t)
    ensures Around(points)(EndOf(points, first, last)) == points[last]
  {
    AroundOnce(points, EndOf(points, first, last));
    var chain := Chain(points, first, last);
    forall t | 0 <= t < |chain| ensures Of(chain)(t) == Around(points)(first + t) {
      AroundOnce(points, first + t);
      if last <= first && first + t < |points| { assert points[first..][t] == points[first + t]; }
    }
  }

  lemma JoinedIsOutline(d: Measure, g: int -> Point, start: int, middle: int, end: int, at: seq<int>, line: seq<Point>, more: seq<int>, rest: seq<Point>)
    requires IsOutline(d, g, start, middle, at, line) && IsOutline(d, g, middle, end, more, rest)
    ensures IsOutline(d, g, start, end, at[..|at| - 1] + more, line[..|line| - 1] + rest)
  {
    var n := |at| - 1;
    var both, whole := at[..n] + more, line[..n] + rest;
    JoinedTakes(g, start, middle, end, at, line, more, rest);
    assert both[n] == at[n] && whole[n] == line[n];
    forall k: nat, i | k + 1 < |both| ensures IsNear(d, g, both, whole, k, i) {
      if k < n {
        assert both[k] == at[k] && both[k + 1] == at[k + 1] && whole[k] == line[k] && whole[k + 1] == line[k + 1];
        assert IsNear(d, g, at, line, k, i);
      } else {
        assert both[k] == more[k - n] && both[k + 1] == more[k + 1 - n] && whole[k] == rest[k - n] && whole[k + 1] == rest[k + 1 - n];
        assert IsNear(d, g, more, rest, k - n, i);
      }
    }
  }

  lemma JoinedTakes(g: int -> Point, start: int, middle: int, end: int, at: seq<int>, line: seq<Point>, more: seq<int>, rest: seq<Point>)
    requires Takes(g, start, middle, at, line) && Takes(g, middle, end, more, rest)
    ensures Takes(g, start, end, at[..|at| - 1] + more, line[..|line| - 1] + rest)
  {
    JoinedAscends(at, more);
  }

  lemma JoinedAscends(at: seq<int>, more: seq<int>)
    requires Ascends(at) && Ascends(more) && at != [] && more != [] && at[|at| - 1] == more[0]
    ensures Ascends(at[..|at| - 1] + more)
  {
    var n := |at| - 1;
    var both := at[..n] + more;
    forall i, j | 0 <= i < j < |both| ensures both[i] < both[j] {
      if i < n <= j { assert at[i] < at[n] && more[0] <= more[j - n]; }
    }
  }

  ghost predicate AreAscendingSplits(points: seq<Point>, splits: seq<int>) { SplitsOf(points, splits) && Ascends(splits) }

  /** Where the n-th chain begins; after the last one the ring has been gone round once. */
  ghost function Stop(points: seq<Point>, splits: seq<int>, n: nat): int
    requires SplitsOf(points, splits) && n <= |splits|
  {
    if n < |splits| then splits[n] else splits[0] + |points|
  }

  /** A line from one split to the next, without its end. */
  ghost predicate IsPiece(d: Measure, points: seq<Point>, start: int, end: int, piece: seq<Point>)
    requires |points| > 0
  {
    exists at :: IsOutline(d, Around(points), start, end, at, piece + [Around(points)(end)])
  }

  ghost predicate ArePieces(d: Measure, points: seq<Point>, splits: seq<int>, parts: seq<seq<Point>>) {
    && AreAscendingSplits(points, splits) && |parts| <= |splits|
    && forall k | 0 <= k < |parts| :: IsPiece(d, points, splits[k], Stop(points, splits, k + 1), parts[k])
  }

  lemma PartsArePieces(d: Measure, points: seq<Point>, splits: seq<int>)
    requires Symmetric(d) && AreAscendingSplits(points, splits)
    ensures ArePieces(d, points, splits, Parts(d, points, splits)) && |Parts(d, points, splits)| == |splits|
  {
    forall k | 0 <= k < |splits| ensures IsPiece(d, points, splits[k], Stop(points, splits, k + 1), Piece(d, points, splits, k)) {
      var at := PieceIsOutline(d, points, splits, k, Stop(points, splits, k + 1));
    }
  }

  lemma {:induction false} FlatIsOutline(d: Measure, points: seq<Point>, splits: seq<int>, parts: seq<seq<Point>>, end: int, line: seq<Point>)
    returns (at: seq<int>)
    requires parts != [] && ArePieces(d, points, splits, parts) && end == Stop(points, splits, |parts|) && line == Flat(parts) + [Around(points)(end)]
    ensures IsOutline(d, Around(points), splits[0], end, at, line)
    ensures forall m | 0 <= m < |parts| :: splits[m] in at
    decreases |parts|
  {
    var n := |parts|;
    var front, piece := Flat(parts[..n - 1]), parts[n - 1];
    assert IsPiece(d, points, splits[n - 1], end, piece);
    var last :| IsOutline(d, Around(points), splits[n - 1], end, last, piece + [Around(points)(end)]);
    assert last[0] in last;
    if n == 1 {
      at := last;
      assert front + piece == piece;
    } else {
      var middle := splits[n - 1];
      var before := FlatIsOutline(d, points, splits, parts[..n - 1], middle, front + [Around(points)(middle)]);
      JoinedIsOutline(d, Around(points), splits[0], middle, end, before, front + [Around(points)(middle)], last, piece + [Around(points)(end)]);
      at := before[..|before| - 1] + last;
      Spliced(front, Around(points)(middle), piece, Around(points)(end));
      StaysIn(before, last, splits, n);
    }
  }

  lemma Spliced(front: seq<Point>, p: Point, piece: seq<Point>, q: Point)
    ensures (front + [p])[..|front + [p]| - 1] + (piece + [q]) == front + piece + [q]
  {
  }

  lemma StaysIn(before: seq<int>, last: seq<int>, splits: seq<int>, n: nat)
    requires 1 < n <= |splits| && before != [] && last != [] && before[|before| - 1] == last[0] == splits[n - 1]
    requires forall m | 0 <= m < n - 1 :: splits[m] in before
    ensures forall m | 0 <= m < n :: splits[m] in before[..|before| - 1] + last
  {
    forall m | 0 <= m < n - 1 ensures splits[m] in before[..|before| - 1] + last {
      var k :| 0 <= k < |before| && before[k] == splits[m];
      if k == |before| - 1 { assert last[0] in last; } else { assert before[..|before| - 1][k] == splits[m]; }
    }
    assert last[0] in last;
  }

  lemma {:induction false} JunctionSplitsAscend(points: seq<Point>, junctions: set<Point>, n: nat)
    requires n <= |points|
    ensures Ascends(JunctionSplits(points, junctions, n))
    decreases n
  {
    if n > 0 {
      var before := JunctionSplits(points, junctions, n - 1);
      JunctionSplitsAscend(points, junctions, n - 1);
      if points[n - 1] in junctions { OneMoreAscends(before, n - 1); } else { assert before + [] == before; }
    }
  }

  lemma OneMoreAscends(before: seq<int>, n: int)
    requires Ascends(before) && forall i | i in before :: i < n
    ensures Ascends(before + [n])
  {
    forall i, j | 0 <= i < j < |before + [n]| ensures (before + [n])[i] < (before + [n])[j] {
      assert before[i] in before;
    }
  }

  lemma SplitsAscend(d: Measure, points: seq<Point>, junctions: set<Point>)
    requires |points| > 0
    ensures Ascends(Splits(d, points, junctions))
  {
    var found := JunctionSplits(points, junctions, |points|);
    JunctionSplitsAscend(points, junctions, |points|);
    if |found| < 2 {
      var anchor := if |found| > 0 then found[0] else LeastIndex(points, |points|);
      BothAscend(anchor, FarthestIndex(d, points, points[anchor], |points|));
    }
  }

  lemma BothAscend(anchor: int, opposite: int)
    ensures Ascends(Both(anchor, opposite))
  {
  }

  /** The simplified ring, closed, takes every junction; it is refused exactly if fewer than three points are left. */
  lemma RingIsOutline(d: Measure, ring: seq<Point>, junctions: set<Point>, points: seq<Point>)
    returns (start: int, at: seq<int>, line: seq<Point>)
    requires Symmetric(d) && |ring| > 1 && points == ring[..|ring| - 1]
    ensures SimplifiedRing(d, ring, junctions) == if |line| < 4 then None else Some(line)
    ensures 0 <= start < |points| && IsOutline(d, Around(points), start, start + |points|, at, line)
    ensures forall i | 0 <= i < |points| && points[i] in junctions :: i in at
  {
    var splits := Splits(d, points, junctions);
    SplitsAscend(d, points, junctions);
    start := splits[0];
    PartsArePieces(d, points, splits);
    at, line := PartsAreOutline(d, points, splits, Parts(d, points, splits), start);
    EveryJunctionIsTaken(d, points, junctions, at);
    ClosedLine(Flat(Parts(d, points, splits)), line);
  }

  lemma EveryJunctionIsTaken(d: Measure, points: seq<Point>, junctions: set<Point>, at: seq<int>)
    requires |points| > 0 && forall k | k in Splits(d, points, junctions) :: k in at
    ensures forall i | 0 <= i < |points| && points[i] in junctions :: i in at
  {
  }

  lemma PartsAreOutline(d: Measure, points: seq<Point>, splits: seq<int>, parts: seq<seq<Point>>, start: int)
    returns (at: seq<int>, line: seq<Point>)
    requires ArePieces(d, points, splits, parts) && |parts| == |splits| && start == splits[0]
    ensures IsOutline(d, Around(points), start, start + |points|, at, line)
    ensures Flat(parts) == line[..|line| - 1] && line[0] == line[|line| - 1]
    ensures forall k | k in splits :: k in at
  {
    line := Flat(parts) + [Around(points)(start + |points|)];
    at := FlatIsOutline(d, points, splits, parts, start + |points|, line);
    OutlineCloses(d, points, start, at, line);
  }

  lemma OutlineCloses(d: Measure, points: seq<Point>, start: int, at: seq<int>, line: seq<Point>)
    requires 0 <= start < |points| && IsOutline(d, Around(points), start, start + |points|, at, line)
    ensures line[0] == line[|line| - 1]
  {
    AroundOnce(points, start + |points|);
    AroundOnce(points, start);
  }

  lemma ClosedLine(pieces: seq<Point>, line: seq<Point>)
    requires |line| > 1 && pieces == line[..|line| - 1] && line[0] == line[|line| - 1]
    ensures Closed(pieces) == if |line| < 4 then None else Some(line)
  {
    assert line == pieces + [line[0]];
  }

  // ----- all rings -----

  /** Some ring goes from one point to the other. */
  ghost predicate IsStep(rings: seq<seq<Point>>, k: int, i: int, p: Point, q: Point) {
    0 <= k < |rings| && 0 < i < |rings[k]| && rings[k][i - 1] == p && rings[k][i] == q
  }

  ghost predicate HasStep(rings: seq<seq<Point>>, p: Point, q: Point) { exists k, i :: IsStep(rings, k, i, p, q) }

  ghost predicate AreNeighbours(rings: seq<seq<Point>>, p: Point, q: Point) { HasStep(rings, p, q) || HasStep(rings, q, p) }

  ghost predicate HasExactlyTwo(rings: seq<seq<Point>>, p: Point) {
    exists a, b :: a != b && AreTheNeighbours(rings, p, a, b)
  }

  ghost predicate AreTheNeighbours(rings: seq<seq<Point>>, p: Point, a: Point, b: Point) { forall q :: AreNeighbours(rings, p, q) <==> q == a || q == b }

  /** A point of a ring that does not have exactly two neighbours in all rings together. */
  ghost predicate IsJunction(rings: seq<seq<Point>>, p: Point) {
    (exists q :: AreNeighbours(rings, p, q)) && !HasExactlyTwo(rings, p)
  }

  lemma {:induction false} EdgesAre(ring: seq<Point>, p: Point, q: Point)
    ensures (p, q) in Edges(ring) <==> exists i :: 0 < i < |ring| && ring[i - 1] == p && ring[i] == q
    decreases |ring|
  {
    if |ring| >= 2 {
      var n := |ring| - 1;
      EdgesAre(ring[..n], p, q);
      if i :| 0 < i < |ring| && ring[i - 1] == p && ring[i] == q && i < n { assert ring[..n][i - 1] == p && ring[..n][i] == q; }
      if i :| 0 < i < n && ring[..n][i - 1] == p && ring[..n][i] == q { assert ring[i - 1] == p && ring[i] == q; }
      if (p, q) == (ring[n - 1], ring[n]) { assert ring[n - 1] == p && ring[n] == q; }
    }
  }

  lemma {:induction false} AllEdgesAre(rings: seq<seq<Point>>, p: Point, q: Point)
    ensures (p, q) in AllEdges(rings) <==> HasStep(rings, p, q)
    decreases |rings|
  {
    if rings != [] {
      var n := |rings| - 1;
      AllEdgesAre(rings[..n], p, q);
      EdgesAre(rings[n], p, q);
      if k, i :| IsStep(rings[..n], k, i, p, q) { assert IsStep(rings, k, i, p, q); }
      if i :| 0 < i < |rings[n]| && rings[n][i - 1] == p && rings[n][i] == q { assert IsStep(rings, n, i, p, q); }
      if k, i :| IsStep(rings, k, i, p, q) && k < n { assert IsStep(rings[..n], k, i, p, q); }
    }
  }

  lemma NeighboursAre(rings: seq<seq<Point>>, graph: Graph, p: Point, q: Point)
    requires IsGraph(AllEdges(rings), graph)
    ensures AreNeighbours(rings, p, q) <==> p in graph && q in graph[p]
  {
    AllEdgesAre(rings, p, q);
    AllEdgesAre(rings, q, p);
  }

  lemma JunctionsAreExact(rings: seq<seq<Point>>, graph: Graph, p: Point)
    requires IsGraph(AllEdges(rings), graph)
    ensures p in Junctions(graph) <==> IsJunction(rings, p)
  {
    forall q ensures AreNeighbours(rings, p, q) <==> p in graph && q in graph[p] { NeighboursAre(rings, graph, p, q); }
    if p in graph { TwoNeighbours(rings, p, graph[p]); }
  }

  lemma TwoNeighbours(rings: seq<seq<Point>>, p: Point, neighbours: set<Point>)
    requires forall q :: AreNeighbours(rings, p, q) <==> q in neighbours
    ensures HasExactlyTwo(rings, p) <==> |neighbours| == 2
  {
    if |neighbours| == 2 {
      var a, b := TwoElements(neighbours);
      assert AreTheNeighbours(rings, p, a, b);
    }
    if a, b :| a != b && AreTheNeighbours(rings, p, a, b) {
      assert neighbours == {a, b};
    }
  }

  lemma TwoElements(s: set<Point>) returns (a: Point, b: Point)
    requires |s| == 2
    ensures a != b && s == {a, b}
  {
    a :| a in s;
    var rest := s - {a};
    assert |rest| == 1;
    b :| b in rest;
    assert |rest - {b}| == 0;
  }

  lemma {:induction false} OneIsRefused(d: Measure, rings: seq<seq<Point>>, junctions: set<Point>) returns (k: nat)
    requires (forall j | 0 <= j < |rings| :: |rings[j]| > 1) && SimplifiedRings(d, rings, junctions) == None
    ensures k < |rings| && SimplifiedRing(d, rings[k], junctions) == None
    decreases |rings|
  {
    k := |rings| - 1;
    if SimplifiedRing(d, rings[k], junctions) != None { k := OneIsRefused(d, rings[..k], junctions); }
  }

  /** Every ring that is shown goes once around the original: it takes its points in their order, all junctions among them,
  and all points that it leaves out are within ten metres of the border shown in their place. */
  lemma RingsAreOutlines(rings: seq<seq<Point>>, graph: Graph, shown: seq<seq<Point>>, k: nat, points: seq<Point>) returns (start: int, at: seq<int>)
    requires IsGraph(AllEdges(rings), graph) && forall j | 0 <= j < |rings| :: |rings[j]| > 1
    requires SimplifiedRings(SegmentDistanceSquared, rings, Junctions(graph)) == Some(shown)
    requires k < |rings| && points == rings[k][..|rings[k]| - 1]
    ensures |shown| == |rings| && |shown[k]| >= 4 && 0 <= start < |points|
    ensures IsOutline(SegmentDistanceSquared, Around(points), start, start + |points|, at, shown[k])
    ensures forall i | 0 <= i < |points| && IsJunction(rings, points[i]) :: i in at
  {
    SegmentDistancesAreSymmetric();
    var one := MapBorders.RingOfAll(SegmentDistanceSquared, rings, Junctions(graph), shown, k, rings[k]);
    var line;
    start, at, line := RingIsOutline(SegmentDistanceSquared, rings[k], Junctions(graph), points);
    forall i | 0 <= i < |points| && IsJunction(rings, points[i]) ensures i in at { JunctionsAreExact(rings, graph, points[i]); }
  }

  /** A refusal means that of some ring fewer than three points are left. */
  lemma RefusedRingsCollapse(d: Measure, rings: seq<seq<Point>>, junctions: set<Point>) returns (k: nat, start: int, at: seq<int>, line: seq<Point>)
    requires Symmetric(d) && (forall j | 0 <= j < |rings| :: |rings[j]| > 1) && SimplifiedRings(d, rings, junctions) == None
    ensures k < |rings| && |line| < 4
    ensures var points := rings[k][..|rings[k]| - 1]; IsOutline(d, Around(points), start, start + |points|, at, line)
  {
    k := OneIsRefused(d, rings, junctions);
    start, at, line := RingIsOutline(d, rings[k], junctions, rings[k][..|rings[k]| - 1]);
  }
}
