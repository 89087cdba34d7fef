/** Pockets: a ring that touches its surroundings in one junction only. The ring around it passes that junction twice
and follows the pocket as one closed chain, while the pocket itself is split at its farthest point. */
module MapPockets {
  import opened Rows
  import opened MapDistance
  import opened MapSimplify
  import opened MapRings
  import opened MapTies
  import opened MapBorders
  import opened MapIslands

  // ----- a part of a chain on its own -----

  /** The part begins at index `n` of the chain. */
  predicate IsPart(chain: seq<Point>, part: seq<Point>, n: int) {
    0 <= n && n + |part| <= |chain| && forall k | 0 <= k < |part| :: part[k] == chain[n + k]
  }

  /** The indices of one set are those of the other, less `n`. */
  ghost predicate AreShifted(a: set<int>, b: set<int>, n: int) {
    forall j, k | j + n == k :: j in a <==> k in b
  }

  lemma {:induction false} FarthestShifted(d: Measure, chain: seq<Point>, part: seq<Point>, n: int, first: int, last: int, end: int)
    requires IsPart(chain, part, n) && 0 <= first <= last < |part| && first < end <= last + 1
    ensures Farthest(d, part, first, last, end).0 + n == Farthest(d, chain, n + first, n + last, n + end).0
    ensures Farthest(d, part, first, last, end).1 == Farthest(d, chain, n + first, n + last, n + end).1
    decreases end
  {
    if end > first + 1 { FarthestShifted(d, chain, part, n, first, last, end - 1); }
  }

  lemma InnerShifted(d: Measure, chain: seq<Point>, part: seq<Point>, n: int, first: int, last: int, a: int, b: int)
    returns (far: (int, real), other: (int, real))
    requires IsPart(chain, part, n) && 0 <= first <= last < |part| && a == n + first && b == n + last
    ensures far == FarthestInner(d, part, first, last) && other == FarthestInner(d, chain, a, b) && other == (n + far.0, far.1)
  {
    far, other := FarthestInner(d, part, first, last), FarthestInner(d, chain, a, b);
    FarthestShifted(d, chain, part, n, first, last, if first < last then last else last + 1);
  }

  lemma {:induction false} KeptShifted(d: Measure, chain: seq<Point>, part: seq<Point>, n: int, first: int, last: int, a: int, b: int)
    returns (x: set<int>, y: set<int>)
    requires IsPart(chain, part, n) && 0 <= first <= last < |part| && a == n + first && b == n + last
    ensures x == Kept(d, part, first, last) && y == Kept(d, chain, a, b) && AreShifted(x, y, n)
    decreases last - first
  {
    var m, c := StepShifted(d, chain, part, n, first, last, a, b);
    x, y := {}, {};
    if first < m < last {
      var low, left := KeptShifted(d, chain, part, n, first, m, a, c);
      var high, right := KeptShifted(d, chain, part, n, m, last, c, b);
      JoinShifted(low, left, high, right, m, c, n);
      x, y := low + {m} + high, left + {c} + right;
    }
  }

  lemma StepShifted(d: Measure, chain: seq<Point>, part: seq<Point>, n: int, first: int, last: int, a: int, b: int)
    returns (m: int, c: int)
    requires IsPart(chain, part, n) && 0 <= first <= last < |part| && a == n + first && b == n + last
    ensures c == n + m
    ensures if first < m < last then
              && Kept(d, part, first, last) == Kept(d, part, first, m) + {m} + Kept(d, part, m, last)
              && Kept(d, chain, a, b) == Kept(d, chain, a, c) + {c} + Kept(d, chain, c, b)
            else Kept(d, part, first, last) == {} && Kept(d, chain, a, b) == {}
  {
    var far, other := InnerShifted(d, chain, part, n, first, last, a, b);
    m := if far.1 > TOLERANCE_SQUARED then far.0 else first;
    c := n + m;
    SplitAt(d, part, first, last, m);
    SplitAt(d, chain, a, b, c);
  }

  lemma SplitAt(d: Measure, points: seq<Point>, first: int, last: int, m: int)
    requires 0 <= first <= last < |points|
    requires m == if FarthestInner(d, points, first, last).1 > TOLERANCE_SQUARED then FarthestInner(d, points, first, last).0 else first
    ensures if first < m < last then Kept(d, points, first, last) == Kept(d, points, first, m) + {m} + Kept(d, points, m, last)
            else Kept(d, points, first, last) == {}
  {
  }

  lemma JoinShifted(low: set<int>, left: set<int>, high: set<int>, right: set<int>, m: int, c: int, n: int)
    requires AreShifted(low, left, n) && AreShifted(high, right, n) && c == n + m
    ensures AreShifted(low + {m} + high, left + {c} + right, n)
  {
  }

  lemma {:induction false} NoTiesShifted(d: Measure, chain: seq<Point>, part: seq<Point>, n: int, first: int, last: int, a: int, b: int)
    requires IsPart(chain, part, n) && 0 <= first <= last < |part| && a == n + first && b == n + last && NoTies(d, chain, a, b)
    ensures NoTies(d, part, first, last)
    decreases last - first
  {
    var far, other := InnerShifted(d, chain, part, n, first, last, a, b);
    if far.1 > TOLERANCE_SQUARED {
      NoTiesSplit(d, chain, a, b, other);
      NoTiesShifted(d, chain, part, n, first, far.0, a, other.0);
      NoTiesShifted(d, chain, part, n, far.0, last, other.0, b);
      forall i | first < i < last && i != far.0 ensures d(part[i], part[first], part[last]) < far.1 {
        assert part[i] == chain[n + i] && n + i != other.0;
      }
    }
  }

  lemma NoTiesSplit(d: Measure, chain: seq<Point>, a: int, b: int, far: (int, real))
    requires 0 <= a <= b < |chain| && NoTies(d, chain, a, b) && far == FarthestInner(d, chain, a, b) && far.1 > TOLERANCE_SQUARED
    ensures a < far.0 < b && NoTies(d, chain, a, far.0) && NoTies(d, chain, far.0, b)
    ensures forall i | a < i < b && i != far.0 :: d(chain[i], chain[a], chain[b]) < far.1
  {
  }

  /** Without ties a chain comes out the same whichever end it starts from. */
  lemma SimplifiedForward(d: Measure, chain: seq<Point>)
    requires Symmetric(d) && |chain| > 0 && NoTies(d, chain, 0, |chain| - 1)
    ensures SimplifiedChain(d, chain) == SimplifiedBy(d, chain)
  {
    NoTiesAreHarmless(d, chain, 0, |chain| - 1);
    SimplifiedTheOtherWay(d, chain);
    ReversedTwice(SimplifiedBy(d, chain));
  }

  // ----- a chain and its two halves -----

  /** The indices of a chain are those of its first half, up to `m`, and then those of its second half, from `m` on. */
  ghost predicate Joins(low: set<int>, high: set<int>, all: set<int>, m: int) {
    && 0 in high && m in low && (forall k | k in low :: k <= m) && (forall k | k in high :: k >= 0)
    && (forall j, k | j + m == k :: k in all <==> k in low || j in high)
  }

  /** The kept indices of a chain are those of its first half and then those of its second half. */
  lemma JoinedIndices(low: set<int>, high: set<int>, all: set<int>, m: int)
    requires Joins(low, high, all, m)
    ensures |SortedIndices(high)| > 0
    ensures SortedIndices(all) == SortedIndices(low) + Raised(SortedIndices(high)[1..], m)
  {
    var s, t := SortedIndices(low), SortedIndices(high);
    assert 0 in t;
    assert t[0] == 0;
    var joined := s + Raised(t[1..], m);
    JoinedAscends(s, t, m);
    forall k ensures k in joined <==> k in SortedIndices(all) {
      RaisedMember(t[1..], m, k);
      TailMember(t, k - m);
      assert (k - m) + m == k;
      assert k in joined <==> k in s || k in Raised(t[1..], m);
      if k == m { assert m in s; }
    }
    SortedIsUnique(SortedIndices(all), joined);
  }

  function Raised(s: seq<int>, m: int): (raised: seq<int>)
    ensures |raised| == |s| && forall i | 0 <= i < |s| :: raised[i] == s[i] + m
  {
    seq(|s|, i requires 0 <= i < |s| => s[i] + m)
  }

  lemma RaisedMember(s: seq<int>, m: int, k: int)
    ensures k in Raised(s, m) <==> k - m in s
  {
    if k in Raised(s, m) {
      var i :| 0 <= i < |s| && Raised(s, m)[i] == k;
      assert s[i] == k - m;
    }
    if k - m in s {
      var i :| 0 <= i < |s| && s[i] == k - m;
      assert Raised(s, m)[i] == k;
    }
  }

  lemma TailMember(t: seq<int>, k: int)
    requires |t| > 0 && t[0] == 0 && Ascends(t)
    ensures k in t[1..] <==> k in t && k != 0
  {
    if k in t[1..] {
      var i :| 0 <= i < |t[1..]| && t[1..][i] == k;
      assert t[i + 1] == k;
    }
    if k in t && k != 0 {
      var i :| 0 <= i < |t| && t[i] == k;
      assert t[1..][i - 1] == k;
    }
  }

  lemma JoinedAscends(s: seq<int>, t: seq<int>, m: int)
    requires Ascends(s) && Ascends(t) && |t| > 0 && t[0] == 0 && forall k | k in s :: k <= m
    ensures Ascends(s + Raised(t[1..], m))
  {
    var joined := s + Raised(t[1..], m);
    forall i, j | 0 <= i < j < |joined| ensures joined[i] < joined[j] {
      if j >= |s| {
        assert joined[j] == t[1..][j - |s|] + m;
        if i < |s| { assert s[i] in s; } else { assert joined[i] == t[1..][i - |s|] + m; }
      }
    }
  }

  lemma JoinedChoice(chain: seq<Point>, one: seq<Point>, two: seq<Point>, s: seq<int>, t: seq<int>, m: int)
    requires IsPart(chain, one, 0) && IsPart(chain, two, m) && |t| > 0
    requires IndicesOf(s, one) && IndicesOf(t, two)
    ensures var joined := s + Raised(t[1..], m);
            && (forall i | 0 <= i < |joined| :: 0 <= joined[i] < |chain|)
            && Chosen(chain, joined) == Chosen(one, s) + Chosen(two, t)[1..]
  {
  }

  /** The farthest point of a chain, if it is kept, and the two halves that meet there. */
  predicate Halves(d: Measure, chain: seq<Point>, m: int, one: seq<Point>, two: seq<Point>) {
    && 0 < m < |chain| - 1 && |one| == m + 1 && |two| == |chain| - m && IsPart(chain, one, 0) && IsPart(chain, two, m)
    && m == FarthestInner(d, chain, 0, |chain| - 1).0 && FarthestInner(d, chain, 0, |chain| - 1).1 > TOLERANCE_SQUARED
  }

  /** A chain whose farthest point is kept comes out as its two halves, one after the other. */
  lemma HalvesAreJoined(d: Measure, chain: seq<Point>, m: int, one: seq<Point>, two: seq<Point>)
    returns (whole: seq<Point>, front: seq<Point>, back: seq<Point>)
    requires Halves(d, chain, m, one, two)
    ensures whole == SimplifiedBy(d, chain) && front == SimplifiedBy(d, one) && back == SimplifiedBy(d, two)
    ensures |back| > 0 && whole == front + back[1..]
  {
    var low, high, all := KeptHalves(d, chain, m, one, two);
    var s, t, u;
    s, front := SimplifiedIs(d, one, low);
    t, back := SimplifiedIs(d, two, high);
    u, whole := SimplifiedIs(d, chain, all);
    JoinsChosen(chain, one, two, m, low, high, all, s, t, u);
  }

  lemma JoinsChosen(chain: seq<Point>, one: seq<Point>, two: seq<Point>, m: int, low: set<int>, high: set<int>, all: set<int>,
                    s: seq<int>, t: seq<int>, u: seq<int>)
    requires IsPart(chain, one, 0) && IsPart(chain, two, m) && Joins(low, high, all, m)
    requires s == SortedIndices(low) && t == SortedIndices(high) && u == SortedIndices(all)
    requires IndicesOf(s, one) && IndicesOf(t, two) && IndicesOf(u, chain)
    ensures |t| > 0 && Chosen(chain, u) == Chosen(one, s) + Chosen(two, t)[1..]
  {
    JoinedIndices(low, high, all, m);
    JoinedChoice(chain, one, two, s, t, m);
  }

  predicate IndicesOf(s: seq<int>, points: seq<Point>) { forall i | 0 <= i < |s| :: 0 <= s[i] < |points| }

  lemma KeptHalves(d: Measure, chain: seq<Point>, m: int, one: seq<Point>, two: seq<Point>)
    returns (low: set<int>, high: set<int>, all: set<int>)
    requires Halves(d, chain, m, one, two)
    ensures low == Keep(d, one) && high == Keep(d, two) && all == Keep(d, chain) && Joins(low, high, all, m)
  {
    var n := |chain| - 1;
    var x, y, left, right;
    low, x, left := KeptPart(d, chain, one, 0, m, 0, m);
    high, y, right := KeptPart(d, chain, two, m, n - m, m, n);
    all := KeptWhole(d, chain, m, n, one, two, left, right);
    HalvesOfSet(low, high, all, x, y, left, right, m, n);
  }

  lemma KeptPart(d: Measure, chain: seq<Point>, part: seq<Point>, from: int, n: int, a: int, b: int)
    returns (keep: set<int>, kept: set<int>, there: set<int>)
    requires IsPart(chain, part, from) && |part| == n + 1 && n >= 0 && a == from && b == from + n
    ensures keep == Keep(d, part) && keep == {0, n} + kept && (forall k | k in keep :: 0 <= k <= n)
    ensures AreShifted(kept, there, from) && there == Kept(d, chain, a, b)
  {
    kept, there := KeptShifted(d, chain, part, from, 0, n, a, b);
    keep := {0, n} + kept;
    KeepIs(d, part, n, kept, keep);
  }

  lemma KeptWhole(d: Measure, chain: seq<Point>, m: int, n: int, one: seq<Point>, two: seq<Point>, left: set<int>, right: set<int>)
    returns (all: set<int>)
    requires |chain| == n + 1 && 0 < m < n && Halves(d, chain, m, one, two)
    requires left == Kept(d, chain, 0, m) && right == Kept(d, chain, m, n)
    ensures all == Keep(d, chain) && all == {0, n} + (left + {m} + right)
  {
    all := {0, n} + (left + {m} + right);
    SplitAt(d, chain, 0, n, m);
    KeepIs(d, chain, n, left + {m} + right, all);
  }

  lemma KeepIs(d: Measure, chain: seq<Point>, n: int, kept: set<int>, keep: set<int>)
    requires |chain| == n + 1 && n >= 0 && kept == Kept(d, chain, 0, n) && keep == {0, n} + kept
    ensures keep == Keep(d, chain) && 0 in keep && n in keep && forall k | k in keep :: 0 <= k <= n
  {
  }

  lemma SimplifiedIs(d: Measure, chain: seq<Point>, keep: set<int>) returns (indices: seq<int>, simplified: seq<Point>)
    requires |chain| > 0 && keep == Keep(d, chain)
    ensures indices == SortedIndices(keep) && IndicesOf(indices, chain)
    ensures simplified == SimplifiedBy(d, chain) && simplified == Chosen(chain, indices)
  {
    indices, simplified := SortedIndices(keep), SimplifiedBy(d, chain);
    forall i | 0 <= i < |indices| ensures 0 <= indices[i] < |chain| { assert indices[i] in keep; }
  }

  lemma HalvesOfSet(low: set<int>, high: set<int>, all: set<int>, x: set<int>, y: set<int>, left: set<int>, right: set<int>, m: int, n: int)
    requires low == {0, m} + x && high == {0, n - m} + y && all == {0, n} + (left + {m} + right)
    requires AreShifted(x, left, 0) && AreShifted(y, right, m)
    requires (forall k | k in low :: 0 <= k <= m) && (forall k | k in high :: 0 <= k <= n - m)
    ensures Joins(low, high, all, m)
  {
    forall j, k | j + m == k ensures k in all <==> k in low || j in high {
      assert k + 0 == k && (k in x <==> k in left);
    }
  }

  // ----- pockets -----

  /** The border of the one ring comes back to its junction, and the other ring consists of it, followed the other way. */
  predicate IsPocket(one: seq<Point>, other: seq<Point>, junctions: set<Point>, i: int, run: seq<Point>, o: int) {
    && |one| > 1 && |other| > 1 && IsBorder(one[..|one| - 1], junctions, i, run)
    && run[0] == run[|run| - 1] && Distinct(run[..|run| - 1]) && IsTurnedRing(run[..|run| - 1], other[..|other| - 1], o)
  }

  /** The farthest point of the closed chain is kept, and neither it nor any later split has a tie. */
  ghost predicate Untied(d: Measure, run: seq<Point>) {
    && Symmetric(d) && |run| > 1 && d(run[0], run[0], run[0]) <= TOLERANCE_SQUARED
    && FarthestInner(d, run, 0, |run| - 1).1 > TOLERANCE_SQUARED && NoTies(d, run, 0, |run| - 1)
  }

  lemma UntiedHalves(d: Measure, run: seq<Point>) returns (m: int, one: seq<Point>, two: seq<Point>)
    requires Untied(d, run)
    ensures m == FarthestInner(d, run, 0, |run| - 1).0
    ensures Halves(d, run, m, one, two) && one == run[..m + 1] && two == run[m..] && one[..|one| - 1] + two == run
    ensures NoTies(d, one, 0, m) && NoTies(d, two, 0, |run| - 1 - m)
  {
    var n, far := |run| - 1, FarthestInner(d, run, 0, |run| - 1);
    NoTiesSplit(d, run, 0, n, far);
    m := far.0;
    one, two := Parted(run, m);
    NoTiesShifted(d, run, one, 0, 0, m, 0, m);
    NoTiesShifted(d, run, two, m, 0, n - m, m, n);
  }

  lemma Parted(run: seq<Point>, m: int) returns (one: seq<Point>, two: seq<Point>)
    requires 0 < m < |run| - 1
    ensures one == run[..m + 1] && two == run[m..] && one[..|one| - 1] + two == run
    ensures |one| == m + 1 && |two| == |run| - m && IsPart(run, one, 0) && IsPart(run, two, m)
  {
    one, two := run[..m + 1], run[m..];
  }

  lemma WholeIsBothHalves(d: Measure, run: seq<Point>, m: int, a: seq<Point>, b: seq<Point>)
    returns (whole: seq<Point>, front: seq<Point>, back: seq<Point>)
    requires Untied(d, run) && Halves(d, run, m, a, b) && NoTies(d, a, 0, m) && NoTies(d, b, 0, |run| - 1 - m)
    ensures whole == SimplifiedChain(d, run) && front == SimplifiedChain(d, a) && back == SimplifiedChain(d, b)
    ensures |back| > 0 && whole == front + back[1..]
  {
    SimplifiedForward(d, run);
    SimplifiedForward(d, a);
    SimplifiedForward(d, b);
    whole, front, back := HalvesAreJoined(d, run, m, a, b);
  }

  /** The ring around the pocket shows both halves of the closed border, one after the other. */
  lemma SurroundingShows(d: Measure, one: seq<Point>, junctions: set<Point>, first: seq<Point>, i: int, run: seq<Point>,
                         m: int, a: seq<Point>, b: seq<Point>)
    requires |one| > 1 && IsBorder(one[..|one| - 1], junctions, i, run) && Untied(d, run) && Halves(d, run, m, a, b)
    requires NoTies(d, a, 0, m) && NoTies(d, b, 0, |run| - 1 - m) && SimplifiedRing(d, one, junctions) == Some(first)
    ensures ShowsHalves(d, first, a, b)
  {
    var whole, front, back := WholeIsBothHalves(d, run, m, a, b);
    BorderIsShown(d, one, junctions, i, run);
  }

  lemma PocketIsSplit(d: Measure, one: seq<Point>, other: seq<Point>, junctions: set<Point>, i: int, run: seq<Point>, o: int, m: int)
    returns (s: int, t: int)
    requires IsPocket(one, other, junctions, i, run, o) && Untied(d, run) && m == FarthestInner(d, run, 0, |run| - 1).0
    ensures 0 < m < |run| - 1 && 0 <= o < |run| - 1 && s == Opposed(|run| - 1, o, 0) && t == Opposed(|run| - 1, o, m) && s != t
    ensures |other| == |run| && Splits(d, other[..|other| - 1], junctions) == Both(s, t)
  {
    var points, others := run[..|run| - 1], other[..|other| - 1];
    JunctionIsAnchor(one, junctions, i, run, points);
    FarthestIsUnique(d, run, points, m);
    s, t := Opposed(|points|, o, 0), Opposed(|points|, o, m);
    TurnedSplits(d, points, others, junctions, o, run[0], run[m], 0, m);
  }

  lemma JunctionIsAnchor(one: seq<Point>, junctions: set<Point>, i: int, run: seq<Point>, points: seq<Point>)
    requires |one| > 1 && IsBorder(one[..|one| - 1], junctions, i, run) && points == run[..|run| - 1]
    ensures IsAnchor(points, junctions, run[0])
  {
    assert points[0] == run[0];
    forall p | p in points && p in junctions ensures p == run[0] {
      var k :| 0 <= k < |points| && points[k] == p;
      assert points[k] == run[k];
    }
  }

  lemma FarthestIsUnique(d: Measure, run: seq<Point>, points: seq<Point>, m: int)
    requires Untied(d, run) && run[0] == run[|run| - 1] && points == run[..|run| - 1] && m == FarthestInner(d, run, 0, |run| - 1).0
    ensures 0 < m < |run| - 1 && IsFarthest(d, points, run[0], run[m])
  {
    var a, f := run[0], run[m];
    assert points[m] == f;
    forall p | p in points && p != f ensures d(p, a, a) < d(f, a, a) {
      var k :| 0 <= k < |points| && points[k] == p;
      assert run[k] == p;
    }
  }

  /** The pocket shows one half of its border, followed the other way. */
  lemma PocketShowsHalf(d: Measure, other: seq<Point>, junctions: set<Point>, second: seq<Point>, points: seq<Point>, o: int,
                        from: int, to: int, half: seq<Point>)
    requires |other| > 1 && IsTurnedRing(points, other[..|other| - 1], o) && SimplifiedRing(d, other, junctions) == Some(second)
    requires 0 <= from < |points| && 0 <= to < |points| && from != to && IsRun(points, from, half) && EndOf(points, from, half) == to
    requires half[0] != half[|half| - 1]
    requires var (s, t) := (Opposed(|points|, o, from), Opposed(|points|, o, to));
             Splits(d, other[..|other| - 1], junctions) in {Both(s, t), Both(t, s)}
    ensures Shows(second, Reversed(SimplifiedChain(d, half)))
  {
    var others := other[..|other| - 1];
    TurnedRun(points, others, o, from, half);
    RunIsChain(others, Opposed(|points|, o, to), Reversed(half));
    IslandChainIsShown(d, other, junctions, second, Opposed(|points|, o, to), Opposed(|points|, o, from));
    OpenChainsComeOutReversed(d, half);
  }

  lemma HalvesAreRuns(run: seq<Point>, points: seq<Point>, m: int, one: seq<Point>, two: seq<Point>)
    requires |run| > 1 && points == run[..|run| - 1] && run[0] == run[|run| - 1] && 0 < m < |run| - 1
    requires one == run[..m + 1] && two == run[m..]
    ensures IsRun(points, 0, one) && EndOf(points, 0, one) == m && IsRun(points, m, two) && EndOf(points, m, two) == 0
  {
  }

  /** The border of a pocket is shown as exact reverses by both rings if it has no ties: the ring around it shows its two
  halves after one another, and the pocket shows each of them the other way. */
  lemma PocketsStayReverses(d: Measure, one: seq<Point>, other: seq<Point>, junctions: set<Point>, first: seq<Point>, second: seq<Point>,
                            i: int, run: seq<Point>, o: int) returns (a: seq<Point>, b: seq<Point>)
    requires IsPocket(one, other, junctions, i, run, o) && Untied(d, run)
    requires SimplifiedRing(d, one, junctions) == Some(first) && SimplifiedRing(d, other, junctions) == Some(second)
    ensures |a| > 0 && |b| > 0 && a[..|a| - 1] + b == run
    ensures ShowsHalves(d, first, a, b) && ShowsReverses(d, second, a, b)
  {
    var m;
    m, a, b := UntiedHalves(d, run);
    SurroundingShows(d, one, junctions, first, i, run, m, a, b);
    PocketShows(d, one, other, junctions, second, i, run, o, m, a, b);
  }

  ghost predicate ShowsHalves(d: Measure, ring: seq<Point>, a: seq<Point>, b: seq<Point>)
    requires |a| > 0 && |b| > 0
  {
    |SimplifiedChain(d, b)| > 0 && Shows(ring, SimplifiedChain(d, a) + SimplifiedChain(d, b)[1..])
  }

  ghost predicate ShowsReverses(d: Measure, ring: seq<Point>, a: seq<Point>, b: seq<Point>)
    requires |a| > 0 && |b| > 0
  {
    Shows(ring, Reversed(SimplifiedChain(d, a))) && Shows(ring, Reversed(SimplifiedChain(d, b)))
  }

  lemma PocketShows(d: Measure, one: seq<Point>, other: seq<Point>, junctions: set<Point>, second: seq<Point>,
                    i: int, run: seq<Point>, o: int, m: int, a: seq<Point>, b: seq<Point>)
    requires IsPocket(one, other, junctions, i, run, o) && Untied(d, run) && SimplifiedRing(d, other, junctions) == Some(second)
    requires Halves(d, run, m, a, b) && a == run[..m + 1] && b == run[m..]
    ensures ShowsReverses(d, second, a, b)
  {
    var s, t := PocketIsSplit(d, one, other, junctions, i, run, o, m);
    HalvesAreRuns(run, run[..|run| - 1], m, a, b);
    PocketEnds(run, m);
    BothHalves(d, other, junctions, second, run[..|run| - 1], o, m, a, b, s, t);
  }

  lemma PocketEnds(run: seq<Point>, m: int)
    requires |run| > 1 && Distinct(run[..|run| - 1]) && 0 < m < |run| - 1
    ensures run[0] != run[m]
  {
    assert run[..|run| - 1][0] == run[0] && run[..|run| - 1][m] == run[m];
  }

  lemma BothHalves(d: Measure, other: seq<Point>, junctions: set<Point>, second: seq<Point>, points: seq<Point>, o: int,
                   m: int, a: seq<Point>, b: seq<Point>, s: int, t: int)
    requires |other| > 1 && IsTurnedRing(points, other[..|other| - 1], o) && SimplifiedRing(d, other, junctions) == Some(second)
    requires 0 < m < |points| && IsRun(points, 0, a) && EndOf(points, 0, a) == m && IsRun(points, m, b) && EndOf(points, m, b) == 0
    requires a[0] != a[|a| - 1] && b[0] != b[|b| - 1]
    requires s == Opposed(|points|, o, 0) && t == Opposed(|points|, o, m) && Splits(d, other[..|other| - 1], junctions) == Both(s, t)
    ensures ShowsReverses(d, second, a, b)
  {
    PocketShowsHalf(d, other, junctions, second, points, o, 0, m, a);
    PocketShowsHalf(d, other, junctions, second, points, o, m, 0, b);
  }
}
