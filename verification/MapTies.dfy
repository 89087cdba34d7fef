/** Chains followed in either direction: when they come out the same, and what ties have to do with it. */
module MapTies {
  import opened Rows
  import opened MapDistance
  import opened MapSimplify
  import opened MapRings

  ghost predicate Symmetric(d: Measure) {
    forall p, a, b :: d(p, a, b) == d(p, b, a)
  }

  lemma SegmentDistancesAreSymmetric()
    ensures Symmetric(SegmentDistanceSquared)
  {
    forall p, a, b ensures SegmentDistanceSquared(p, a, b) == SegmentDistanceSquared(p, b, a) {
      SegmentDistanceIsSymmetric(p, a, b);
    }
  }

  // ----- ties -----

  /** As `Farthest`, but scanning from the other end: of equally far points the last one counts. */
  function FarthestFromEnd(d: Measure, points: seq<Point>, first: int, last: int, start: int): (far: (int, real))
    requires 0 <= first <= last < |points| && first < start <= last
    ensures far.1 >= 0.0 && (far.0 == last || start <= far.0 < last)
    ensures far.0 == last ==> far.1 == 0.0
    ensures far.0 != last ==> far.1 == d(points[far.0], points[first], points[last])
    ensures forall i | start <= i < last :: d(points[i], points[first], points[last]) <= far.1
    decreases last - start
  {
    if start == last then (last, 0.0) else
      var after := FarthestFromEnd(d, points, first, last, start + 1);
      var candidate := d(points[start], points[first], points[last]);
      if candidate > after.1 then (start, candidate) else after
  }

  function FarthestInnerFromEnd(d: Measure, points: seq<Point>, first: int, last: int): (far: (int, real))
    requires 0 <= first <= last < |points|
    ensures far.1 > TOLERANCE_SQUARED ==> first < far.0 < last && far.1 == d(points[far.0], points[first], points[last])
    ensures forall i | first < i < last :: d(points[i], points[first], points[last]) <= far.1
  {
    if first < last then FarthestFromEnd(d, points, first, last, first + 1) else (last, 0.0)
  }

  /** The inner points that are kept when of equally far points the last one counts. */
  function KeptFromEnd(d: Measure, points: seq<Point>, first: int, last: int): (kept: set<int>)
    requires 0 <= first <= last < |points|
    ensures forall k | k in kept :: first < k < last
    decreases last - first
  {
    var (m, distance) := FarthestInnerFromEnd(d, points, first, last);
    if distance > TOLERANCE_SQUARED then KeptFromEnd(d, points, first, m) + {m} + KeptFromEnd(d, points, m, last) else {}
  }

  /** It makes no difference which of equally far points counts. */
  predicate TiesAreHarmless(d: Measure, chain: seq<Point>)
    requires |chain| > 0
  {
    KeptFromEnd(d, chain, 0, |chain| - 1) == Kept(d, chain, 0, |chain| - 1)
  }

  /** In every range that is split, one point is farther than all others. */
  predicate NoTies(d: Measure, points: seq<Point>, first: int, last: int)
    requires 0 <= first <= last < |points|
    decreases last - first
  {
    var (m, distance) := FarthestInner(d, points, first, last);
    distance > TOLERANCE_SQUARED ==>
      && (forall i | first < i < last && i != m :: d(points[i], points[first], points[last]) < distance)
      && NoTies(d, points, first, m) && NoTies(d, points, m, last)
  }

  lemma {:induction false} NoTiesAreHarmless(d: Measure, points: seq<Point>, first: int, last: int)
    requires 0 <= first <= last < |points| && NoTies(d, points, first, last)
    ensures KeptFromEnd(d, points, first, last) == Kept(d, points, first, last)
    decreases last - first
  {
    var (m, distance) := FarthestInner(d, points, first, last);
    var (n, other) := FarthestInnerFromEnd(d, points, first, last);
    if distance > TOLERANCE_SQUARED {
      assert other >= distance && n == m;
      NoTiesAreHarmless(d, points, first, m);
      NoTiesAreHarmless(d, points, m, last);
    } else {
      assert other <= TOLERANCE_SQUARED by {
        assert first < n < last ==> d(points[n], points[first], points[last]) <= distance;
      }
    }
  }

  // ----- a chain followed the other way -----

  /** The chain, followed the other way, comes out as the exact reverse. */
  predicate ComesOutReversed(d: Measure, chain: seq<Point>)
    requires |chain| > 0
  {
    SimplifiedChain(d, Reversed(chain)) == Reversed(SimplifiedChain(d, chain))
  }

  lemma OpenChainsComeOutReversed(d: Measure, chain: seq<Point>)
    requires |chain| > 0 && chain[0] != chain[|chain| - 1]
    ensures ComesOutReversed(d, chain)
  {
    ReversedTwice(chain);
    ReversedTwice(SimplifiedBy(d, Reversed(chain)));
    ReversedTwice(SimplifiedBy(d, chain));
  }

  /** One chain is the other followed the other way. */
  predicate Turned(chain: seq<Point>, back: seq<Point>) {
    |back| == |chain| && forall i | 0 <= i < |chain| :: back[|chain| - 1 - i] == chain[i]
  }

  /** The greatest distance, and before it only smaller ones. */
  predicate IsFirstFarthest(d: Measure, points: seq<Point>, first: int, last: int, end: int, far: (int, real))
    requires 0 <= first <= last < |points| && first < end <= last + 1
  {
    && (forall i | first < i < end :: d(points[i], points[first], points[last]) <= far.1)
    && (far == (first, 0.0) ||
        (first < far.0 < end && far.1 == d(points[far.0], points[first], points[last]) > 0.0 &&
         forall i | first < i < far.0 :: d(points[i], points[first], points[last]) < far.1))
  }

  /** The greatest distance, and after it only smaller ones. */
  predicate IsLastFarthest(d: Measure, points: seq<Point>, first: int, last: int, start: int, far: (int, real))
    requires 0 <= first <= last < |points| && first < start <= last
  {
    && (forall i | start <= i < last :: d(points[i], points[first], points[last]) <= far.1)
    && (far == (last, 0.0) ||
        (start <= far.0 < last && far.1 == d(points[far.0], points[first], points[last]) > 0.0 &&
         forall i | far.0 < i < last :: d(points[i], points[first], points[last]) < far.1))
  }

  lemma {:induction false} FarthestIsFirst(d: Measure, points: seq<Point>, first: int, last: int, end: int)
    requires 0 <= first <= last < |points| && first < end <= last + 1
    ensures IsFirstFarthest(d, points, first, last, end, Farthest(d, points, first, last, end))
    decreases end
  {
    if end > first + 1 { FarthestIsFirst(d, points, first, last, end - 1); }
  }

  lemma {:induction false} FarthestFromEndIsLast(d: Measure, points: seq<Point>, first: int, last: int, start: int)
    requires 0 <= first < start <= last < |points|
    ensures IsLastFarthest(d, points, first, last, start, FarthestFromEnd(d, points, first, last, start))
    decreases last - start
  {
    if start < last { FarthestFromEndIsLast(d, points, first, last, start + 1); }
  }

  lemma FirstFarthestIsUnique(d: Measure, points: seq<Point>, first: int, last: int, end: int, a: (int, real), b: (int, real))
    requires 0 <= first <= last < |points| && first < end <= last + 1
    requires IsFirstFarthest(d, points, first, last, end, a) && IsFirstFarthest(d, points, first, last, end, b)
    ensures a == b
  {
  }

  lemma LastIsFirstTurned(d: Measure, chain: seq<Point>, back: seq<Point>, first: int, last: int, far: (int, real))
    requires Symmetric(d) && Turned(chain, back) && 0 <= first < last < |chain|
    requires IsLastFarthest(d, chain, first, last, first + 1, far)
    ensures var n := |chain| - 1; IsFirstFarthest(d, back, n - last, n - first, n - first, (n - far.0, far.1))
  {
    var n := |chain| - 1;
    assert back[n - last] == chain[last] && back[n - first] == chain[first];
    forall j | n - last < j < n - first
      ensures d(back[j], chain[last], chain[first]) == d(chain[n - j], chain[first], chain[last])
    {
      assert back[n - (n - j)] == chain[n - j];
    }
  }

  lemma InnerIsFirst(d: Measure, points: seq<Point>, first: int, last: int)
    requires 0 <= first < last < |points|
    ensures IsFirstFarthest(d, points, first, last, last, FarthestInner(d, points, first, last))
  {
    FarthestIsFirst(d, points, first, last, last);
  }

  lemma InnerFromEndIsLast(d: Measure, points: seq<Point>, first: int, last: int)
    requires 0 <= first < last < |points|
    ensures IsLastFarthest(d, points, first, last, first + 1, FarthestInnerFromEnd(d, points, first, last))
  {
    FarthestFromEndIsLast(d, points, first, last, first + 1);
  }

  lemma InnerTurned(d: Measure, chain: seq<Point>, back: seq<Point>, first: int, last: int, far: (int, real), near: (int, real))
    requires Symmetric(d) && Turned(chain, back) && 0 <= first < last < |chain|
    requires IsLastFarthest(d, chain, first, last, first + 1, far)
    requires var n := |chain| - 1; IsFirstFarthest(d, back, n - last, n - first, n - first, near)
    ensures near == (|chain| - 1 - far.0, far.1)
  {
    var n := |chain| - 1;
    LastIsFirstTurned(d, chain, back, first, last, far);
    FirstFarthestIsUnique(d, back, n - last, n - first, n - first, (n - far.0, far.1), near);
  }

  lemma FarthestInnerMirrored(d: Measure, chain: seq<Point>, back: seq<Point>, first: int, last: int)
    requires Symmetric(d) && Turned(chain, back) && 0 <= first <= last < |chain|
    ensures var n := |chain| - 1;
            && FarthestInner(d, back, n - last, n - first).0 == n - FarthestInnerFromEnd(d, chain, first, last).0
            && FarthestInner(d, back, n - last, n - first).1 == FarthestInnerFromEnd(d, chain, first, last).1
  {
    var n := |chain| - 1;
    if first < last {
      InnerFromEndIsLast(d, chain, first, last);
      InnerIsFirst(d, back, n - last, n - first);
      InnerTurned(d, chain, back, first, last, FarthestInnerFromEnd(d, chain, first, last), FarthestInner(d, back, n - last, n - first));
    }
  }

  /** The indices of one set are those of the other, seen from the other end. */
  ghost predicate AreMirrored(a: set<int>, b: set<int>, n: int) {
    forall j, k | j + k == n :: j in a <==> k in b
  }

  lemma {:induction false} KeptMirrored(d: Measure, chain: seq<Point>, back: seq<Point>, first: int, last: int, a: int, b: int)
    returns (x: set<int>, y: set<int>)
    requires Symmetric(d) && Turned(chain, back) && 0 <= first <= last < |chain| && a + last == b + first == |chain| - 1
    ensures x == Kept(d, back, a, b) && y == KeptFromEnd(d, chain, first, last) && AreMirrored(x, y, |chain| - 1)
    decreases last - first
  {
    var n := |chain| - 1;
    var m, c := StepMirrored(d, chain, back, first, last, a, b);
    x, y := {}, {};
    if first < m < last {
      var high, left := KeptMirrored(d, chain, back, first, m, c, b);
      var low, right := KeptMirrored(d, chain, back, m, last, a, c);
      SplitMirrored(high, left, low, right, m, c, n);
      x, y := low + {c} + high, left + {m} + right;
    }
  }

  /** Both directions split a range at the same point, or neither does. */
  lemma StepMirrored(d: Measure, chain: seq<Point>, back: seq<Point>, first: int, last: int, a: int, b: int)
    returns (m: int, c: int)
    requires Symmetric(d) && Turned(chain, back) && 0 <= first <= last < |chain| && a + last == b + first == |chain| - 1
    ensures c + m == |chain| - 1
    ensures if first < m < last then
              && KeptFromEnd(d, chain, first, last) == KeptFromEnd(d, chain, first, m) + {m} + KeptFromEnd(d, chain, m, last)
              && Kept(d, back, a, b) == Kept(d, back, a, c) + {c} + Kept(d, back, c, b)
            else KeptFromEnd(d, chain, first, last) == {} && Kept(d, back, a, b) == {}
  {
    var far := FarthestInnerFromEnd(d, chain, first, last);
    FarthestInnerMirrored(d, chain, back, first, last);
    assert FarthestInner(d, back, a, b) == (|chain| - 1 - far.0, far.1);
    m := if far.1 > TOLERANCE_SQUARED then far.0 else first;
    c := |chain| - 1 - m;
  }

  lemma SplitMirrored(high: set<int>, left: set<int>, low: set<int>, right: set<int>, m: int, c: int, n: int)
    requires AreMirrored(high, left, n) && AreMirrored(low, right, n) && c + m == n
    ensures AreMirrored(low + {c} + high, left + {m} + right, n)
  {
  }

  predicate Ascends(s: seq<int>) { forall i, j | 0 <= i < j < |s| :: s[i] < s[j] }

  lemma HasFirst(s: seq<int>)
    ensures s == [] || exists k :: k in s
  {
    if s != [] {
      var x := s[0];
      assert x in s;
    }
  }

  lemma {:induction false} SortedIsUnique(a: seq<int>, b: seq<int>)
    requires Ascends(a) && Ascends(b) && forall k :: k in a <==> k in b
    ensures a == b
    decreases |a|
  {
    HasFirst(a);
    HasFirst(b);
    if |a| > 0 && |b| > 0 {
      assert a[0] in b && b[0] in a;
      assert a[0] == b[0];
      forall k ensures k in a[1..] <==> k in b[1..] {
        if k in a[1..] { assert k in a && k > a[0]; }
        if k in b[1..] { assert k in b && k > b[0]; }
      }
      SortedIsUnique(a[1..], b[1..]);
    }
  }

  /** A sorted list mirrored at the middle of the chain. */
  function MirroredIndices(s: seq<int>, n: int): (mirrored: seq<int>)
    ensures |mirrored| == |s| && forall i | 0 <= i < |s| :: mirrored[i] == n - s[|s| - 1 - i]
  {
    seq(|s|, i requires 0 <= i < |s| => n - s[|s| - 1 - i])
  }

  lemma SortedMirrored(a: set<int>, b: set<int>, n: int)
    requires AreMirrored(a, b, n)
    ensures SortedIndices(a) == MirroredIndices(SortedIndices(b), n)
  {
    var s, t := SortedIndices(b), MirroredIndices(SortedIndices(b), n);
    forall k ensures k in t <==> k in SortedIndices(a) {
      MirroredMember(s, n, k);
      var j := n - k;
      assert k + j == n && (k in a <==> j in b);
    }
    SortedIsUnique(SortedIndices(a), t);
  }

  lemma MirroredMember(s: seq<int>, n: int, k: int)
    ensures k in MirroredIndices(s, n) <==> n - k in s
  {
    var t := MirroredIndices(s, n);
    if k in t {
      var i :| 0 <= i < |t| && t[i] == k;
      assert s[|s| - 1 - i] == n - k;
    }
    if n - k in s {
      var i :| 0 <= i < |s| && s[i] == n - k;
      assert t[|s| - 1 - i] == k;
    }
  }

  predicate Inside(keep: set<int>, n: int) { forall k | k in keep :: 0 <= k < n }

  lemma ReversedChoice(chain: seq<Point>, keep: set<int>, other: set<int>)
    requires |chain| > 0 && Inside(keep, |chain|) && Inside(other, |chain|) && AreMirrored(other, keep, |chain| - 1)
    ensures ChooseSorted(Reversed(chain), other) == Reversed(ChooseSorted(chain, keep))
  {
    SortedMirrored(other, keep, |chain| - 1);
    var s, t := SortedIndices(keep), SortedIndices(other);
    ChosenReversed(chain, Reversed(chain), s, t);
  }

  lemma ChosenReversed(chain: seq<Point>, back: seq<Point>, s: seq<int>, t: seq<int>)
    requires Turned(chain, back) && t == MirroredIndices(s, |chain| - 1) && forall i | 0 <= i < |s| :: 0 <= s[i] < |chain|
    ensures forall i | 0 <= i < |t| :: 0 <= t[i] < |back|
    ensures Chosen(back, t) == Reversed(Chosen(chain, s))
  {
  }

  function KeepFromEnd(d: Measure, chain: seq<Point>): (keep: set<int>)
    requires |chain| > 0
    ensures forall k | k in keep :: 0 <= k < |chain|
  {
    {0, |chain| - 1} + KeptFromEnd(d, chain, 0, |chain| - 1)
  }

  lemma KeepMirrored(d: Measure, chain: seq<Point>, back: seq<Point>)
    requires Symmetric(d) && |chain| > 0 && Turned(chain, back)
    ensures AreMirrored(Keep(d, back), KeepFromEnd(d, chain), |chain| - 1)
  {
    var x, y := KeptMirrored(d, chain, back, 0, |chain| - 1, 0, |chain| - 1);
    EndsMirrored(Kept(d, back, 0, |chain| - 1), KeptFromEnd(d, chain, 0, |chain| - 1), |chain| - 1);
  }

  lemma EndsMirrored(a: set<int>, b: set<int>, n: int)
    requires AreMirrored(a, b, n)
    ensures AreMirrored({0, n} + a, {0, n} + b, n)
  {
  }

  /** Followed the other way, a chain keeps what it keeps when of equally far points the last one counts. */
  lemma SimplifiedTheOtherWay(d: Measure, chain: seq<Point>)
    requires Symmetric(d) && |chain| > 0
    ensures SimplifiedBy(d, Reversed(chain)) == Reversed(ChooseSorted(chain, KeepFromEnd(d, chain)))
  {
    KeepMirrored(d, chain, Reversed(chain));
    ReversedChoice(chain, KeepFromEnd(d, chain), Keep(d, Reversed(chain)));
  }

  /** No two points before the last are the same. */
  predicate Distinct(points: seq<Point>) { forall i, j | 0 <= i < j < |points| :: points[i] != points[j] }

  lemma HarmlessChainsComeOutReversed(d: Measure, chain: seq<Point>)
    requires Symmetric(d) && |chain| > 0 && chain[0] == chain[|chain| - 1] && TiesAreHarmless(d, chain)
    ensures ComesOutReversed(d, chain)
  {
    SimplifiedTheOtherWay(d, chain);
  }

  /** A chain that ends where it starts comes out reversed exactly if its ties are harmless. */
  lemma ClosedChainsComeOutReversed(d: Measure, chain: seq<Point>)
    requires Symmetric(d) && |chain| > 1 && chain[0] == chain[|chain| - 1] && Distinct(chain[1..])
    ensures ComesOutReversed(d, chain) <==> TiesAreHarmless(d, chain)
  {
    var n := |chain| - 1;
    SimplifiedTheOtherWay(d, chain);
    assert SimplifiedChain(d, chain) == SimplifiedBy(d, chain) && SimplifiedChain(d, Reversed(chain)) == SimplifiedBy(d, Reversed(chain));
    SameReversed(ChooseSorted(chain, Keep(d, chain)), ChooseSorted(chain, KeepFromEnd(d, chain)));
    if ComesOutReversed(d, chain) {
      SameChoice(chain, Keep(d, chain), KeepFromEnd(d, chain));
      SameInner(Kept(d, chain, 0, n), KeptFromEnd(d, chain, 0, n), n);
    }
  }

  lemma SameReversed(a: seq<Point>, b: seq<Point>)
    ensures Reversed(a) == Reversed(b) <==> a == b
  {
    ReversedTwice(a);
    ReversedTwice(b);
  }

  lemma SameInner(a: set<int>, b: set<int>, n: int)
    requires {0, n} + a == {0, n} + b && (forall k | k in a :: 0 < k < n) && (forall k | k in b :: 0 < k < n)
    ensures a == b
  {
    forall k ensures k in a <==> k in b { assert k in {0, n} + a <==> k in {0, n} + b; }
  }

  lemma SameChoice(chain: seq<Point>, a: set<int>, b: set<int>)
    requires |chain| > 1 && Distinct(chain[1..]) && 0 in a && 0 in b && |chain| - 1 in a && |chain| - 1 in b
    requires (forall k | k in a :: 0 <= k < |chain|) && (forall k | k in b :: 0 <= k < |chain|)
    requires ChooseSorted(chain, a) == ChooseSorted(chain, b)
    ensures a == b
  {
    var s, t := SortedIndices(a), SortedIndices(b);
    EndIndices(a, |chain| - 1, s);
    EndIndices(b, |chain| - 1, t);
    assert |s| == |t|;
    forall i | 0 <= i < |s| ensures s[i] == t[i] {
      assert ChooseSorted(chain, a)[i] == ChooseSorted(chain, b)[i];
      assert s[i] in s && t[i] in t;
      if i > 0 { assert chain[1..][s[i] - 1] == chain[1..][t[i] - 1]; }
    }
    assert s == t;
    forall k ensures k in a <==> k in b { assert k in s <==> k in t; }
  }

  /** Of two points that are equally far the one counts going forth and the other going back: if either is
  dropped on the way that does not count it, the chain does not come out reversed. */
  lemma TiesDiffer(d: Measure, chain: seq<Point>)
    requires Symmetric(d) && |chain| > 1 && chain[0] == chain[|chain| - 1] && Distinct(chain[1..])
    requires FarthestInner(d, chain, 0, |chain| - 1).1 > TOLERANCE_SQUARED
    requires FarthestInnerFromEnd(d, chain, 0, |chain| - 1).0 !in Kept(d, chain, 0, |chain| - 1) ||
             FarthestInner(d, chain, 0, |chain| - 1).0 !in KeptFromEnd(d, chain, 0, |chain| - 1)
    ensures !ComesOutReversed(d, chain)
  {
    var n := |chain| - 1;
    var far := FarthestInner(d, chain, 0, n).0;
    assert d(chain[far], chain[0], chain[n]) <= FarthestInnerFromEnd(d, chain, 0, n).1;
    assert far in Kept(d, chain, 0, n) && FarthestInnerFromEnd(d, chain, 0, n).0 in KeptFromEnd(d, chain, 0, n);
    ClosedChainsComeOutReversed(d, chain);
  }
}
