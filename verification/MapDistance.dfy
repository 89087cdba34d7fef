/** The distance of a point to a segment, in exact coordinates. */
module MapDistance {
  datatype Point = Point(x: real, y: real)

  function Square(r: real): real { r * r }

  function Clamp(t: real): real { if t < 0.0 then 0.0 else if t > 1.0 then 1.0 else t }

  /** Squared distance of `p` to the point of the line through `a` and `b` at parameter `t`. */
  function DistanceSquaredAt(p: Point, a: Point, b: Point, t: real): real {
    OffsetSquared(p.x - a.x, p.y - a.y, b.x - a.x, b.y - a.y, t)
  }

  function OffsetSquared(wx: real, wy: real, dx: real, dy: real, t: real): real {
    Square(wx - t * dx) + Square(wy - t * dy)
  }

  lemma SquareIsPositive(x: real)
    ensures Square(x) >= 0.0 && (x != 0.0 ==> Square(x) > 0.0)
  {
    if x > 0.0 { SameSigns(x, x, Square(x)); } else if x < 0.0 { SameSigns(x, x, Square(x)); }
  }

  lemma SameSigns(x: real, y: real, product: real)
    requires ((x > 0.0 && y > 0.0) || (x < 0.0 && y < 0.0)) && product == x * y
    ensures product > 0.0
  {
  }

  /** The parameter of the closest point of the segment. */
  function ClosestParameter(wx: real, wy: real, dx: real, dy: real): (t: real)
    ensures 0.0 <= t <= 1.0
  {
    if dx != 0.0 || dy != 0.0 then
      SquareIsPositive(dx);
      SquareIsPositive(dy);
      Clamp((wx * dx + wy * dy) / (Square(dx) + Square(dy)))
    else 0.0
  }

  function SegmentDistanceSquared(p: Point, a: Point, b: Point): real {
    DistanceSquaredAt(p, a, b, ClosestParameter(p.x - a.x, p.y - a.y, b.x - a.x, b.y - a.y))
  }

  /** It is the least squared distance to a point of the segment ... */
  lemma SegmentDistanceIsLeast(p: Point, a: Point, b: Point, s: real)
    requires 0.0 <= s <= 1.0
    ensures SegmentDistanceSquared(p, a, b) <= DistanceSquaredAt(p, a, b, s)
  {
    ClosestIsLeast(p.x - a.x, p.y - a.y, b.x - a.x, b.y - a.y, s);
  }

  /** ... and some point of the segment has it. */
  lemma SegmentDistanceIsReached(p: Point, a: Point, b: Point)
    ensures exists t :: 0.0 <= t <= 1.0 && SegmentDistanceSquared(p, a, b) == DistanceSquaredAt(p, a, b, t)
  {
    var t := ClosestParameter(p.x - a.x, p.y - a.y, b.x - a.x, b.y - a.y);
    assert SegmentDistanceSquared(p, a, b) == DistanceSquaredAt(p, a, b, t);
  }

  /** The direction of the segment does not matter. */
  lemma SegmentDistanceIsSymmetric(p: Point, a: Point, b: Point)
    ensures SegmentDistanceSquared(p, a, b) == SegmentDistanceSquared(p, b, a)
  {
    TurnedIsNoFarther(p, a, b);
    TurnedIsNoFarther(p, b, a);
  }

  lemma TurnedIsNoFarther(p: Point, a: Point, b: Point)
    ensures SegmentDistanceSquared(p, b, a) <= SegmentDistanceSquared(p, a, b)
  {
    SegmentDistanceIsReached(p, a, b);
    var t :| 0.0 <= t <= 1.0 && SegmentDistanceSquared(p, a, b) == DistanceSquaredAt(p, a, b, t);
    SegmentDistanceIsLeast(p, b, a, 1.0 - t);
    SamePlace(p, a, b, t);
  }

  lemma SamePlace(p: Point, a: Point, b: Point, t: real)
    ensures DistanceSquaredAt(p, a, b, t) == DistanceSquaredAt(p, b, a, 1.0 - t)
  {
    Turned(p.x, a.x, b.x, t);
    Turned(p.y, a.y, b.y, t);
  }

  lemma Turned(p: real, a: real, b: real, t: real)
    ensures p - a - t * (b - a) == p - b - (1.0 - t) * (a - b)
  {
  }

  lemma ClosestIsLeast(wx: real, wy: real, dx: real, dy: real, s: real)
    requires 0.0 <= s <= 1.0
    ensures OffsetSquared(wx, wy, dx, dy, ClosestParameter(wx, wy, dx, dy)) <= OffsetSquared(wx, wy, dx, dy, s)
  {
    var t := ClosestParameter(wx, wy, dx, dy);
    if dx != 0.0 || dy != 0.0 {
      SquareIsPositive(dx);
      SquareIsPositive(dy);
      LeastAt(wx, wy, dx, dy, Square(dx) + Square(dy), wx * dx + wy * dy, t, s);
    }
  }

  lemma LeastAt(wx: real, wy: real, dx: real, dy: real, n: real, dot: real, t: real, s: real)
    requires n == Square(dx) + Square(dy) && dot == wx * dx + wy * dy && n > 0.0 && t == Clamp(dot / n) && 0.0 <= s <= 1.0
    ensures OffsetSquared(wx, wy, dx, dy, t) <= OffsetSquared(wx, wy, dx, dy, s)
  {
    Quotient(dot, n);
    Expand(wx, wy, dx, dy, n, dot, s);
    Expand(wx, wy, dx, dy, n, dot, t);
    Clamped(n, dot, dot / n, t, s);
  }

  lemma Quotient(x: real, n: real)
    requires n > 0.0
    ensures x / n * n == x
  {
  }

  lemma Difference(w: real, d: real, t: real)
    ensures Square(w - t * d) == Square(w) - 2.0 * (t * (w * d)) + Square(t) * Square(d)
  {
    var e := t * d;
    assert Square(w - e) == Square(w) - 2.0 * (w * e) + Square(e);
    assert w * e == t * (w * d);
    assert Square(e) == Square(t) * Square(d);
  }

  lemma Distribute(t: real, a: real, b: real, c: real)
    requires c == a + b
    ensures t * c == t * a + t * b
  {
  }

  lemma Expand(wx: real, wy: real, dx: real, dy: real, n: real, dot: real, t: real)
    requires n == Square(dx) + Square(dy) && dot == wx * dx + wy * dy
    ensures Square(wx - t * dx) + Square(wy - t * dy) == Square(wx) + Square(wy) - 2.0 * (t * dot) + Square(t) * n
  {
    Difference(wx, dx, t);
    Difference(wy, dy, t);
    Distribute(t, wx * dx, wy * dy, dot);
    Distribute(Square(t), Square(dx), Square(dy), n);
  }

  /** A parabola over an interval is least where its vertex is clamped to. */
  lemma Clamped(n: real, dot: real, vertex: real, t: real, s: real)
    requires n > 0.0 && vertex * n == dot && t == Clamp(vertex) && 0.0 <= s <= 1.0
    ensures Square(t) * n - 2.0 * (t * dot) <= Square(s) * n - 2.0 * (s * dot)
  {
    var d := (s - t) * (s + t - 2.0 * vertex);
    VertexIsNear(vertex, t, s);
    Scaled(d, n);
    assert d == Square(s) - Square(t) - 2.0 * (vertex * (s - t));
    assert d * n == Square(s) * n - Square(t) * n - 2.0 * (vertex * (s - t)) * n;
    assert (vertex * (s - t)) * n == dot * (s - t);
    assert dot * (s - t) == s * dot - t * dot;
  }

  lemma VertexIsNear(vertex: real, t: real, s: real)
    requires t == Clamp(vertex) && 0.0 <= s <= 1.0
    ensures (s - t) * (s + t - 2.0 * vertex) >= 0.0
  {
    if s > t {
      if s + t - 2.0 * vertex > 0.0 { SameSigns(s - t, s + t - 2.0 * vertex, (s - t) * (s + t - 2.0 * vertex)); }
    } else if s < t {
      if s + t - 2.0 * vertex < 0.0 { SameSigns(s - t, s + t - 2.0 * vertex, (s - t) * (s + t - 2.0 * vertex)); }
    }
  }

  lemma Scaled(d: real, n: real)
    requires d >= 0.0 && n > 0.0
    ensures d * n >= 0.0
  {
  }

  /** The closest parameter, given by what it is multiplied to. */
  lemma SegmentDistanceIs(p: Point, a: Point, b: Point, n: real, dot: real, t: real)
    requires n == Square(b.x - a.x) + Square(b.y - a.y) && n > 0.0
    requires dot == (p.x - a.x) * (b.x - a.x) + (p.y - a.y) * (b.y - a.y) && dot == t * n && 0.0 <= t <= 1.0
    ensures SegmentDistanceSquared(p, a, b) == DistanceSquaredAt(p, a, b, t)
  {
    ClosestIs(p.x - a.x, p.y - a.y, b.x - a.x, b.y - a.y, n, dot, t);
  }

  lemma ClosestIs(wx: real, wy: real, dx: real, dy: real, n: real, dot: real, t: real)
    requires n == Square(dx) + Square(dy) && dot == wx * dx + wy * dy && n > 0.0 && dot == t * n && 0.0 <= t <= 1.0
    ensures ClosestParameter(wx, wy, dx, dy) == t
  {
    SameQuotient(dot, n, t);
    SquareIsPositive(dx);
    SquareIsPositive(dy);
  }

  lemma SameQuotient(dot: real, n: real, t: real)
    requires n > 0.0 && dot == t * n
    ensures dot / n == t
  {
  }
}
