/** The search for the place with most room for a label: branch and bound over square cells.

The score of a point stands for its signed distance to the polygon; all that is used of it is that inside
a cell it exceeds the score of the centre by at most the half diagonal. */
module MapLabel {
  datatype Cell = Cell(x: real, y: real, radius: real, score: real)
  datatype Best = Best(x: real, y: real, score: real)

  type Score = (real, real) -> real

  const GAP := 0.5

  function Max(a: real, b: real): real { if a < b then b else a }

  ghost predicate InSquare(px: real, py: real, x: real, y: real, radius: real) {
    x - radius <= px <= x + radius && y - radius <= py <= y + radius
  }

  /** No point of a square scores better than its centre by more than radius times the square root of two. */
  ghost predicate Bounded(score: Score, root2: real) {
    forall x, y, radius, px, py | radius >= 0.0 && InSquare(px, py, x, y, radius) :: score(px, py) <= score(x, y) + radius * root2
  }

  function Bound(c: Cell, root2: real): real { c.score + c.radius * root2 }

  // ----- termination -----

  ghost function Power2(n: nat): nat { if n == 0 then 1 else 2 * Power2(n - 1) }

  lemma {:induction false} PowerExceeds(n: nat)
    ensures Power2(n) > n
  {
    if n > 0 { PowerExceeds(n - 1); }
  }

  /** More halvings than any cell sees that is still split. */
  ghost function Levels(half: real, root2: real): nat
    requires half >= 0.0 && root2 > 0.0
  {
    (2.0 * (half * root2)).Floor + 1
  }

  lemma SplitsAreShallow(c: Cell, depth: nat, half: real, root2: real)
    requires half >= 0.0 && root2 > 0.0 && c.radius * Power2(depth) as real == half && c.radius * root2 > GAP
    ensures depth < Levels(half, root2)
  {
    var p := Power2(depth) as real;
    PowerExceeds(depth);
    assert p > 0.0;
    ScaleUp(c.radius * root2, GAP, p);
    assert (c.radius * root2) * p == (c.radius * p) * root2;
  }

  lemma ScaleUp(a: real, b: real, p: real)
    requires a > b && p > 0.0
    ensures a * p > b * p
  {
  }

  /** Cells that can still come out of one cell, itself included. */
  ghost function Weight(levels: nat): nat { if levels == 0 then 1 else 4 * Weight(levels - 1) + 1 }

  /** The same for all cells of the list, given how often each was halved. */
  ghost function Work(depths: seq<nat>, levels: nat): nat {
    if depths == [] then 0
    else Work(depths[..|depths| - 1], levels) + WeightAt(depths[|depths| - 1], levels)
  }

  lemma {:induction false} WorkWithout(depths: seq<nat>, k: nat, levels: nat)
    requires k < |depths|
    ensures Work(depths, levels) == Work(depths[..k] + depths[k + 1..], levels) + WeightAt(depths[k], levels)
    decreases |depths|
  {
    var last := |depths| - 1;
    if k == last {
      assert depths[..k] + depths[k + 1..] == depths[..last];
    } else {
      WorkWithout(depths[..last], k, levels);
      var rest := depths[..k] + depths[k + 1..];
      assert rest[..|rest| - 1] == depths[..last][..k] + depths[..last][k + 1..];
      assert rest[|rest| - 1] == depths[last];
    }
  }

  ghost function WeightAt(depth: nat, levels: nat): nat { Weight(if depth < levels then levels - depth else 0) }

  lemma WorkWithOne(depths: seq<nat>, depth: nat, levels: nat)
    ensures Work(depths + [depth], levels) == Work(depths, levels) + WeightAt(depth, levels)
  {
    assert (depths + [depth])[..|depths|] == depths;
  }

  lemma WorkWithFour(depths: seq<nat>, d: nat, levels: nat)
    ensures Work(depths + [d, d, d, d], levels) == Work(depths, levels) + 4 * WeightAt(d, levels)
  {
    WorkWithOne(depths, d, levels);
    WorkWithOne(depths + [d], d, levels);
    WorkWithOne(depths + [d] + [d], d, levels);
    WorkWithOne(depths + [d] + [d] + [d], d, levels);
    assert depths + [d, d, d, d] == depths + [d] + [d] + [d] + [d];
  }

  /** A split leaves less to do. */
  lemma SplitLessens(rest: seq<nat>, d: nat, levels: nat)
    requires d < levels
    ensures Work(rest + [d + 1, d + 1, d + 1, d + 1], levels) < Work(rest, levels) + WeightAt(d, levels)
  {
    WorkWithFour(rest, d + 1, levels);
  }

  // ----- the search -----

  /** heappop: the cell with the greatest bound. */
  method PopBest(cells: seq<Cell>, root2: real) returns (k: nat)
    requires cells != []
    ensures k < |cells| && forall i | 0 <= i < |cells| :: Bound(cells[i], root2) <= Bound(cells[k], root2)
  {
    k := 0;
    for i := 1 to |cells|
      invariant k < |cells| && forall j | 0 <= j < i :: Bound(cells[j], root2) <= Bound(cells[k], root2)
    {
      if Bound(cells[i], root2) > Bound(cells[k], root2) {
        k := i;
      }
    }
  }

  /** A cell of the search: its score is that of its centre, its radius the first one halved `depth` times. */
  ghost predicate CellOk(score: Score, half: real, c: Cell, depth: nat) {
    c.radius >= 0.0 && c.score == score(c.x, c.y) && c.radius * Power2(depth) as real == half
  }

  /** The point is accounted for: by a cell still to be searched or by the best score so far. */
  ghost predicate Covered(score: Score, cells: seq<Cell>, best: Best, px: real, py: real) {
    score(px, py) <= best.score + GAP || exists i | 0 <= i < |cells| :: InSquare(px, py, cells[i].x, cells[i].y, cells[i].radius)
  }

  function Quarter(score: Score, c: Cell, right: bool, up: bool): Cell {
    var r := c.radius / 2.0;
    var x, y := if right then c.x + r else c.x - r, if up then c.y + r else c.y - r;
    Cell(x, y, r, score(x, y))
  }

  function Quarters(score: Score, c: Cell): (qs: seq<Cell>)
    ensures |qs| == 4
  {
    [Quarter(score, c, false, false), Quarter(score, c, false, true), Quarter(score, c, true, false), Quarter(score, c, true, true)]
  }

  lemma QuartersOk(score: Score, half: real, c: Cell, depth: nat)
    requires CellOk(score, half, c, depth)
    ensures forall q | q in Quarters(score, c) :: CellOk(score, half, q, depth + 1)
  {
    var p := Power2(depth) as real;
    assert Power2(depth + 1) as real == 2.0 * p;
    assert (c.radius / 2.0) * (2.0 * p) == c.radius * p;
  }

  lemma QuartersCover(score: Score, c: Cell, px: real, py: real)
    requires InSquare(px, py, c.x, c.y, c.radius)
    ensures var q := Quarter(score, c, px >= c.x, py >= c.y); InSquare(px, py, q.x, q.y, q.radius)
  {
  }

  /** Replacing a cell by its quarters, or dropping it when its bound is within the gap, loses no point. */
  lemma StillCovered(score: Score, root2: real, cells: seq<Cell>, k: nat, best: Best, better: Best, px: real, py: real)
    requires k < |cells| && Bounded(score, root2) && cells[k].radius >= 0.0 && cells[k].score == score(cells[k].x, cells[k].y)
    requires Covered(score, cells, best, px, py) && best.score <= better.score
    ensures var (c, rest) := (cells[k], cells[..k] + cells[k + 1..]);
            && (Bound(c, root2) - better.score <= GAP ==> Covered(score, rest, better, px, py))
            && Covered(score, rest + Quarters(score, c), better, px, py)
  {
    var c, rest := cells[k], cells[..k] + cells[k + 1..];
    var more := rest + Quarters(score, c);
    if score(px, py) > better.score + GAP {
      var i :| 0 <= i < |cells| && InSquare(px, py, cells[i].x, cells[i].y, cells[i].radius);
      if i == k {
        QuartersCover(score, c, px, py);
        var q := (if px >= c.x then 2 else 0) + (if py >= c.y then 1 else 0);
        assert more[|rest| + q] == Quarter(score, c, px >= c.x, py >= c.y);
      } else {
        var j := if i < k then i else i - 1;
        assert rest[j] == cells[i] && more[j] == cells[i];
      }
    }
  }

  /** The loop invariant: every point of the first square is accounted for, and the best score is real. */
  ghost predicate Searching(score: Score, half: real, x: real, y: real, first: Best, cells: seq<Cell>, depths: seq<nat>, best: Best) {
    && |depths| == |cells| && (forall i | 0 <= i < |cells| :: CellOk(score, half, cells[i], depths[i]))
    && (forall px, py | InSquare(px, py, x, y, half) :: Covered(score, cells, best, px, py))
    && (best == first || (best.score > 0.0 && best.score == score(best.x, best.y)))
  }

  lemma StartsSearching(score: Score, half: real, x: real, y: real, first: Best)
    requires half >= 0.0
    ensures Searching(score, half, x, y, first, [Cell(x, y, half, score(x, y))], [0], first)
  {
    var cells := [Cell(x, y, half, score(x, y))];
    forall px, py | InSquare(px, py, x, y, half) ensures Covered(score, cells, first, px, py) {
      assert InSquare(px, py, cells[0].x, cells[0].y, cells[0].radius);
    }
  }

  function Better(best: Best, c: Cell): Best { if c.score > best.score then Best(c.x, c.y, c.score) else best }

  /** Dropping a cell whose bound is within the gap. */
  lemma Drops(score: Score, root2: real, half: real, x: real, y: real, first: Best, cells: seq<Cell>, depths: seq<nat>, best: Best, k: nat)
    requires Searching(score, half, x, y, first, cells, depths, best) && k < |cells| && Bounded(score, root2) && first.score == 0.0
    requires Bound(cells[k], root2) - Better(best, cells[k]).score <= GAP
    ensures Searching(score, half, x, y, first, cells[..k] + cells[k + 1..], depths[..k] + depths[k + 1..], Better(best, cells[k]))
  {
    forall px, py | InSquare(px, py, x, y, half) ensures Covered(score, cells[..k] + cells[k + 1..], Better(best, cells[k]), px, py) {
      StillCovered(score, root2, cells, k, best, Better(best, cells[k]), px, py);
    }
  }

  /** Splitting a cell. */
  lemma Splits(score: Score, root2: real, half: real, x: real, y: real, first: Best, cells: seq<Cell>, depths: seq<nat>, best: Best, k: nat)
    requires Searching(score, half, x, y, first, cells, depths, best) && k < |cells| && Bounded(score, root2) && first.score == 0.0
    ensures Searching(score, half, x, y, first, cells[..k] + cells[k + 1..] + Quarters(score, cells[k]),
                      depths[..k] + depths[k + 1..] + [depths[k] + 1, depths[k] + 1, depths[k] + 1, depths[k] + 1], Better(best, cells[k]))
  {
    var more := cells[..k] + cells[k + 1..] + Quarters(score, cells[k]);
    forall px, py | InSquare(px, py, x, y, half) ensures Covered(score, more, Better(best, cells[k]), px, py) {
      StillCovered(score, root2, cells, k, best, Better(best, cells[k]), px, py);
    }
    QuartersOk(score, half, cells[k], depths[k]);
    var deeper := depths[..k] + depths[k + 1..] + [depths[k] + 1, depths[k] + 1, depths[k] + 1, depths[k] + 1];
    forall i | 0 <= i < |more| ensures CellOk(score, half, more[i], deeper[i]) {
      if i >= |cells| - 1 { assert more[i] in Quarters(score, cells[k]); }
    }
  }

  lemma SplitEnds(score: Score, c: Cell, rest: seq<nat>, depth: nat, half: real, root2: real, best: Best)
    requires half >= 0.0 && root2 > 0.0 && CellOk(score, half, c, depth) && Bound(c, root2) - Better(best, c).score > GAP
    ensures Work(rest + [depth + 1, depth + 1, depth + 1, depth + 1], Levels(half, root2)) < Work(rest, Levels(half, root2)) + WeightAt(depth, Levels(half, root2))
  {
    assert c.radius * root2 > GAP;
    SplitsAreShallow(c, depth, half, root2);
    SplitLessens(rest, depth, Levels(half, root2));
  }

  /** The first cell is the bounding square of the outline; `first` is a point of the outline, where the
  distance is zero. */
  method LabelPosition(score: Score, root2: real, first: Best, minX: real, maxX: real, minY: real, maxY: real) returns (best: Best)
    requires root2 > 0.0 && minX <= maxX && minY <= maxY && first.score == 0.0 && Bounded(score, root2)
    ensures forall px, py | InSquare(px, py, (minX + maxX) / 2.0, (minY + maxY) / 2.0, Max(maxX - minX, maxY - minY) / 2.0) ::
              score(px, py) <= best.score + 0.5
    ensures forall px, py | minX <= px <= maxX && minY <= py <= maxY :: score(px, py) <= best.score + 0.5
    ensures best == first || (best.score > 0.0 && best.score == score(best.x, best.y))
  {
    var half := Max(maxX - minX, maxY - minY) / 2.0;
    var x, y := (minX + maxX) / 2.0, (minY + maxY) / 2.0;
    ghost var levels := Levels(half, root2);
    best := first;
    var work := [Cell(x, y, half, score(x, y))];
    ghost var depths: seq<nat> := [0];
    StartsSearching(score, half, x, y, first);
    while work != []
      invariant Searching(score, half, x, y, first, work, depths, best)
      decreases Work(depths, levels)
    {
      var k := PopBest(work, root2);
      var c := work[k];
      WorkWithout(depths, k, levels);
      ghost var rest := depths[..k] + depths[k + 1..];
      if Bound(c, root2) - Better(best, c).score <= GAP {
        Drops(score, root2, half, x, y, first, work, depths, best, k);
        work, depths := work[..k] + work[k + 1..], rest;
      } else {
        Splits(score, root2, half, x, y, first, work, depths, best, k);
        SplitEnds(score, c, rest, depths[k], half, root2, best);
        work, depths := work[..k] + work[k + 1..] + Quarters(score, c), rest + [depths[k] + 1, depths[k] + 1, depths[k] + 1, depths[k] + 1];
      }
      best := Better(best, c);
    }
    forall px, py | InSquare(px, py, x, y, half) ensures score(px, py) <= best.score + GAP {
      assert Covered(score, work, best, px, py);
    }
    BoxIsInside(x, y, half, minX, maxX, minY, maxY);
  }

  lemma BoxIsInside(x: real, y: real, half: real, minX: real, maxX: real, minY: real, maxY: real)
    requires x == (minX + maxX) / 2.0 && y == (minY + maxY) / 2.0 && half >= (maxX - minX) / 2.0 && half >= (maxY - minY) / 2.0
    ensures forall px, py | minX <= px <= maxX && minY <= py <= maxY :: InSquare(px, py, x, y, half)
  {
  }
}
