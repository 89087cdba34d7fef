/** The catalog of places and containment in it. */
module LocationCatalog {
  import opened Rows

  datatype PlaceKind = City | District | Municipality | Neighbourhood | Locality | Venue | NaturalArea

  /** `keys` are the normalized name and aliases. No parent is the empty ID. */
  datatype Entity = Entity(id: string, name: string, areaType: string, kind: PlaceKind, keys: set<string>, parent: string)

  type Catalog = seq<Entity>

  ghost predicate UniqueIds(catalog: Catalog) {
    forall i, j | 0 <= i < j < |catalog| :: catalog[i].id != catalog[j].id
  }

  /** parent(id): the first entry with that ID. */
  function Find(catalog: Catalog, id: string): (found: Option<Entity>)
    ensures found.Some? ==> found.value in catalog && found.value.id == id
    ensures found.None? ==> forall e | e in catalog :: e.id != id
  {
    if catalog == [] then None else if catalog[0].id == id then Some(catalog[0]) else Find(catalog[1..], id)
  }

  method FindEntity(catalog: Catalog, id: string) returns (found: Option<Entity>)
    ensures found == Find(catalog, id)
  {
    assert catalog[0..] == catalog;
    for i := 0 to |catalog|
      invariant Find(catalog[i..], id) == Find(catalog, id)
    {
      assert catalog[i..][0] == catalog[i] && catalog[i..][1..] == catalog[i + 1..];
      if catalog[i].id == id {
        return Some(catalog[i]);
      }
    }
    found := None;
  }

  // ----- containment -----

  /** The ID one step up, if there is one. */
  function Up(catalog: Catalog, id: string): Option<string> {
    match Find(catalog, id)
    case None => None
    case Some(e) => if e.parent == "" then None else Some(e.parent)
  }

  function Walk(catalog: Catalog, id: string, n: nat): Option<string> {
    if n == 0 then Some(id)
    else match Walk(catalog, id, n - 1) case None => None case Some(at) => Up(catalog, at)
  }

  /** True transitive containment: some number of steps up from `lower` leads to `upper`. */
  ghost predicate Within(catalog: Catalog, upper: string, lower: string) {
    exists n: nat :: n > 0 && Walk(catalog, lower, n) == Some(upper)
  }

  lemma {:induction false} WalkAdds(catalog: Catalog, id: string, m: nat, n: nat)
    requires Walk(catalog, id, m).Some?
    ensures Walk(catalog, id, m + n) == Walk(catalog, Walk(catalog, id, m).value, n)
    decreases n
  {
    if n > 0 { WalkAdds(catalog, id, m, n - 1); }
  }

  lemma {:induction false} WalkPrefix(catalog: Catalog, id: string, m: nat, n: nat)
    requires m <= n && Walk(catalog, id, n).Some?
    ensures Walk(catalog, id, m).Some?
    decreases n - m
  {
    if m < n { WalkPrefix(catalog, id, m, n - 1); }
  }

  /** A shortest walk visits every entry at most once. */
  ghost predicate Shortest(catalog: Catalog, upper: string, lower: string, n: nat) {
    && n > 0 && Walk(catalog, lower, n) == Some(upper)
    && forall m: nat | 0 < m < n :: Walk(catalog, lower, m) != Some(upper)
  }

  lemma NoRepeat(catalog: Catalog, upper: string, lower: string, n: nat, i: nat, j: nat)
    requires Shortest(catalog, upper, lower, n) && i < j < n
    ensures Walk(catalog, lower, i) != Walk(catalog, lower, j)
  {
    WalkPrefix(catalog, lower, i, n);
    WalkPrefix(catalog, lower, j, n);
    if Walk(catalog, lower, i) == Walk(catalog, lower, j) {
      WalkAdds(catalog, lower, i, n - j);
      WalkAdds(catalog, lower, j, n - j);
    }
  }

  function Ids(catalog: Catalog): set<string> { set e | e in catalog :: e.id }

  lemma {:induction false} IdsAreFew(catalog: Catalog)
    ensures |Ids(catalog)| <= |catalog|
  {
    if catalog == [] {
      assert Ids(catalog) == {};
    } else {
      IdsAreFew(catalog[1..]);
      assert Ids(catalog) == {catalog[0].id} + Ids(catalog[1..]);
    }
  }

  /** The IDs visited before step `n`. */
  ghost function Visited(catalog: Catalog, lower: string, n: nat): set<string>
    requires forall i: nat | i < n :: Walk(catalog, lower, i).Some?
  {
    if n == 0 then {} else Visited(catalog, lower, n - 1) + {Walk(catalog, lower, n - 1).value}
  }

  lemma {:induction false} VisitedBefore(catalog: Catalog, lower: string, n: nat, id: string) returns (i: nat)
    requires (forall i: nat | i < n :: Walk(catalog, lower, i).Some?) && id in Visited(catalog, lower, n)
    ensures i < n && Walk(catalog, lower, i) == Some(id)
    decreases n
  {
    if id == Walk(catalog, lower, n - 1).value { i := n - 1; } else { i := VisitedBefore(catalog, lower, n - 1, id); }
  }

  lemma NewVisit(catalog: Catalog, upper: string, lower: string, length: nat, n: nat)
    requires Shortest(catalog, upper, lower, length) && n < length && forall i: nat | i < length :: Walk(catalog, lower, i).Some?
    ensures Walk(catalog, lower, n).value !in Visited(catalog, lower, n) && Walk(catalog, lower, n).value in Ids(catalog)
  {
    var id := Walk(catalog, lower, n).value;
    if id in Visited(catalog, lower, n) {
      var i := VisitedBefore(catalog, lower, n, id);
      NoRepeat(catalog, upper, lower, length, i, n);
    }
    WalkPrefix(catalog, lower, n + 1, length);
    assert Find(catalog, id).Some?;
  }

  lemma {:induction false} VisitedCount(catalog: Catalog, upper: string, lower: string, length: nat, n: nat)
    requires Shortest(catalog, upper, lower, length) && n <= length && forall i: nat | i < length :: Walk(catalog, lower, i).Some?
    ensures |Visited(catalog, lower, n)| == n && Visited(catalog, lower, n) <= Ids(catalog)
    decreases n
  {
    if n > 0 {
      VisitedCount(catalog, upper, lower, length, n - 1);
      NewVisit(catalog, upper, lower, length, n - 1);
      OneMore(Visited(catalog, lower, n - 1), Walk(catalog, lower, n - 1).value);
    }
  }

  lemma OneMore<T>(a: set<T>, x: T)
    requires x !in a
    ensures |a + {x}| == |a| + 1
  {
  }

  /** Pigeonhole: a shortest walk is no longer than the catalog. */
  lemma ShortestFits(catalog: Catalog, upper: string, lower: string, n: nat)
    requires Shortest(catalog, upper, lower, n)
    ensures n <= |catalog|
  {
    forall i: nat | i < n ensures Walk(catalog, lower, i).Some? { WalkPrefix(catalog, lower, i, n); }
    VisitedCount(catalog, upper, lower, n, n);
    IdsAreFew(catalog);
    SubsetIsSmaller(Visited(catalog, lower, n), Ids(catalog));
  }

  lemma {:induction false} SubsetIsSmaller<T>(a: set<T>, b: set<T>)
    requires a <= b
    ensures |a| <= |b|
    decreases |a|
  {
    if a != {} {
      var x :| x in a;
      SubsetIsSmaller(a - {x}, b - {x});
    }
  }

  lemma {:induction false} ShortestExists(catalog: Catalog, upper: string, lower: string, n: nat) returns (m: nat)
    requires n > 0 && Walk(catalog, lower, n) == Some(upper)
    ensures Shortest(catalog, upper, lower, m) && m <= n
    decreases n
  {
    if k: nat :| 0 < k < n && Walk(catalog, lower, k) == Some(upper) {
      m := ShortestExists(catalog, upper, lower, k);
    } else {
      m := n;
    }
  }

  /** ancestor(upper, lower): as many steps as the catalog has entries decide true transitive containment,
  even if parents form a cycle. */
  method Ancestor(catalog: Catalog, upper: string, lower: string) returns (within: bool)
    ensures within <==> Within(catalog, upper, lower)
  {
    var at := lower;
    for steps := 0 to |catalog|
      invariant Walk(catalog, lower, steps) == Some(at)
      invariant forall m: nat | 0 < m <= steps :: Walk(catalog, lower, m) != Some(upper)
    {
      var e := FindEntity(catalog, at);
      if e.None? || e.value.parent == "" {
        WalkStops(catalog, upper, lower, steps);
        return false;
      }
      if e.value.parent == upper {
        assert Walk(catalog, lower, steps + 1) == Some(upper);
        return true;
      }
      at := e.value.parent;
    }
    if Within(catalog, upper, lower) {
      ghost var n: nat :| n > 0 && Walk(catalog, lower, n) == Some(upper);
      ghost var m := ShortestExists(catalog, upper, lower, n);
      ShortestFits(catalog, upper, lower, m);
    }
    within := false;
  }

  lemma WalkStops(catalog: Catalog, upper: string, lower: string, steps: nat)
    requires Walk(catalog, lower, steps + 1).None?
    requires forall m: nat | 0 < m <= steps :: Walk(catalog, lower, m) != Some(upper)
    ensures !Within(catalog, upper, lower)
  {
    if Within(catalog, upper, lower) {
      var n: nat :| n > 0 && Walk(catalog, lower, n) == Some(upper);
      if n > steps { WalkPrefix(catalog, lower, steps + 1, n); }
    }
  }

  lemma WithinIsTransitive(catalog: Catalog, a: string, b: string, c: string)
    requires Within(catalog, a, b) && Within(catalog, b, c)
    ensures Within(catalog, a, c)
  {
    var m: nat :| m > 0 && Walk(catalog, c, m) == Some(b);
    var n: nat :| n > 0 && Walk(catalog, b, n) == Some(a);
    WalkAdds(catalog, c, m, n);
  }

  /** Everything a place lies in is on one chain. */
  lemma ContainersAreComparable(catalog: Catalog, a: string, b: string, c: string)
    requires Within(catalog, a, c) && Within(catalog, b, c)
    ensures a == b || Within(catalog, a, b) || Within(catalog, b, a)
  {
    var m: nat :| m > 0 && Walk(catalog, c, m) == Some(a);
    var n: nat :| n > 0 && Walk(catalog, c, n) == Some(b);
    if m < n { WalkAdds(catalog, c, m, n - m); } else if n < m { WalkAdds(catalog, c, n, m - n); }
  }
}
