/** Which district a name counts for, said of the entries of the catalog. */
module LocationGroups {
  import opened Rows
  import opened LocationCatalog
  import opened LocationDistricts

  /** The first entry with an ID. */
  ghost predicate IsEntry(catalog: Catalog, id: string, e: Entity) {
    exists i :: 0 <= i < |catalog| && catalog[i] == e && e.id == id && forall j | 0 <= j < i :: catalog[j].id != id
  }

  ghost predicate IsMunichDistrict(e: Entity) { e.kind == District && e.parent == "city:munich" }

  ghost predicate IsOtherTown(e: Entity) { e.kind == Municipality && e.id != "city:munich" }

  /** From parent to parent, past entries that are neither a district of the city nor another town. */
  ghost predicate IsPath(catalog: Catalog, path: seq<Entity>) {
    |path| > 0 && forall k | 0 <= k < |path| - 1 :: IsStep(catalog, path[k], path[k + 1])
  }

  ghost predicate IsStep(catalog: Catalog, lower: Entity, upper: Entity) {
    IsEntry(catalog, lower.parent, upper) && !IsMunichDistrict(lower) && !IsOtherTown(lower)
  }

  /** A path from the entry ends at a district, or at another town. */
  ghost predicate LeadsTo(catalog: Catalog, e: Entity, group: Group) {
    exists path :: IsPath(catalog, path) && path[0] == e && IsEnd(path[|path| - 1], group)
  }

  ghost predicate IsEnd(e: Entity, group: Group) {
    match group
    case InDistrict(id) => IsMunichDistrict(e) && e.id == id
    case Outside => IsOtherTown(e)
    case Unassigned => false
  }

  lemma {:induction false} EntryIs(catalog: Catalog, id: string, e: Entity)
    ensures Find(catalog, id) == Some(e) <==> IsEntry(catalog, id, e)
  {
    if catalog != [] && catalog[0].id != id {
      EntryIs(catalog[1..], id, e);
      if i :| 0 <= i < |catalog[1..]| && catalog[1..][i] == e && e.id == id && forall j | 0 <= j < i :: catalog[1..][j].id != id {
        assert catalog[i + 1] == e;
        forall j | 0 <= j < i + 1 ensures catalog[j].id != id { if j > 0 { assert catalog[j] == catalog[1..][j - 1]; } }
      }
      if i :| 0 <= i < |catalog| && catalog[i] == e && e.id == id && forall j | 0 <= j < i :: catalog[j].id != id {
        assert catalog[1..][i - 1] == e;
      }
    }
  }

  lemma EndIs(e: Entity)
    ensures forall g :: IsEnd(e, g) <==> Verdict(e) == Some(g)
  {
  }

  /** A path that is no longer than the walk gives its group. */
  lemma {:induction false} PathDecides(catalog: Catalog, path: seq<Entity>, group: Group, steps: nat)
    requires IsPath(catalog, path) && IsEnd(path[|path| - 1], group) && |path| <= steps
    ensures GroupWithin(catalog, path[0], steps) == group
    decreases |path|
  {
    EndIs(path[0]);
    if |path| > 1 {
      assert IsStep(catalog, path[0], path[1]);
      EntryIs(catalog, path[0].parent, path[1]);
      forall g ensures !IsEnd(path[0], g) {}
      forall k | 0 <= k < |path[1..]| - 1 ensures IsStep(catalog, path[1..][k], path[1..][k + 1]) { assert IsStep(catalog, path[k + 1], path[k + 2]); }
      PathDecides(catalog, path[1..], group, steps - 1);
    }
  }

  /** What the walk finds, a path leads to. */
  lemma {:induction false} WalkLeads(catalog: Catalog, e: Entity, steps: nat)
    ensures var group := GroupWithin(catalog, e, steps); group != Unassigned ==> LeadsTo(catalog, e, group)
    decreases steps
  {
    var group := GroupWithin(catalog, e, steps);
    EndIs(e);
    if steps > 0 && group != Unassigned {
      if Verdict(e).Some? {
        EndLeads(catalog, e, group);
      } else {
        var up := Find(catalog, e.parent).value;
        EntryIs(catalog, e.parent, up);
        WalkLeads(catalog, up, steps - 1);
        NoVerdictNoEnd(e);
        LeadsFurther(catalog, e, up, group);
      }
    }
  }

  lemma EndLeads(catalog: Catalog, e: Entity, group: Group)
    requires IsEnd(e, group)
    ensures LeadsTo(catalog, e, group)
  {
    assert IsPath(catalog, [e]);
  }

  lemma LeadsFurther(catalog: Catalog, e: Entity, up: Entity, group: Group)
    requires IsStep(catalog, e, up) && LeadsTo(catalog, up, group)
    ensures LeadsTo(catalog, e, group)
  {
    var path :| IsPath(catalog, path) && path[0] == up && IsEnd(path[|path| - 1], group);
    StepInFront(catalog, e, path);
    var longer := [e] + path;
    assert longer[|longer| - 1] == path[|path| - 1];
  }

  lemma NoVerdictNoEnd(e: Entity)
    requires Verdict(e).None?
    ensures !IsMunichDistrict(e) && !IsOtherTown(e)
  {
  }

  lemma StepInFront(catalog: Catalog, e: Entity, path: seq<Entity>)
    requires IsPath(catalog, path) && IsStep(catalog, e, path[0])
    ensures IsPath(catalog, [e] + path)
  {
    forall k | 0 <= k < |path| ensures IsStep(catalog, ([e] + path)[k], ([e] + path)[k + 1]) {
      if k > 0 { assert IsStep(catalog, path[k - 1], path[k]); }
    }
  }

  // ----- the bound of the walk -----

  /** From equal entries a path goes on equally. */
  lemma {:induction false} SameAhead(catalog: Catalog, path: seq<Entity>, i: nat, j: nat, k: nat)
    requires IsPath(catalog, path) && i <= j && j + k < |path| && path[i] == path[j]
    ensures path[i + k] == path[j + k]
    decreases k
  {
    if k > 0 {
      SameAhead(catalog, path, i, j, k - 1);
      assert IsStep(catalog, path[i + k - 1], path[i + k - 1 + 1]) && IsStep(catalog, path[j + k - 1], path[j + k - 1 + 1]);
      EntryIs(catalog, path[i + k - 1].parent, path[i + k]);
      EntryIs(catalog, path[j + k - 1].parent, path[j + k]);
    }
  }

  lemma InnerIsNoEnd(catalog: Catalog, path: seq<Entity>, group: Group, k: nat)
    requires IsPath(catalog, path) && k < |path| - 1
    ensures !IsEnd(path[k], group)
  {
    assert IsStep(catalog, path[k], path[k + 1]);
  }

  lemma NeverTwice(catalog: Catalog, path: seq<Entity>, group: Group, i: nat, j: nat)
    requires IsPath(catalog, path) && IsEnd(path[|path| - 1], group) && i < j < |path|
    ensures path[i] != path[j]
  {
    InnerIsNoEnd(catalog, path, group, i + (|path| - 1 - j));
    if path[i] == path[j] { SameAhead(catalog, path, i, j, |path| - 1 - j); }
  }

  lemma {:induction false} DistinctFit(path: seq<Entity>, all: set<Entity>)
    requires (forall i, j | 0 <= i < j < |path| :: path[i] != path[j]) && forall i | 0 <= i < |path| :: path[i] in all
    ensures |path| <= |all|
    decreases |path|
  {
    if path != [] {
      forall i | 0 <= i < |path[1..]| ensures path[1..][i] in all - {path[0]} { assert path[1..][i] == path[i + 1]; }
      DistinctFit(path[1..], all - {path[0]});
    }
  }

  lemma {:induction false} SetFits(catalog: Catalog)
    ensures |set e | e in catalog| <= |catalog|
  {
    if catalog != [] {
      SetFits(catalog[1..]);
      assert (set e | e in catalog) == {catalog[0]} + set e | e in catalog[1..];
    }
  }

  /** No path that ends is longer than the catalog, so the bounded walk misses none. */
  lemma PathFits(catalog: Catalog, path: seq<Entity>, group: Group)
    requires IsPath(catalog, path) && path[0] in catalog && IsEnd(path[|path| - 1], group)
    ensures |path| <= |catalog|
  {
    forall i, j | 0 <= i < j < |path| ensures path[i] != path[j] { NeverTwice(catalog, path, group, i, j); }
    forall i | 0 <= i < |path| ensures path[i] in catalog {
      if i > 0 {
        assert IsStep(catalog, path[i - 1], path[i - 1 + 1]);
        EntryIs(catalog, path[i - 1].parent, path[i]);
      }
    }
    DistinctFit(path, set e | e in catalog);
    SetFits(catalog);
  }

  /** An entry counts for the district or town that its parents lead to, and for none if they lead to neither. */
  lemma GroupIsExact(catalog: Catalog, e: Entity)
    requires e in catalog
    ensures forall g | g != Unassigned :: GroupOf(catalog, e) == g <==> LeadsTo(catalog, e, g)
  {
    WalkLeads(catalog, e, |catalog|);
    forall g | g != Unassigned && LeadsTo(catalog, e, g) ensures GroupOf(catalog, e) == g {
      var path :| IsPath(catalog, path) && path[0] == e && IsEnd(path[|path| - 1], g);
      PathFits(catalog, path, g);
      PathDecides(catalog, path, g, |catalog|);
    }
  }

  /** A name counts for a district, or for another town, exactly if some entry has it and every entry that has it leads there. */
  lemma NameIsExact(catalog: Catalog, key: string, g: Group)
    requires g != Unassigned
    ensures DistrictGroupOf(catalog, key) == g <==>
              (exists e :: e in catalog && key in e.keys) && forall e | e in catalog && key in e.keys :: LeadsTo(catalog, e, g)
  {
    GroupIsAgreed(catalog, Groups(catalog), |catalog|, key, g);
    forall e | e in catalog ensures GroupOf(catalog, e) == g <==> LeadsTo(catalog, e, g) { GroupIsExact(catalog, e); }
    if Named(catalog, |catalog|, key) {
      var i :| 0 <= i < |catalog| && key in catalog[i].keys;
      assert catalog[i] in catalog;
    }
    AgreementIs(catalog, key, g);
  }

  lemma AgreementIs(catalog: Catalog, key: string, g: Group)
    requires g != Unassigned && forall e | e in catalog :: GroupOf(catalog, e) == g <==> LeadsTo(catalog, e, g)
    ensures Agree(catalog, Groups(catalog), |catalog|, key, g) <==> forall e | e in catalog && key in e.keys :: LeadsTo(catalog, e, g)
  {
    if Agree(catalog, Groups(catalog), |catalog|, key, g) {
      forall e | e in catalog && key in e.keys ensures LeadsTo(catalog, e, g) {
        var i :| 0 <= i < |catalog| && catalog[i] == e;
        assert Groups(catalog)[i] == g;
      }
    }
  }

  // ----- containment -----

  /** IDs from a place up to one that contains it: each is the parent of the entry before, and none is empty. */
  ghost predicate IsChainOfIds(catalog: Catalog, ids: seq<string>) {
    |ids| > 1 && forall k | 0 <= k < |ids| - 1 :: IsParentOf(catalog, ids[k], ids[k + 1])
  }

  ghost predicate IsParentOf(catalog: Catalog, id: string, parent: string) {
    parent != "" && exists e :: IsEntry(catalog, id, e) && e.parent == parent
  }

  lemma ParentIs(catalog: Catalog, id: string, parent: string)
    ensures IsParentOf(catalog, id, parent) <==> Up(catalog, id) == Some(parent)
  {
    if e :| IsEntry(catalog, id, e) && e.parent == parent { EntryIs(catalog, id, e); }
    if Find(catalog, id).Some? { EntryIs(catalog, id, Find(catalog, id).value); }
  }

  lemma {:induction false} WalkIsChain(catalog: Catalog, id: string, n: nat) returns (ids: seq<string>)
    requires Walk(catalog, id, n).Some?
    ensures |ids| == n + 1 && ids[0] == id && ids[n] == Walk(catalog, id, n).value
    ensures forall k | 0 <= k < n :: IsParentOf(catalog, ids[k], ids[k + 1])
    decreases n
  {
    if n == 0 {
      ids := [id];
    } else {
      ids := WalkIsChain(catalog, id, n - 1);
      ParentIs(catalog, ids[n - 1], Walk(catalog, id, n).value);
      ids := ids + [Walk(catalog, id, n).value];
    }
  }

  lemma {:induction false} ChainIsWalk(catalog: Catalog, ids: seq<string>, n: nat)
    requires n < |ids| && forall k | 0 <= k < n :: IsParentOf(catalog, ids[k], ids[k + 1])
    ensures Walk(catalog, ids[0], n) == Some(ids[n])
    decreases n
  {
    if n > 0 {
      ChainIsWalk(catalog, ids, n - 1);
      ParentIs(catalog, ids[n - 1], ids[n - 1 + 1]);
    }
  }

  /** A place is within another exactly if a chain of parents leads from the one to the other. */
  lemma ContainmentIsExact(catalog: Catalog, upper: string, lower: string)
    ensures Within(catalog, upper, lower) <==> exists ids :: IsChainOfIds(catalog, ids) && ids[0] == lower && ids[|ids| - 1] == upper
  {
    if n: nat :| n > 0 && Walk(catalog, lower, n) == Some(upper) {
      var ids := WalkIsChain(catalog, lower, n);
      assert IsChainOfIds(catalog, ids);
    }
    if ids :| IsChainOfIds(catalog, ids) && ids[0] == lower && ids[|ids| - 1] == upper {
      ChainIsWalk(catalog, ids, |ids| - 1);
    }
  }
}
