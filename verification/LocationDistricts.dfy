/** Which district an area name counts for. */
module LocationDistricts {
  import opened Rows
  import opened LocationCatalog

  datatype Group = Outside | Unassigned | InDistrict(id: string)

  const MUNICH := "city:munich"

  /** What the walk up from an entry finds first: an official district, or another municipality. */
  function Verdict(e: Entity): Option<Group> {
    if e.kind == District && e.parent == MUNICH then Some(InDistrict(e.id))
    else if e.kind == Municipality && e.id != MUNICH then Some(Outside)
    else None
  }

  /** At most `steps` steps up. */
  function GroupWithin(catalog: Catalog, e: Entity, steps: nat): Group
    decreases steps
  {
    if steps == 0 then Unassigned
    else match Verdict(e)
      case Some(group) => group
      case None =>
        match Find(catalog, e.parent)
        case None => Unassigned
        case Some(up) => GroupWithin(catalog, up, steps - 1)
  }

  function GroupOf(catalog: Catalog, e: Entity): Group { GroupWithin(catalog, e, |catalog|) }

  method FindGroup(catalog: Catalog, entity: Entity) returns (group: Group)
    ensures group == GroupOf(catalog, entity)
  {
    var current := entity;
    for steps := 0 to |catalog|
      invariant GroupWithin(catalog, current, |catalog| - steps) == GroupOf(catalog, entity)
    {
      var verdict := Verdict(current);
      if verdict.Some? {
        return verdict.value;
      }
      var up := FindEntity(catalog, current.parent);
      if up.None? {
        return Unassigned;
      }
      current := up.value;
    }
    group := Unassigned;
  }

  function Groups(catalog: Catalog): (groups: seq<Group>)
    ensures |groups| == |catalog| && forall i | 0 <= i < |catalog| :: groups[i] == GroupOf(catalog, catalog[i])
  {
    seq(|catalog|, i requires 0 <= i < |catalog| => GroupOf(catalog, catalog[i]))
  }

  /** What two entries with the same name make of it: nothing is chosen between different groups. */
  function Joined(before: Option<Group>, group: Group): Group {
    if before.Some? && before.value != group then Unassigned else group
  }

  /** The group of a name after the first `n` entries. */
  function GroupAfter(catalog: Catalog, groups: seq<Group>, n: nat, key: string): Option<Group>
    requires n <= |catalog| == |groups|
  {
    if n == 0 then None else
      var before := GroupAfter(catalog, groups, n - 1, key);
      if key in catalog[n - 1].keys then Some(Joined(before, groups[n - 1])) else before
  }

  function DistrictGroupOf(catalog: Catalog, key: string): Group {
    match GroupAfter(catalog, Groups(catalog), |catalog|, key) case None => Unassigned case Some(group) => group
  }

  predicate Named(catalog: Catalog, n: nat, key: string)
    requires n <= |catalog|
  {
    exists i | 0 <= i < n :: key in catalog[i].keys
  }

  predicate Agree(catalog: Catalog, groups: seq<Group>, n: nat, key: string, group: Group)
    requires n <= |catalog| == |groups|
  {
    forall i | 0 <= i < n && key in catalog[i].keys :: groups[i] == group
  }

  /** The group that all entries of a name agree on, and none if they do not agree. */
  lemma {:induction false} GroupIsAgreed(catalog: Catalog, groups: seq<Group>, n: nat, key: string, g: Group)
    requires n <= |catalog| == |groups|
    ensures GroupAfter(catalog, groups, n, key).None? <==> !Named(catalog, n, key)
    ensures Named(catalog, n, key) && Agree(catalog, groups, n, key, g) ==> GroupAfter(catalog, groups, n, key) == Some(g)
    ensures GroupAfter(catalog, groups, n, key) == Some(g) ==> Agree(catalog, groups, n, key, g) || g == Unassigned
    decreases n
  {
    if n > 0 {
      GroupIsAgreed(catalog, groups, n - 1, key, g);
    }
  }

  /** buildDistrictGroups: fail closed when a name is ambiguous. */
  method BuildDistrictGroups(catalog: Catalog) returns (names: map<string, Group>)
    ensures forall key :: (if key in names then Some(names[key]) else None) == GroupAfter(catalog, Groups(catalog), |catalog|, key)
  {
    names := map[];
    for n := 0 to |catalog|
      invariant forall key :: Looked(names, key) == GroupAfter(catalog, Groups(catalog), n, key)
    {
      var group := FindGroup(catalog, catalog[n]);
      names := AddNames(names, catalog[n].keys, group);
    }
  }

  function Looked(names: map<string, Group>, key: string): Option<Group> { if key in names then Some(names[key]) else None }

  method AddNames(before: map<string, Group>, all: set<string>, group: Group) returns (names: map<string, Group>)
    ensures forall key :: Looked(names, key) == if key in all then Some(Joined(Looked(before, key), group)) else Looked(before, key)
  {
    names := before;
    var keys := all;
    while keys != {}
      invariant keys <= all
      invariant forall key :: Looked(names, key) == if key in all - keys then Some(Joined(Looked(before, key), group)) else Looked(before, key)
      decreases |keys|
    {
      var key := Pick(keys);
      names := names[key := if key in names && names[key] != group then Unassigned else group];
      keys := keys - {key};
    }
  }

  // ----- the order of the catalog -----

  lemma SameFind(a: Catalog, b: Catalog, id: string)
    requires UniqueIds(a) && UniqueIds(b) && forall e :: e in a <==> e in b
    ensures Find(a, id) == Find(b, id)
  {
    if Find(a, id).Some? && Find(b, id).Some? {
      var x, y := Find(a, id).value, Find(b, id).value;
      var i :| 0 <= i < |a| && a[i] == x;
      var j :| 0 <= j < |a| && a[j] == y;
    }
  }

  lemma {:induction false} SameGroup(a: Catalog, b: Catalog, e: Entity, steps: nat)
    requires UniqueIds(a) && UniqueIds(b) && forall e :: e in a <==> e in b
    ensures GroupWithin(a, e, steps) == GroupWithin(b, e, steps)
    decreases steps
  {
    if steps > 0 {
      SameFind(a, b, e.parent);
      if Find(a, e.parent).Some? { SameGroup(a, b, Find(a, e.parent).value, steps - 1); }
    }
  }

  /** Two catalogs with the same entries, in whatever order, give every name the same group. */
  lemma GroupsDoNotDependOnOrder(a: Catalog, b: Catalog, key: string)
    requires UniqueIds(a) && UniqueIds(b) && |a| == |b| && forall e :: e in a <==> e in b
    ensures DistrictGroupOf(a, key) == DistrictGroupOf(b, key)
  {
    forall e ensures GroupOf(a, e) == GroupOf(b, e) { SameGroup(a, b, e, |a|); }
    NamedMoves(a, b, key);
    NamedMoves(b, a, key);
    var x, y := DistrictGroupOf(a, key), DistrictGroupOf(b, key);
    GroupIsAgreed(a, Groups(a), |a|, key, x);
    GroupIsAgreed(b, Groups(b), |b|, key, x);
    GroupIsAgreed(a, Groups(a), |a|, key, y);
    GroupIsAgreed(b, Groups(b), |b|, key, y);
    AgreeMoves(a, b, key, x);
    AgreeMoves(b, a, key, y);
  }

  lemma NamedMoves(a: Catalog, b: Catalog, key: string)
    requires forall e :: e in a <==> e in b
    ensures Named(a, |a|, key) ==> Named(b, |b|, key)
  {
    if Named(a, |a|, key) {
      var i :| 0 <= i < |a| && key in a[i].keys;
      var e := a[i];
      assert e in b;
      var j :| 0 <= j < |b| && b[j] == e;
    }
  }

  lemma AgreeMoves(a: Catalog, b: Catalog, key: string, g: Group)
    requires (forall e :: GroupOf(a, e) == GroupOf(b, e)) && forall e :: e in a <==> e in b
    ensures Agree(a, Groups(a), |a|, key, g) ==> Agree(b, Groups(b), |b|, key, g)
  {
    if Agree(a, Groups(a), |a|, key, g) {
      forall i | 0 <= i < |b| && key in b[i].keys ensures Groups(b)[i] == g {
        var e := b[i];
        assert e in b && e in a;
        var j :| 0 <= j < |a| && a[j] == e;
      }
    }
  }

  /** A name whose entries are in conflict, or that no entry has, is assigned to no district. */
  lemma ConflictIsUnassigned(catalog: Catalog, key: string)
    ensures (forall g :: !Agree(catalog, Groups(catalog), |catalog|, key, g)) || !Named(catalog, |catalog|, key) ==>
              DistrictGroupOf(catalog, key) == Unassigned
  {
    GroupIsAgreed(catalog, Groups(catalog), |catalog|, key, DistrictGroupOf(catalog, key));
  }

  /** Otherwise it has the group of all its entries. */
  lemma AgreementDecides(catalog: Catalog, key: string, g: Group)
    requires Named(catalog, |catalog|, key) && Agree(catalog, Groups(catalog), |catalog|, key, g)
    ensures DistrictGroupOf(catalog, key) == g
  {
    GroupIsAgreed(catalog, Groups(catalog), |catalog|, key, g);
  }
}
