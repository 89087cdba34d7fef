/** When the order of the mentions does not matter. */
module LocationOrder {
  import opened Rows
  import opened LocationCatalog
  import opened LocationEvidence
  import opened LocationResolve

  /** No two places lie within each other. */
  ghost predicate Acyclic(catalog: Catalog) {
    forall a, b | Within(catalog, a, b) && Within(catalog, b, a) :: a == b
  }

  ghost predicate SameMembers(a: seq<Entity>, b: seq<Entity>) { forall e :: e in a <==> e in b }

  predicate AreEntries(catalog: Catalog, areas: seq<Entity>) { forall e | e in areas :: e in catalog }

  lemma SameId(catalog: Catalog, x: Entity, y: Entity)
    requires UniqueIds(catalog) && x in catalog && y in catalog && x.id == y.id
    ensures x == y
  {
    var i :| 0 <= i < |catalog| && catalog[i] == x;
    var j :| 0 <= j < |catalog| && catalog[j] == y;
  }

  /** The selections of two lists of the same areas are the same, or two areas lie within each other. */
  lemma SelectionsCompare(catalog: Catalog, a: seq<Entity>, b: seq<Entity>, x: Option<Entity>, y: Option<Entity>)
    requires UniqueIds(catalog) && SameMembers(a, b) && AreEntries(catalog, a) && Selects(catalog, a, x) && Selects(catalog, b, y)
    ensures x.Some? <==> y.Some?
    ensures x != y ==> x.value in a && y.value in a && x.value.id != y.value.id &&
                       Within(catalog, x.value.id, y.value.id) && Within(catalog, y.value.id, x.value.id)
  {
    assert IsChain(catalog, a) <==> IsChain(catalog, b);
    if x != y {
      assert IsLowest(catalog, a, x.value) && IsLowest(catalog, b, y.value);
      if x.value.id == y.value.id { SameId(catalog, x.value, y.value); }
    }
  }

  lemma SelectsFirst(catalog: Catalog, x: Entity, y: Entity)
    requires Within(catalog, x.id, y.id) && Within(catalog, y.id, x.id)
    ensures Selects(catalog, [x, y], Some(x))
  {
    assert IsFirstLowest(catalog, [x, y], 0);
  }

  ghost predicate OrderIsImmaterial(catalog: Catalog) {
    forall a, b, x, y | a != [] && SameMembers(a, b) && AreEntries(catalog, a) && Selects(catalog, a, x) && Selects(catalog, b, y) :: x == y
  }

  /** The selected area is the same for all orders of all lists of areas exactly if the catalog has no cycle. */
  lemma SelectionIgnoresOrderExactly(catalog: Catalog)
    requires UniqueIds(catalog)
    ensures OrderIsImmaterial(catalog) <==> Acyclic(catalog)
  {
    if Acyclic(catalog) {
      forall a, b, x, y | a != [] && SameMembers(a, b) && AreEntries(catalog, a) && Selects(catalog, a, x) && Selects(catalog, b, y) ensures x == y {
        SelectionsCompare(catalog, a, b, x, y);
      }
    } else {
      var p, q :| Within(catalog, p, q) && Within(catalog, q, p) && p != q;
      var x, y := EntityOf(catalog, p, q), EntityOf(catalog, q, p);
      SelectsFirst(catalog, x, y);
      SelectsFirst(catalog, y, x);
      assert SameMembers([x, y], [y, x]) && Some(x) != Some(y);
    }
  }

  /** A place within another is in the catalog. */
  function EntityOf(catalog: Catalog, lower: string, upper: string): (e: Entity)
    requires Within(catalog, upper, lower)
    ensures e in catalog && e.id == lower
  {
    LowerIsEntry(catalog, lower, upper);
    Find(catalog, lower).value
  }

  lemma LowerIsEntry(catalog: Catalog, lower: string, upper: string)
    requires Within(catalog, upper, lower)
    ensures Find(catalog, lower).Some?
  {
    var n: nat :| n > 0 && Walk(catalog, lower, n) == Some(upper);
    WalkPrefix(catalog, lower, 1, n);
    assert Walk(catalog, lower, 0) == Some(lower);
  }

  // ----- the order of the mentions -----

  lemma {:induction false} AreaOfSomeMention(u: Unicode, report: Report, catalog: Catalog, mentions: seq<Mention>, e: Entity)
    ensures e in Areas(u, report, catalog, mentions) <==> exists m :: m in mentions && PlaceOf(u, report, catalog, m) == At(e)
    decreases |mentions|
  {
    if mentions != [] {
      var front, last := mentions[..|mentions| - 1], mentions[|mentions| - 1];
      AreaOfSomeMention(u, report, catalog, front, e);
      assert forall m :: m in mentions <==> m in front || m == last;
    }
  }

  lemma PlacesAreEntries(u: Unicode, report: Report, catalog: Catalog, m: Mention)
    ensures PlaceOf(u, report, catalog, m).At? ==> PlaceOf(u, report, catalog, m).entity in catalog
  {
    var candidates := CandidatesFor(u, report, catalog, m);
    if |candidates| == 1 { assert candidates[0] in candidates; }
  }

  lemma AreasAreEntries(u: Unicode, report: Report, catalog: Catalog, mentions: seq<Mention>)
    ensures AreEntries(catalog, Areas(u, report, catalog, mentions))
  {
    forall e | e in Areas(u, report, catalog, mentions) ensures e in catalog {
      AreaOfSomeMention(u, report, catalog, mentions, e);
      var m :| m in mentions && PlaceOf(u, report, catalog, m) == At(e);
      PlacesAreEntries(u, report, catalog, m);
    }
  }

  /** The same mentions in another order. */
  ghost predicate Reordered(a: seq<Mention>, b: seq<Mention>) { multiset(a) == multiset(b) }

  lemma ReorderedMembers(a: seq<Mention>, b: seq<Mention>)
    requires Reordered(a, b)
    ensures |a| == |b| && forall m :: m in a <==> m in b
  {
    assert |multiset(a)| == |a| && |multiset(b)| == |b|;
    forall m ensures m in a <==> m in b { assert m in multiset(a) <==> m in multiset(b); }
  }

  lemma ReorderedAreas(u: Unicode, report: Report, catalog: Catalog, a: seq<Mention>, b: seq<Mention>)
    requires Reordered(a, b)
    ensures SameMembers(Areas(u, report, catalog, a), Areas(u, report, catalog, b))
    ensures AnyUnknown(u, report, catalog, a) <==> AnyUnknown(u, report, catalog, b)
  {
    ReorderedMembers(a, b);
    forall e ensures e in Areas(u, report, catalog, a) <==> e in Areas(u, report, catalog, b) {
      AreaOfSomeMention(u, report, catalog, a, e);
      AreaOfSomeMention(u, report, catalog, b, e);
    }
  }

  lemma SameEmptiness(a: seq<Entity>, b: seq<Entity>)
    requires SameMembers(a, b)
    ensures a == [] <==> b == []
  {
    if a != [] { var e := a[0]; assert e in a; }
    if b != [] { var e := b[0]; assert e in b; }
  }

  /** A place that some valid mention of the report stands for. */
  ghost predicate Mentionable(u: Unicode, report: Report, catalog: Catalog, e: Entity) {
    exists m :: StandsFor(u, report, catalog, m, e)
  }

  ghost predicate StandsFor(u: Unicode, report: Report, catalog: Catalog, m: Mention, e: Entity) {
    Valid(u, report, m) && PlaceOf(u, report, catalog, m) == At(e)
  }

  ghost predicate EachOther(catalog: Catalog, x: Entity, y: Entity) {
    Within(catalog, x.id, y.id) && Within(catalog, y.id, x.id)
  }

  /** No two places that can be mentioned lie within each other. */
  ghost predicate NoMentionedCycle(u: Unicode, report: Report, catalog: Catalog) {
    forall x, y | Mentionable(u, report, catalog, x) && Mentionable(u, report, catalog, y) && EachOther(catalog, x, y) :: x.id == y.id
  }

  ghost predicate SameProposals(u: Unicode, report: Report, catalog: Catalog, scope: Scope, a: seq<Mention>, b: seq<Mention>) {
    forall x, y | IsProposal(u, report, catalog, scope, a, x) && IsProposal(u, report, catalog, scope, b, y) :: x == y
  }

  ghost predicate ProposalIgnoresOrder(u: Unicode, report: Report, catalog: Catalog) {
    forall scope, a, b | Reordered(a, b) && AllValid(u, report, a, "") && AllValid(u, report, b, "") :: SameProposals(u, report, catalog, scope, a, b)
  }

  /** What is proposed, and whether, is the same for all orders of all accepted mentions exactly if no two places that
  can be mentioned lie within each other. */
  lemma ProposalIgnoresOrderExactly(u: Unicode, report: Report, catalog: Catalog)
    requires UniqueIds(catalog) && u.size("") == 0
    ensures ProposalIgnoresOrder(u, report, catalog) <==> NoMentionedCycle(u, report, catalog)
  {
    if NoMentionedCycle(u, report, catalog) {
      forall scope, a, b | Reordered(a, b) && AllValid(u, report, a, "") && AllValid(u, report, b, "")
        ensures SameProposals(u, report, catalog, scope, a, b)
      {
        SameProposal(u, report, catalog, scope, a, b);
      }
    } else {
      CycleShows(u, report, catalog);
    }
  }

  lemma CycleShows(u: Unicode, report: Report, catalog: Catalog)
    requires !NoMentionedCycle(u, report, catalog) && u.size("") == 0
    ensures !ProposalIgnoresOrder(u, report, catalog)
  {
    var x, y :| Mentionable(u, report, catalog, x) && Mentionable(u, report, catalog, y) && EachOther(catalog, x, y) && x.id != y.id;
    var m :| StandsFor(u, report, catalog, m, x);
    var n :| StandsFor(u, report, catalog, n, y);
    FirstIsProposed(u, report, catalog, m, n, x, y);
    FirstIsProposed(u, report, catalog, n, m, y, x);
    Swapped(m, n);
    OrderShows(u, report, catalog, [m, n], [n, m], x, y);
  }

  lemma Swapped(m: Mention, n: Mention)
    ensures Reordered([m, n], [n, m])
  {
  }

  lemma OrderShows(u: Unicode, report: Report, catalog: Catalog, a: seq<Mention>, b: seq<Mention>, x: Entity, y: Entity)
    requires Reordered(a, b) && AllValid(u, report, a, "") && AllValid(u, report, b, "") && x != y
    requires IsProposal(u, report, catalog, Single, a, Some(x)) && IsProposal(u, report, catalog, Single, b, Some(y))
    ensures !ProposalIgnoresOrder(u, report, catalog)
  {
    assert Some(x) != Some(y);
    assert !SameProposals(u, report, catalog, Single, a, b);
  }

  lemma AreaIsMentionable(u: Unicode, report: Report, catalog: Catalog, mentions: seq<Mention>, e: Entity)
    requires e in Areas(u, report, catalog, mentions) && AllValid(u, report, mentions, "")
    ensures Mentionable(u, report, catalog, e)
  {
    AreaOfSomeMention(u, report, catalog, mentions, e);
    var m :| m in mentions && PlaceOf(u, report, catalog, m) == At(e);
    assert StandsFor(u, report, catalog, m, e);
  }

  lemma SameProposal(u: Unicode, report: Report, catalog: Catalog, scope: Scope, a: seq<Mention>, b: seq<Mention>)
    requires UniqueIds(catalog) && NoMentionedCycle(u, report, catalog) && Reordered(a, b)
    requires AllValid(u, report, a, "") && AllValid(u, report, b, "")
    ensures SameProposals(u, report, catalog, scope, a, b)
  {
    ReorderedAreas(u, report, catalog, a, b);
    AreasAreEntries(u, report, catalog, a);
    SameEmptiness(Areas(u, report, catalog, a), Areas(u, report, catalog, b));
    forall e | e in Areas(u, report, catalog, a) ensures Mentionable(u, report, catalog, e) {
      AreaIsMentionable(u, report, catalog, a, e);
    }
    forall x, y | IsProposal(u, report, catalog, scope, a, x) && IsProposal(u, report, catalog, scope, b, y) ensures x == y {
      SameSelection(catalog, Areas(u, report, catalog, a), Areas(u, report, catalog, b), x, y);
    }
  }

  lemma SameSelection(catalog: Catalog, a: seq<Entity>, b: seq<Entity>, x: Option<Entity>, y: Option<Entity>)
    requires UniqueIds(catalog) && SameMembers(a, b) && AreEntries(catalog, a)
    requires x.Some? ==> Selects(catalog, a, x)
    requires y.Some? ==> Selects(catalog, b, y)
    requires forall e, f | e in a && f in a && EachOther(catalog, e, f) :: e.id == f.id
    ensures x.Some? && y.Some? ==> x == y
    ensures IsChain(catalog, a) <==> IsChain(catalog, b)
  {
    if x.Some? && y.Some? { SelectionsCompare(catalog, a, b, x, y); }
  }

  lemma FirstIsProposed(u: Unicode, report: Report, catalog: Catalog, m: Mention, n: Mention, x: Entity, y: Entity)
    requires StandsFor(u, report, catalog, m, x) && StandsFor(u, report, catalog, n, y) && EachOther(catalog, x, y)
    requires u.size("") == 0
    ensures AllValid(u, report, [m, n], "") && IsProposal(u, report, catalog, Single, [m, n], Some(x))
  {
    assert [m, n][..0] == [] && [m, n][..1] == [m] && [m, n][..2] == [m, n];
    AreasGrow(u, report, catalog, [m, n], 0);
    AreasGrow(u, report, catalog, [m, n], 1);
    assert Areas(u, report, catalog, [m, n]) == [x, y];
    SelectsFirst(catalog, x, y);
  }
}
