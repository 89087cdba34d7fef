/** Which place a report's mentions are resolved to, said of the mentions and the entries of the catalog. */
module LocationPlaces {
  import opened Rows
  import opened LocationCatalog
  import opened LocationEvidence
  import opened LocationResolve
  import opened LocationGroups

  /** The only entry with this name or alias. */
  ghost predicate IsOnly(catalog: Catalog, key: string, e: Entity) {
    exists i :: IsOnlyAt(catalog, key, i) && catalog[i] == e
  }

  ghost predicate IsOnlyAt(catalog: Catalog, key: string, i: int) {
    0 <= i < |catalog| && key in catalog[i].keys && forall j | 0 <= j < |catalog| && j != i :: key !in catalog[j].keys
  }

  ghost predicate IsUnknown(catalog: Catalog, key: string) { forall j | 0 <= j < |catalog| :: key !in catalog[j].keys }

  /** A tent without a name of its own, in a section about the festival. */
  ghost predicate IsFestivalTent(u: Unicode, report: Report, m: Mention) {
    && m.kind == VenueKind && (report.context == "Wiesnberichte" || report.context == "Wiesn-Berichte")
    && u.key(m.name) in {"festzelt", "festzelts", "festgel\U{e4}nde", "festgel\U{e4}ndes", "wiesnzelt", "wiesnzelts", "wiesn-zelt", "wiesn-zelts"}
  }

  /** The key a mention is looked up by: its name's, or the festival's for a tent that is not in the catalog. */
  ghost predicate IsKeyOf(u: Unicode, report: Report, catalog: Catalog, m: Mention, key: string) {
    key == if IsUnknown(catalog, u.key(m.name)) && IsFestivalTent(u, report, m) then u.key("Oktoberfest") else u.key(m.name)
  }

  ghost predicate IsRelevant(m: Mention) { m.role == Primary && m.kind in {AreaKind, VenueKind} }

  /** The mention means this area: its only entry, or the area that the entry is in if it is a venue. */
  ghost predicate Means(u: Unicode, report: Report, catalog: Catalog, m: Mention, e: Entity) {
    IsRelevant(m) && exists key, x :: IsKeyOf(u, report, catalog, m, key) && IsOnly(catalog, key, x) && IsAreaOf(catalog, x, e)
  }

  ghost predicate IsAreaOf(catalog: Catalog, x: Entity, e: Entity) { if x.kind == Venue then IsEntry(catalog, x.parent, e) else e == x }

  /** The mention may mean an area that is not known: its name is shared, or it is an area's and nobody has it, or the venue
  is in no known area. */
  ghost predicate IsUnclear(u: Unicode, report: Report, catalog: Catalog, m: Mention) {
    && IsRelevant(m) && (forall e :: !Means(u, report, catalog, m, e))
    && (m.kind == VenueKind ==> exists key :: IsKeyOf(u, report, catalog, m, key) && !IsUnknown(catalog, key))
  }

  /** The area is the same or contains the other. */
  ghost predicate IsAround(catalog: Catalog, upper: Entity, lower: Entity) { upper.id == lower.id || Within(catalog, upper.id, lower.id) }

  ghost predicate IsMeant(u: Unicode, report: Report, catalog: Catalog, mentions: seq<Mention>, e: Entity) {
    exists i :: 0 <= i < |mentions| && Means(u, report, catalog, mentions[i], e)
  }

  /** An area that all meant areas are around. */
  ghost predicate IsInnermost(u: Unicode, report: Report, catalog: Catalog, mentions: seq<Mention>, e: Entity) {
    IsMeant(u, report, catalog, mentions, e) && forall other | IsMeant(u, report, catalog, mentions, other) :: IsAround(catalog, other, e)
  }

  /** An area is proposed exactly for a single scene with some meant area, no unclear mention and an innermost area; it is the
  innermost one mentioned first. */
  ghost predicate IsProposalFor(u: Unicode, report: Report, catalog: Catalog, scope: Scope, mentions: seq<Mention>, proposed: Option<Entity>) {
    && (proposed.Some? <==>
          && scope == Single && (forall i | 0 <= i < |mentions| :: !IsUnclear(u, report, catalog, mentions[i]))
          && exists e :: IsInnermost(u, report, catalog, mentions, e))
    && (proposed.Some? ==> exists i :: IsFirstInnermost(u, report, catalog, mentions, i, proposed.value))
  }

  ghost predicate IsFirstInnermost(u: Unicode, report: Report, catalog: Catalog, mentions: seq<Mention>, i: int, e: Entity) {
    && 0 <= i < |mentions| && Means(u, report, catalog, mentions[i], e) && IsInnermost(u, report, catalog, mentions, e)
    && forall j, other | 0 <= j < i && Means(u, report, catalog, mentions[j], other) :: !IsInnermost(u, report, catalog, mentions, other)
  }

  // ----- one mention -----

  lemma {:induction false} LookupCounts(catalog: Catalog, key: string)
    ensures |Lookup(catalog, key)| == 0 <==> IsUnknown(catalog, key)
    ensures |Lookup(catalog, key)| == 1 ==> IsOnly(catalog, key, Lookup(catalog, key)[0])
    ensures (exists i :: IsOnlyAt(catalog, key, i)) ==> |Lookup(catalog, key)| == 1
  {
    if catalog != [] {
      var rest := catalog[1..];
      LookupCounts(rest, key);
      assert forall j | 0 <= j < |rest| :: rest[j] == catalog[j + 1];
      OnlyInRest(catalog, key);
      if key in catalog[0].keys && Lookup(rest, key) == [] {
        assert IsOnlyAt(catalog, key, 0);
      }
    }
  }

  lemma OnlyInRest(catalog: Catalog, key: string)
    requires catalog != []
    ensures forall j :: key !in catalog[0].keys && IsOnlyAt(catalog[1..], key, j) ==> IsOnlyAt(catalog, key, j + 1)
    ensures forall i :: IsOnlyAt(catalog, key, i) && i > 0 ==> IsOnlyAt(catalog[1..], key, i - 1) && key !in catalog[0].keys
    ensures IsOnlyAt(catalog, key, 0) ==> IsUnknown(catalog[1..], key) && key in catalog[0].keys
    ensures IsUnknown(catalog, key) <==> key !in catalog[0].keys && IsUnknown(catalog[1..], key)
  {
  }

  lemma CandidatesAre(u: Unicode, report: Report, catalog: Catalog, m: Mention) returns (key: string)
    ensures IsKeyOf(u, report, catalog, m, key) && CandidatesFor(u, report, catalog, m) == Lookup(catalog, key)
    ensures forall other :: IsKeyOf(u, report, catalog, m, other) ==> other == key
  {
    LookupCounts(catalog, u.key(m.name));
    key := if IsUnknown(catalog, u.key(m.name)) && IsFestivalTent(u, report, m) then u.key("Oktoberfest") else u.key(m.name);
    TentIs(u, report, m);
  }

  lemma TentIs(u: Unicode, report: Report, m: Mention)
    ensures IsFestivalTent(u, report, m) <==>
              u.key(m.name) in FESTIVAL_VENUES && m.kind == VenueKind && report.context in FESTIVAL_SECTIONS
    ensures FESTIVAL == "Oktoberfest"
  {
  }

  lemma OnlyIs(catalog: Catalog, key: string, e: Entity)
    ensures IsOnly(catalog, key, e) <==> |Lookup(catalog, key)| == 1 && Lookup(catalog, key)[0] == e
  {
    LookupCounts(catalog, key);
    if |Lookup(catalog, key)| == 1 {
      var first := Lookup(catalog, key)[0];
      var i :| IsOnlyAt(catalog, key, i) && catalog[i] == first;
      forall j | IsOnlyAt(catalog, key, j) ensures j == i {}
    }
  }

  lemma AreaIs(catalog: Catalog, x: Entity, e: Entity)
    ensures IsAreaOf(catalog, x, e) <==> if x.kind == Venue then Find(catalog, x.parent) == Some(e) else e == x
  {
    EntryIs(catalog, x.parent, e);
  }

  lemma RelevantIs(m: Mention)
    ensures IsRelevant(m) <==> m.role == Primary && m.kind !in {OtherKind, InvalidKind}
  {
    match m.kind
    case AreaKind =>
    case VenueKind =>
    case OtherKind =>
    case InvalidKind =>
  }

  lemma MeansIs(u: Unicode, report: Report, catalog: Catalog, m: Mention, e: Entity)
    ensures Means(u, report, catalog, m, e) <==> PlaceOf(u, report, catalog, m) == At(e)
  {
    RelevantIs(m);
    var key := CandidatesAre(u, report, catalog, m);
    var candidates := Lookup(catalog, key);
    if |candidates| == 1 {
      OnlyIs(catalog, key, candidates[0]);
      AreaIs(catalog, candidates[0], e);
    }
    if Means(u, report, catalog, m, e) {
      var other, x :| IsKeyOf(u, report, catalog, m, other) && IsOnly(catalog, other, x) && IsAreaOf(catalog, x, e);
      OnlyIs(catalog, key, x);
      AreaIs(catalog, x, e);
    }
  }

  lemma UnclearIs(u: Unicode, report: Report, catalog: Catalog, m: Mention)
    ensures IsUnclear(u, report, catalog, m) <==> PlaceOf(u, report, catalog, m) == UnknownPlace
  {
    RelevantIs(m);
    var key := CandidatesAre(u, report, catalog, m);
    LookupCounts(catalog, key);
    forall e ensures Means(u, report, catalog, m, e) <==> PlaceOf(u, report, catalog, m) == At(e) { MeansIs(u, report, catalog, m, e); }
    var place := PlaceOf(u, report, catalog, m);
    if place.At? { assert Means(u, report, catalog, m, place.entity); }
  }

  // ----- all mentions -----

  /** The areas are those meant, in the order of the mentions. */
  lemma {:induction false} AreasAreMeant(u: Unicode, report: Report, catalog: Catalog, mentions: seq<Mention>, k: nat) returns (i: nat)
    requires k < |Areas(u, report, catalog, mentions)|
    ensures i < |mentions| && PlaceOf(u, report, catalog, mentions[i]) == At(Areas(u, report, catalog, mentions)[k])
    ensures forall j, e | 0 <= j < i && PlaceOf(u, report, catalog, mentions[j]) == At(e) :: e in Areas(u, report, catalog, mentions)[..k]
    decreases |mentions|
  {
    var n := |mentions| - 1;
    var front := Areas(u, report, catalog, mentions[..n]);
    if k < |front| {
      i := AreasAreMeant(u, report, catalog, mentions[..n], k);
      assert Areas(u, report, catalog, mentions)[..k] == front[..k];
      forall j, e | 0 <= j < i && PlaceOf(u, report, catalog, mentions[j]) == At(e) ensures e in front[..k] { assert mentions[j] == mentions[..n][j]; }
    } else {
      i := n;
      assert Areas(u, report, catalog, mentions)[..k] == front;
      forall j, e | 0 <= j < n && PlaceOf(u, report, catalog, mentions[j]) == At(e) ensures e in front {
        AreaIsThere(u, report, catalog, mentions[..n], j, e);
      }
    }
  }

  lemma {:induction false} AreaIsThere(u: Unicode, report: Report, catalog: Catalog, mentions: seq<Mention>, j: nat, e: Entity)
    requires j < |mentions| && PlaceOf(u, report, catalog, mentions[j]) == At(e)
    ensures e in Areas(u, report, catalog, mentions)
    decreases |mentions|
  {
    var n := |mentions| - 1;
    if j < n { AreaIsThere(u, report, catalog, mentions[..n], j, e); }
  }

  lemma MeantAreAreas(u: Unicode, report: Report, catalog: Catalog, mentions: seq<Mention>, e: Entity)
    ensures IsMeant(u, report, catalog, mentions, e) <==> e in Areas(u, report, catalog, mentions)
  {
    if i :| 0 <= i < |mentions| && Means(u, report, catalog, mentions[i], e) {
      MeansIs(u, report, catalog, mentions[i], e);
      AreaIsThere(u, report, catalog, mentions, i, e);
    }
    if e in Areas(u, report, catalog, mentions) {
      var k :| 0 <= k < |Areas(u, report, catalog, mentions)| && Areas(u, report, catalog, mentions)[k] == e;
      var i := AreasAreMeant(u, report, catalog, mentions, k);
      MeansIs(u, report, catalog, mentions[i], e);
    }
  }

  lemma InnermostIs(u: Unicode, report: Report, catalog: Catalog, mentions: seq<Mention>, e: Entity)
    ensures IsInnermost(u, report, catalog, mentions, e) <==> IsLowest(catalog, Areas(u, report, catalog, mentions), e)
  {
    forall other ensures IsMeant(u, report, catalog, mentions, other) <==> other in Areas(u, report, catalog, mentions) {
      MeantAreAreas(u, report, catalog, mentions, other);
    }
  }

  lemma ProposalIs(u: Unicode, report: Report, catalog: Catalog, scope: Scope, mentions: seq<Mention>, proposed: Option<Entity>)
    requires IsProposal(u, report, catalog, scope, mentions, proposed)
    ensures IsProposalFor(u, report, catalog, scope, mentions, proposed)
  {
    var areas := Areas(u, report, catalog, mentions);
    forall e ensures IsInnermost(u, report, catalog, mentions, e) <==> IsLowest(catalog, areas, e) { InnermostIs(u, report, catalog, mentions, e); }
    UnclearAre(u, report, catalog, mentions);
    if proposed.Some? {
      var k :| IsFirstLowest(catalog, areas, k) && areas[k] == proposed.value;
      FirstIs(u, report, catalog, mentions, k);
    }
    if e :| IsInnermost(u, report, catalog, mentions, e) && proposed.None? {
      LowestMakesChain(catalog, areas, e);
      assert areas != [];
    }
  }

  lemma UnclearAre(u: Unicode, report: Report, catalog: Catalog, mentions: seq<Mention>)
    ensures (forall i | 0 <= i < |mentions| :: !IsUnclear(u, report, catalog, mentions[i])) <==> !AnyUnknown(u, report, catalog, mentions)
  {
    forall i | 0 <= i < |mentions|
      ensures IsUnclear(u, report, catalog, mentions[i]) <==> PlaceOf(u, report, catalog, mentions[i]) == UnknownPlace
    {
      UnclearIs(u, report, catalog, mentions[i]);
    }
    if m :| m in mentions && PlaceOf(u, report, catalog, m) == UnknownPlace {
      var i :| 0 <= i < |mentions| && mentions[i] == m;
    }
  }

  lemma FirstIs(u: Unicode, report: Report, catalog: Catalog, mentions: seq<Mention>, k: int)
    requires IsFirstLowest(catalog, Areas(u, report, catalog, mentions), k)
    ensures exists i :: IsFirstInnermost(u, report, catalog, mentions, i, Areas(u, report, catalog, mentions)[k])
  {
    var areas := Areas(u, report, catalog, mentions);
    var i := AreasAreMeant(u, report, catalog, mentions, k);
    MeansIs(u, report, catalog, mentions[i], areas[k]);
    InnermostIs(u, report, catalog, mentions, areas[k]);
    forall j, other | 0 <= j < i && Means(u, report, catalog, mentions[j], other) ensures !IsInnermost(u, report, catalog, mentions, other) {
      MeansIs(u, report, catalog, mentions[j], other);
      InnermostIs(u, report, catalog, mentions, other);
      assert other in areas[..k];
      var l :| 0 <= l < k && areas[l] == other;
    }
    assert IsFirstInnermost(u, report, catalog, mentions, i, areas[k]);
  }
}
