/** Resolving the places a report mentions to one public area. */
module LocationResolve {
  import opened Rows
  import opened LocationCatalog
  import opened LocationEvidence

  datatype Scope = Single | Multiple | Route | UnknownScope | SourceProblem | InvalidScope
  datatype Role = Primary | OtherRole | InvalidRole
  datatype MentionKind = AreaKind | VenueKind | OtherKind | InvalidKind
  datatype Field = TitleField | BodyField | ContextField | InvalidField

  datatype Mention = Mention(name: string, kind: MentionKind, role: Role, source: Field, evidence: string)

  /** The report the evidence is taken from, with the heading of its section. */
  datatype Report = Report(title: string, body: string, context: string)

  datatype Outcome = Ambiguous | Withheld | SourceProblemFound | NoLocation | Confirmed | Corrected
  datatype Resolution = Invalid | Resolved(outcome: Outcome, proposed: Option<Entity>)

  const FESTIVAL := "Oktoberfest"
  const FESTIVAL_VENUES :=
    {"festzelt", "festzelts", "festgel\U{e4}nde", "festgel\U{e4}ndes", "wiesnzelt", "wiesnzelts", "wiesn-zelt", "wiesn-zelts"}
  const FESTIVAL_SECTIONS := {"Wiesnberichte", "Wiesn-Berichte"}

  // ----- what a mention is good for -----

  function TextOf(report: Report, source: Field): string {
    match source case TitleField => report.title case BodyField => report.body case _ => report.context
  }

  /** Within bounds, of a known role, kind and source, and grounded: the text contains the evidence and the
  evidence the name. */
  ghost predicate Valid(u: Unicode, report: Report, m: Mention) {
    && |u.key(m.name)| > 0 && u.size(m.name) <= 200 && |u.key(m.evidence)| > 0 && u.size(m.evidence) <= 1600
    && m.role != InvalidRole && m.kind != InvalidKind && m.source != InvalidField
    && (m.source == TitleField ==> Contains(u, report.title, m.evidence)) && (m.source == BodyField ==> Contains(u, report.body, m.evidence))
    && (m.source !in {TitleField, BodyField} ==> Contains(u, report.context, m.evidence)) && Contains(u, m.evidence, m.name)
  }

  ghost predicate AllValid(u: Unicode, report: Report, mentions: seq<Mention>, reason: string) {
    |mentions| <= 30 && u.size(reason) <= 1000 && EachValid(u, report, mentions)
  }

  ghost predicate EachValid(u: Unicode, report: Report, mentions: seq<Mention>) { forall m | m in mentions :: Valid(u, report, m) }

  /** Lookup: the entries with exactly this name or alias. */
  function Lookup(catalog: Catalog, key: string): (found: seq<Entity>)
    ensures forall e :: e in found <==> e in catalog && key in e.keys
  {
    if catalog == [] then []
    else (if key in catalog[0].keys then [catalog[0]] else []) + Lookup(catalog[1..], key)
  }

  function CandidatesFor(u: Unicode, report: Report, catalog: Catalog, m: Mention): seq<Entity> {
    var found := Lookup(catalog, u.key(m.name));
    if found == [] && u.key(m.name) in FESTIVAL_VENUES && m.kind == VenueKind && report.context in FESTIVAL_SECTIONS
    then Lookup(catalog, u.key(FESTIVAL)) else found
  }

  datatype Place = Irrelevant | UnknownPlace | At(entity: Entity)

  /** What one mention contributes: a venue stands for the area it is in. */
  function PlaceOf(u: Unicode, report: Report, catalog: Catalog, m: Mention): Place {
    var candidates := CandidatesFor(u, report, catalog, m);
    if m.role != Primary || m.kind in {OtherKind, InvalidKind} then Irrelevant
    else if |candidates| != 1 then (if m.kind == AreaKind || |candidates| > 1 then UnknownPlace else Irrelevant)
    else if candidates[0].kind != Venue then At(candidates[0])
    else match Find(catalog, candidates[0].parent)
      case None => UnknownPlace
      case Some(area) => At(area)
  }

  function Areas(u: Unicode, report: Report, catalog: Catalog, mentions: seq<Mention>): seq<Entity> {
    if mentions == [] then [] else
      var last := PlaceOf(u, report, catalog, mentions[|mentions| - 1]);
      Areas(u, report, catalog, mentions[..|mentions| - 1]) + if last.At? then [last.entity] else []
  }

  predicate AnyUnknown(u: Unicode, report: Report, catalog: Catalog, mentions: seq<Mention>) {
    exists m | m in mentions :: PlaceOf(u, report, catalog, m) == UnknownPlace
  }

  // ----- chains -----

  ghost predicate AtOrWithin(catalog: Catalog, upper: string, lower: string) {
    upper == lower || Within(catalog, upper, lower)
  }

  /** Of any two areas one is the other or lies within it. */
  ghost predicate IsChain(catalog: Catalog, areas: seq<Entity>) {
    forall a, b | a in areas && b in areas :: AtOrWithin(catalog, a.id, b.id) || AtOrWithin(catalog, b.id, a.id)
  }

  ghost predicate IsLowest(catalog: Catalog, areas: seq<Entity>, lowest: Entity) {
    lowest in areas && forall a | a in areas :: AtOrWithin(catalog, a.id, lowest.id)
  }

  /** Of several lowest areas, which lie within each other, the one that comes first. */
  ghost predicate IsFirstLowest(catalog: Catalog, areas: seq<Entity>, i: int) {
    0 <= i < |areas| && IsLowest(catalog, areas, areas[i]) && forall j | 0 <= j < i :: !IsLowest(catalog, areas, areas[j])
  }

  ghost predicate Selects(catalog: Catalog, areas: seq<Entity>, selected: Option<Entity>) {
    match selected
    case None => !IsChain(catalog, areas)
    case Some(e) => IsChain(catalog, areas) && exists i :: IsFirstLowest(catalog, areas, i) && areas[i] == e
  }

  lemma SelectionIsUnique(catalog: Catalog, areas: seq<Entity>, x: Option<Entity>, y: Option<Entity>)
    requires Selects(catalog, areas, x) && Selects(catalog, areas, y)
    ensures x == y
  {
    if x.Some? && y.Some? {
      var i :| IsFirstLowest(catalog, areas, i) && areas[i] == x.value;
      var j :| IsFirstLowest(catalog, areas, j) && areas[j] == y.value;
      assert i == j;
    }
  }

  lemma AtOrWithinIsTransitive(catalog: Catalog, a: string, b: string, c: string)
    requires AtOrWithin(catalog, a, b) && AtOrWithin(catalog, b, c)
    ensures AtOrWithin(catalog, a, c)
  {
    if a != b && b != c { WithinIsTransitive(catalog, a, b, c); }
  }

  /** An area that all others contain exists only in a chain: containers of one place are comparable. */
  lemma LowestMakesChain(catalog: Catalog, areas: seq<Entity>, lowest: Entity)
    requires IsLowest(catalog, areas, lowest)
    ensures IsChain(catalog, areas)
  {
    forall a, b | a in areas && b in areas ensures AtOrWithin(catalog, a.id, b.id) || AtOrWithin(catalog, b.id, a.id) {
      if a.id != lowest.id && b.id != lowest.id { ContainersAreComparable(catalog, a.id, b.id, lowest.id); }
    }
  }

  /** The selection loop: keep the lower of two comparable areas, give up at the first that is not comparable. */
  method SelectLowest(catalog: Catalog, areas: seq<Entity>) returns (selected: Option<Entity>)
    requires areas != []
    ensures Selects(catalog, areas, selected)
  {
    var lowest := areas[0];
    ghost var at := 0;
    for i := 1 to |areas|
      invariant IsFirstLowest(catalog, areas[..i], at) && areas[at] == lowest
    {
      var e := areas[i];
      assert areas[..i + 1] == areas[..i] + [e];
      var above := Ancestor(catalog, e.id, lowest.id);
      if e.id != lowest.id && !above {
        var below := Ancestor(catalog, lowest.id, e.id);
        if !below {
          assert e in areas && lowest in areas;
          return None;
        }
        Lower(catalog, areas[..i], lowest, e);
        lowest, at := e, i;
      } else {
        StaysLowest(catalog, areas[..i], at, e);
      }
    }
    assert areas[..|areas|] == areas;
    LowestMakesChain(catalog, areas, lowest);
    assert IsFirstLowest(catalog, areas, at);
    selected := Some(lowest);
  }

  lemma Lower(catalog: Catalog, areas: seq<Entity>, lowest: Entity, e: Entity)
    requires IsLowest(catalog, areas, lowest) && Within(catalog, lowest.id, e.id) && !AtOrWithin(catalog, e.id, lowest.id)
    ensures IsFirstLowest(catalog, areas + [e], |areas|)
  {
    var more := areas + [e];
    forall a | a in more ensures AtOrWithin(catalog, a.id, e.id) {
      if a in areas { AtOrWithinIsTransitive(catalog, a.id, lowest.id, e.id); }
    }
    forall j | 0 <= j < |areas| ensures !IsLowest(catalog, more, more[j]) {
      if AtOrWithin(catalog, e.id, more[j].id) {
        assert more[j] in areas;
        AtOrWithinIsTransitive(catalog, e.id, more[j].id, lowest.id);
      }
      assert e in more;
    }
  }

  lemma StaysLowest(catalog: Catalog, areas: seq<Entity>, at: int, e: Entity)
    requires IsFirstLowest(catalog, areas, at) && AtOrWithin(catalog, e.id, areas[at].id)
    ensures IsFirstLowest(catalog, areas + [e], at)
  {
    var more := areas + [e];
    forall j | 0 <= j < at ensures !IsLowest(catalog, more, more[j]) {
      assert more[j] == areas[j] && areas[j] in areas;
      var a :| a in areas && !AtOrWithin(catalog, a.id, areas[j].id);
      assert a in more;
    }
  }

  // ----- Resolve -----

  /** When a place is proposed, said of the mentions as a whole. */
  ghost predicate Proposes(u: Unicode, report: Report, catalog: Catalog, scope: Scope, mentions: seq<Mention>) {
    var areas := Areas(u, report, catalog, mentions);
    scope == Single && !AnyUnknown(u, report, catalog, mentions) && areas != [] && IsChain(catalog, areas)
  }

  ghost predicate IsProposal(u: Unicode, report: Report, catalog: Catalog, scope: Scope, mentions: seq<Mention>, proposed: Option<Entity>) {
    && (proposed.Some? <==> Proposes(u, report, catalog, scope, mentions))
    && (proposed.Some? ==> Selects(catalog, Areas(u, report, catalog, mentions), proposed))
  }

  lemma AreasGrow(u: Unicode, report: Report, catalog: Catalog, mentions: seq<Mention>, i: nat)
    requires i < |mentions|
    ensures Areas(u, report, catalog, mentions[..i + 1]) ==
            Areas(u, report, catalog, mentions[..i]) +
              var place := PlaceOf(u, report, catalog, mentions[i]); if place.At? then [place.entity] else []
    ensures AnyUnknown(u, report, catalog, mentions[..i + 1]) <==>
              AnyUnknown(u, report, catalog, mentions[..i]) || PlaceOf(u, report, catalog, mentions[i]) == UnknownPlace
    ensures EachValid(u, report, mentions[..i + 1]) <==> EachValid(u, report, mentions[..i]) && Valid(u, report, mentions[i])
    ensures !Valid(u, report, mentions[i]) ==> !EachValid(u, report, mentions)
  {
    assert mentions[..i + 1] == mentions[..i] + [mentions[i]];
  }

  method CheckMention(u: Unicode, report: Report, m: Mention) returns (valid: bool)
    requires KeysHaveEvidence(u)
    ensures valid == Valid(u, report, m)
  {
    if |u.key(m.name)| == 0 || u.size(m.name) > 200 || |u.key(m.evidence)| == 0 || u.size(m.evidence) > 1600 {
      return false;
    }
    if m.role == InvalidRole || m.kind == InvalidKind || m.source == InvalidField {
      return false;
    }
    var inText := ContainsName(u, TextOf(report, m.source), m.evidence);
    if !inText {
      return false;
    }
    valid := ContainsName(u, m.evidence, m.name);
  }

  /** What is not empty for the catalog is not empty for the search. */
  ghost predicate KeysHaveEvidence(u: Unicode) { forall s :: |u.key(s)| > 0 ==> |u.evidence(s)| > 0 }

  method CollectAreas(u: Unicode, report: Report, catalog: Catalog, mentions: seq<Mention>) returns (valid: bool, areas: seq<Entity>, unknown: bool)
    requires KeysHaveEvidence(u)
    ensures valid <==> EachValid(u, report, mentions)
    ensures valid ==> areas == Areas(u, report, catalog, mentions) && unknown == AnyUnknown(u, report, catalog, mentions)
  {
    areas, unknown := [], false;
    for i := 0 to |mentions|
      invariant EachValid(u, report, mentions[..i])
      invariant areas == Areas(u, report, catalog, mentions[..i])
      invariant unknown == AnyUnknown(u, report, catalog, mentions[..i])
    {
      AreasGrow(u, report, catalog, mentions, i);
      var ok := CheckMention(u, report, mentions[i]);
      if !ok {
        return false, areas, unknown;
      }
      var place := PlaceOf(u, report, catalog, mentions[i]);
      if place == UnknownPlace {
        unknown := true;
      } else if place.At? {
        areas := areas + [place.entity];
      }
    }
    assert mentions[..|mentions|] == mentions;
    valid := true;
  }

  method Resolve(u: Unicode, report: Report, catalog: Catalog, scope: Scope, mentions: seq<Mention>, reason: string,
                 originalName: string, originalType: string, withheld: bool) returns (r: Resolution)
    requires KeysHaveEvidence(u)
    ensures r.Invalid? <==> !withheld && (!AllValid(u, report, mentions, reason) || scope == InvalidScope)
    ensures r.Resolved? && withheld ==> r == Resolved(Withheld, None)
    ensures r.Resolved? && !withheld ==> IsProposal(u, report, catalog, scope, mentions, r.proposed) && r.outcome != Withheld
    ensures r.Resolved? && !withheld ==> (r.outcome == SourceProblemFound <==> scope == SourceProblem)
    ensures r.Resolved? && !withheld ==> (r.outcome == NoLocation <==> mentions == [] && scope in {Single, UnknownScope})
    ensures r.Resolved? ==> (r.outcome in {Confirmed, Corrected} <==> r.proposed.Some?)
    ensures r.Resolved? && r.proposed.Some? ==>
              (r.outcome == Confirmed <==> r.proposed.value.name == originalName && r.proposed.value.areaType == originalType)
  {
    if withheld {
      return Resolved(Withheld, None);
    }
    if |mentions| > 30 || u.size(reason) > 1000 || scope == InvalidScope {
      return Invalid;
    }
    var valid, areas, unknown := CollectAreas(u, report, catalog, mentions);
    if !valid {
      return Invalid;
    }
    if scope == SourceProblem {
      return Resolved(SourceProblemFound, None);
    }
    if scope == Multiple || scope == Route || unknown {
      assert mentions == [] ==> !AnyUnknown(u, report, catalog, mentions);
      return Resolved(Ambiguous, None);
    }
    if areas == [] {
      return Resolved(if mentions == [] then NoLocation else Ambiguous, None);
    }
    assert mentions != [];
    var selected := SelectLowest(catalog, areas);
    if selected.None? || scope != Single {
      return Resolved(Ambiguous, None);
    }
    var e := selected.value;
    r := Resolved(if e.name == originalName && e.areaType == originalType then Confirmed else Corrected, Some(e));
  }
}
