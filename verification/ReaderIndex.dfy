/** The materialised reader table, refreshed by conditional triggers on six tables.

A change is one inserted, updated or deleted row together with the columns an UPDATE names. Its trigger
fires only under its column list and WHEN condition, and refreshes only the incidents it selects. */
module ReaderIndex {
  import opened Rows
  import opened Presentation
  import opened ReaderProjection

  datatype Column = SourceDocumentId | ContentHash | ContextHash | PositionColumn | NumberColumn | PublishedAt | Status | CompletedAt
    | SourceHash | PipelineVersion | Legacy | IncidentId | PresentationRunId | ProcessorKey | ScopeKey | OtherColumn

  /** The row before (None for an insertion) and after (None for a deletion). Row IDs never change; the rows of the two value
  tables have no ID of their own and may move to another key. */
  datatype Change =
    | IncidentRow(id: int, oldIncident: Option<Incident>, newIncident: Option<Incident>, columns: set<Column>)
    | DocumentRow(id: int, oldDocument: Option<Document>, newDocument: Option<Document>, columns: set<Column>)
    | RunRow(id: int, oldRun: Option<Run>, newRun: Option<Run>, columns: set<Column>)
    | JobRow(id: int, oldJob: Option<Job>, newJob: Option<Job>, columns: set<Column>)
    | ValueRow(oldKey: Option<(int, string)>, newKey: Option<(int, string)>, value: string)
    | OutputRow(oldKey: Option<(int, string)>, newKey: Option<(int, string)>, output: Output)

  // ----- which changes the tables admit -----

  function Row<K, V>(rows: map<K, V>, key: K): Option<V> { if key in rows then Some(rows[key]) else None }

  function SetRow<K, V>(rows: map<K, V>, key: K, row: Option<V>): map<K, V> {
    match row case Some(value) => rows[key := value] case None => rows - {key}
  }

  function MoveRow<K, V>(rows: map<K, V>, from: Option<K>, to: Option<K>, value: V): map<K, V> {
    var kept := if from.Some? then rows - {from.value} else rows;
    if to.Some? then kept[to.value := value] else kept
  }

  /** The row to change exists and the new key is free. */
  predicate Movable<K(==), V>(rows: map<K, V>, from: Option<K>, to: Option<K>) {
    && (from.Some? ==> from.value in rows)
    && (to.Some? && to != from ==> to.value !in rows)
  }

  /** An update names every column it changes. */
  predicate Names(columns: set<Column>, column: Column, same: bool) { same || column in columns }

  predicate NamesIncident(a: Incident, b: Incident, columns: set<Column>) {
    && Names(columns, SourceDocumentId, a.document == b.document) && Names(columns, ContentHash, a.hash == b.hash)
    && Names(columns, ContextHash, a.context == b.context) && Names(columns, PositionColumn, a.position == b.position)
    && Names(columns, NumberColumn, a.number == b.number) && Names(columns, OtherColumn, a.rest == b.rest)
  }

  predicate NamesDocument(a: Document, b: Document, columns: set<Column>) {
    Names(columns, PublishedAt, a.published == b.published) && Names(columns, OtherColumn, a.rest == b.rest)
  }

  predicate NamesRun(a: Run, b: Run, columns: set<Column>) {
    && Names(columns, IncidentId, a.incident == b.incident) && Names(columns, SourceHash, a.hash == b.hash)
    && Names(columns, Status, a.complete == b.complete) && Names(columns, CompletedAt, a.completedAt == b.completedAt)
    && (a.current != b.current ==> PipelineVersion in columns || Legacy in columns)
  }

  predicate NamesJob(a: Job, b: Job, columns: set<Column>) {
    && Names(columns, PresentationRunId, a.run == b.run) && Names(columns, ProcessorKey, a.processor == b.processor)
    && Names(columns, ScopeKey, a.scope == b.scope) && Names(columns, Status, a.succeeded == b.succeeded)
    && Names(columns, CompletedAt, a.completedAt == b.completedAt) && Names(columns, OtherColumn, a.rest == b.rest)
  }

  predicate Valid(t: Tables, c: Change) {
    match c
    case IncidentRow(id, before, after, columns) =>
      before == Row(t.incidents, id) && (before.Some? && after.Some? ==> NamesIncident(before.value, after.value, columns))
    case DocumentRow(id, before, after, columns) =>
      before == Row(t.documents, id) && (before.Some? && after.Some? ==> NamesDocument(before.value, after.value, columns))
    case RunRow(id, before, after, columns) =>
      before == Row(t.runs, id) && (before.Some? && after.Some? ==> NamesRun(before.value, after.value, columns))
    case JobRow(id, before, after, columns) =>
      before == Row(t.jobs, id) && (before.Some? && after.Some? ==> NamesJob(before.value, after.value, columns))
    case ValueRow(from, to, _) => Movable(t.values, from, to)
    case OutputRow(from, to, _) => Movable(t.outputs, from, to)
  }

  function Changed(t: Tables, c: Change): Tables {
    match c
    case IncidentRow(id, _, after, _) => t.(incidents := SetRow(t.incidents, id, after))
    case DocumentRow(id, _, after, _) => t.(documents := SetRow(t.documents, id, after))
    case RunRow(id, _, after, _) => t.(runs := SetRow(t.runs, id, after))
    case JobRow(id, _, after, _) => t.(jobs := SetRow(t.jobs, id, after))
    case ValueRow(from, to, value) => t.(values := MoveRow(t.values, from, to, value))
    case OutputRow(from, to, output) => t.(outputs := MoveRow(t.outputs, from, to, output))
  }

  // ----- the triggers: when each fires, and which incidents it refreshes, all read after the change -----

  predicate Updates<T>(before: Option<T>, after: Option<T>) { before.Some? && after.Some? }

  function IncidentsOf(t: Tables, document: int): set<int> {
    set i | i in t.incidents && t.incidents[i].document == document
  }

  function IncidentOfRun(t: Tables, run: int): set<int> {
    if run in t.runs then {t.runs[run].incident} else {}
  }

  function IncidentOfJob(t: Tables, job: int): set<int> {
    if job in t.jobs then IncidentOfRun(t, t.jobs[job].run) else {}
  }

  predicate RunComplete(t: Tables, run: int) { run in t.runs && t.runs[run].complete }
  predicate JobSucceeded(t: Tables, job: int) { job in t.jobs && t.jobs[job].succeeded }

  function IncidentTrigger(id: int, before: Option<Incident>, after: Option<Incident>, columns: set<Column>): set<int> {
    if Updates(before, after) && columns !! {ContentHash, ContextHash, SourceDocumentId, PositionColumn, NumberColumn} then {} else {id}
  }

  function DocumentTrigger(t: Tables, id: int, before: Option<Document>, after: Option<Document>, columns: set<Column>): set<int> {
    if Updates(before, after) && (PublishedAt !in columns || before.value.published == after.value.published) then {}
    else IncidentsOf(t, id)
  }

  function RunTrigger(before: Option<Run>, after: Option<Run>, columns: set<Column>): set<int> {
    if Updates(before, after) then
      if columns !! {Status, CompletedAt, SourceHash, PipelineVersion, Legacy, IncidentId} || !(before.value.complete || after.value.complete)
      then {} else {before.value.incident, after.value.incident}
    else if after.Some? && after.value.complete then {after.value.incident}
    else if before.Some? && before.value.complete then {before.value.incident}
    else {}
  }

  function JobTrigger(t: Tables, before: Option<Job>, after: Option<Job>, columns: set<Column>): set<int> {
    if Updates(before, after) then
      if columns !! {Status, CompletedAt, PresentationRunId, ProcessorKey, ScopeKey} || !(before.value.succeeded || after.value.succeeded)
      then {} else IncidentOfRun(t, before.value.run) + IncidentOfRun(t, after.value.run)
    else if after.Some? && after.value.succeeded then IncidentOfRun(t, after.value.run)
    else if before.Some? && before.value.succeeded then IncidentOfRun(t, before.value.run)
    else {}
  }

  function ValueTrigger(t: Tables, from: Option<(int, string)>, to: Option<(int, string)>): set<int> {
    if (from.Some? && RunComplete(t, from.value.0)) || (to.Some? && RunComplete(t, to.value.0)) then
      (if from.Some? then IncidentOfRun(t, from.value.0) else {}) + (if to.Some? then IncidentOfRun(t, to.value.0) else {})
    else {}
  }

  function OutputTrigger(t: Tables, from: Option<(int, string)>, to: Option<(int, string)>): set<int> {
    if (from.Some? && JobSucceeded(t, from.value.0)) || (to.Some? && JobSucceeded(t, to.value.0)) then
      (if from.Some? then IncidentOfJob(t, from.value.0) else {}) + (if to.Some? then IncidentOfJob(t, to.value.0) else {})
    else {}
  }

  /** The incidents that the trigger of a change refreshes. */
  function Refreshed(t: Tables, c: Change): set<int> {
    match c
    case IncidentRow(id, before, after, columns) => IncidentTrigger(id, before, after, columns)
    case DocumentRow(id, before, after, columns) => DocumentTrigger(t, id, before, after, columns)
    case RunRow(_, before, after, columns) => RunTrigger(before, after, columns)
    case JobRow(_, before, after, columns) => JobTrigger(t, before, after, columns)
    case ValueRow(from, to, _) => ValueTrigger(t, from, to)
    case OutputRow(from, to, _) => OutputTrigger(t, from, to)
  }

  // ----- the frame: a change leaves the view of every other incident alone -----

  lemma IncidentFrame(t: Tables, c: Change, i: int)
    requires c.IncidentRow? && Valid(t, c) && i !in Refreshed(Changed(t, c), c)
    ensures SameView(t, Changed(t, c), i)
  {
  }

  lemma DocumentFrame(t: Tables, c: Change, i: int)
    requires c.DocumentRow? && Valid(t, c) && i !in Refreshed(Changed(t, c), c)
    ensures SameView(t, Changed(t, c), i)
  {
  }

  lemma RunFrame(t: Tables, c: Change, i: int)
    requires c.RunRow? && Valid(t, c) && i !in Refreshed(Changed(t, c), c)
    ensures SameView(t, Changed(t, c), i)
  {
    var s := Changed(t, c);
    if i in t.incidents {
      var hash := t.incidents[i].hash;
      forall r ensures CompleteRun(s.runs, r, i, hash) == CompleteRun(t.runs, r, i, hash)
      ensures CompleteRun(t.runs, r, i, hash) ==> s.runs[r].completedAt == t.runs[r].completedAt {}
      assert RunTimes(s.runs, i, hash) == RunTimes(t.runs, i, hash);
    }
  }

  lemma ValueFrame(t: Tables, c: Change, i: int)
    requires c.ValueRow? && Valid(t, c) && i !in Refreshed(Changed(t, c), c)
    ensures SameView(t, Changed(t, c), i)
  {
  }

  lemma JobFrame(t: Tables, c: Change, i: int)
    requires c.JobRow? && Valid(t, c) && i !in Refreshed(Changed(t, c), c)
    ensures SameView(t, Changed(t, c), i)
  {
  }

  lemma OutputFrame(t: Tables, c: Change, i: int)
    requires c.OutputRow? && Valid(t, c) && i !in Refreshed(Changed(t, c), c)
    ensures SameView(t, Changed(t, c), i)
  {
  }

  lemma Frame(t: Tables, c: Change, i: int)
    requires Valid(t, c) && i !in Refreshed(Changed(t, c), c)
    ensures SameView(t, Changed(t, c), i)
  {
    match c
    case IncidentRow(_, _, _, _) => IncidentFrame(t, c, i);
    case DocumentRow(_, _, _, _) => DocumentFrame(t, c, i);
    case RunRow(_, _, _, _) => RunFrame(t, c, i);
    case JobRow(_, _, _, _) => JobFrame(t, c, i);
    case ValueRow(_, _, _) => ValueFrame(t, c, i);
    case OutputRow(_, _, _) => OutputFrame(t, c, i);
  }

  // ----- the materialised table -----

  type Docs = map<(int, string), Doc>

  /** reader_documents holds exactly the rows of the view. */
  ghost predicate InSync(t: Tables, docs: Docs) {
    && (forall k | k in docs :: Project(t, k.0, k.1) == Some(docs[k]))
    && (forall i, language | Project(t, i, language).Some? :: (i, language) in docs)
  }

  function ViewKeys(t: Tables, ids: set<int>): set<(int, string)> {
    set i, language | i in ids && language in t.languages && Project(t, i, language).Some? :: (i, language)
  }

  /** The rows of the view for some incidents. */
  function ViewRows(t: Tables, ids: set<int>): Docs {
    map k | k in ViewKeys(t, ids) :: Project(t, k.0, k.1).value
  }

  function Without(docs: Docs, ids: set<int>): Docs {
    map k | k in docs && k.0 !in ids :: docs[k]
  }

  function Refresh(t: Tables, docs: Docs, ids: set<int>): Docs { Without(docs, ids) + ViewRows(t, ids) }

  lemma RefreshSyncs(t: Tables, s: Tables, docs: Docs, ids: set<int>)
    requires InSync(t, docs) && forall i, language | i !in ids :: Project(s, i, language) == Project(t, i, language)
    ensures InSync(s, Refresh(s, docs, ids))
  {
    var after := Refresh(s, docs, ids);
    forall i, language | Project(s, i, language).Some? ensures (i, language) in after {
      if i !in ids { assert Project(t, i, language).Some?; assert (i, language) in docs; } else { assert (i, language) in ViewKeys(s, ids); }
    }
    forall k | k in after ensures Project(s, k.0, k.1) == Some(after[k]) {
      if k.0 !in ids { assert k in docs; assert Project(t, k.0, k.1) == Some(docs[k]); } else { assert k in ViewRows(s, ids); }
    }
  }

  /** One row change and its trigger. */
  function Triggered(docs: Docs, t: Tables, c: Change): Docs {
    Refresh(Changed(t, c), docs, Refreshed(Changed(t, c), c))
  }

  lemma TriggerKeepsSync(t: Tables, docs: Docs, c: Change)
    requires Valid(t, c) && InSync(t, docs)
    ensures InSync(Changed(t, c), Triggered(docs, t, c))
  {
    var s := Changed(t, c);
    forall i, language | i !in Refreshed(s, c) ensures Project(s, i, language) == Project(t, i, language) {
      Frame(t, c, i);
      SameViewSameRows(t, s, i, language);
    }
    RefreshSyncs(t, s, docs, Refreshed(s, c));
  }

  class Index {
    var tables: Tables
    var documents: Docs

    constructor (tables: Tables, documents: Docs)
      ensures this.tables == tables && this.documents == documents
    {
      this.tables, this.documents := tables, documents;
    }

    /** The body of every trigger: delete the rows of some incidents and insert them again from the view. */
    method RefreshDocuments(ids: set<int>)
      modifies this`documents
      ensures documents == Refresh(tables, old(documents), ids)
    {
      documents := Without(documents, ids);
      documents := documents + ViewRows(tables, ids);
    }

    /** A row change and the trigger that fires after it. */
    method ChangeRow(c: Change)
      requires Valid(tables, c) && InSync(tables, documents)
      modifies this
      ensures tables == Changed(old(tables), c) && documents == Triggered(old(documents), old(tables), c)
      ensures InSync(tables, documents)
    {
      TriggerKeepsSync(tables, documents, c);
      tables := Changed(tables, c);
      RefreshDocuments(Refreshed(tables, c));
    }

    /** installReaderIndex after a changed definition: rebuild everything, whatever was there. */
    method Install()
      modifies this`documents
      ensures InSync(tables, documents)
    {
      documents := map[];
      documents := ViewRows(tables, tables.incidents.Keys);
      BackfillSyncs(tables);
    }
  }

  lemma BackfillSyncs(t: Tables)
    ensures InSync(t, ViewRows(t, t.incidents.Keys))
  {
    var docs := ViewRows(t, t.incidents.Keys);
    forall i, language | Project(t, i, language).Some? ensures (i, language) in docs {
      assert (i, language) in ViewKeys(t, t.incidents.Keys);
    }
  }

  // ----- every sequence of row changes -----

  ghost predicate AllValid(t: Tables, changes: seq<Change>)
    decreases |changes|
  {
    changes != [] ==> Valid(t, changes[0]) && AllValid(Changed(t, changes[0]), changes[1..])
  }

  function AfterAll(t: Tables, docs: Docs, changes: seq<Change>): (Tables, Docs)
    decreases |changes|
  {
    if changes == [] then (t, docs) else AfterAll(Changed(t, changes[0]), Triggered(docs, t, changes[0]), changes[1..])
  }

  /** From any installed index on, the table equals the view after every row of every sequence of changes. */
  lemma {:induction false} EveryChangeKeepsSync(t: Tables, docs: Docs, changes: seq<Change>)
    requires InSync(t, docs) && AllValid(t, changes)
    ensures var (s, after) := AfterAll(t, docs, changes); InSync(s, after)
    decreases |changes|
  {
    if changes != [] {
      TriggerKeepsSync(t, docs, changes[0]);
      EveryChangeKeepsSync(Changed(t, changes[0]), Triggered(docs, t, changes[0]), changes[1..]);
    }
  }

  lemma SyncedRow(t: Tables, a: Docs, b: Docs, i: int, language: string)
    requires InSync(t, a) && InSync(t, b) && (i, language) in a
    ensures (i, language) in b && b[(i, language)] == a[(i, language)]
  {
    assert Project(t, i, language) == Some(a[(i, language)]);
  }

  /** A table in step with the view is the only one: two installed indexes of the same tables are equal. */
  lemma SyncIsUnique(t: Tables, a: Docs, b: Docs)
    requires InSync(t, a) && InSync(t, b)
    ensures a == b
  {
    forall k | k in a ensures k in b && a[k] == b[k] { SyncedRow(t, a, b, k.0, k.1); }
    forall k | k in b ensures k in a { SyncedRow(t, b, a, k.0, k.1); }
  }
}
