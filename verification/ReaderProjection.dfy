/** The reader view: what readers see of each incident, computed from the six base tables. */
module ReaderProjection {
  import opened Rows
  import opened Presentation

  /** A protected value: plain text, a location assessment or a proposed place, as the JSON texts decode. */
  datatype Output = Text(text: string) | Assessment(outcome: string, hash: Hash, context: Hash, version: string) | Place(name: string)

  /** `rest` stands for the columns the view does not read. `published` is the time with its Berlin date. */
  datatype Incident = Incident(document: int, hash: Hash, context: Hash, position: int, number: string, rest: string)
  datatype Stamp = Stamp(time: int, berlinDate: string)
  datatype Document = Document(published: Stamp, rest: string)
  datatype Job = Job(run: int, processor: string, scope: string, succeeded: bool, completedAt: Option<int>, rest: string)

  datatype Tables = Tables(languages: set<string>, canonical: string, incidents: map<int, Incident>, documents: map<int, Document>,
                           runs: map<int, Run>, values: map<(int, string), string>, jobs: map<int, Job>, outputs: map<(int, string), Output>)

  datatype Doc = Doc(run: int, title: string, summary: string, area: string, category: string, assistance: string,
                     eventDate: string, eventTime: string, dayPart: string, published: Stamp, position: int, number: string,
                     timeGroup: int, searchText: string)

  const CATALOG_VERSION := "munich-areas-v1"

  // ----- selection of jobs -----

  predicate Visible(t: Tables, j: int, run: int) {
    j in t.jobs && t.jobs[j].run == run && t.jobs[j].succeeded
  }

  /** locationResultEligibility: the assessment is for the source and context the incident has now. */
  predicate LocationEligible(t: Tables, j: int)
    requires j in t.jobs
  {
    && t.jobs[j].run in t.runs && t.runs[t.jobs[j].run].incident in t.incidents && (j, "location_assessment") in t.outputs
    && var (incident, output) := (t.incidents[t.runs[t.jobs[j].run].incident], t.outputs[(j, "location_assessment")]);
    && output.Assessment? && output.outcome in {"confirmed", "corrected"}
    && output.hash == incident.hash && output.context == incident.context && output.version == CATALOG_VERSION
  }

  predicate Selected(t: Tables, j: int, run: int, processor: string, scope: string, kinds: set<string>) {
    && Visible(t, j, run) && t.jobs[j].processor == processor && t.jobs[j].scope == scope
    && (processor == "location_verification" ==> LocationEligible(t, j))
    && (forall kind | kind in kinds :: (j, kind) in t.outputs)
  }

  function JobTimes(t: Tables, run: int, processor: string, scope: string, kinds: set<string>): map<int, Option<int>> {
    map j | j in t.jobs && Selected(t, j, run, processor, scope, kinds) :: t.jobs[j].completedAt
  }

  /** latestCompletePostProcessingJob: of the successful jobs for this run and scope with all these outputs the one
  completed last; a location check counts only while it is current. */
  function LatestJob(t: Tables, run: int, processor: string, scope: string, kinds: set<string>): (job: Option<int>)
    ensures job.Some? ==> Selected(t, job.value, run, processor, scope, kinds)
    ensures job.None? <==> !exists j :: j in t.jobs && Selected(t, j, run, processor, scope, kinds)
    ensures job.Some? ==> forall j | j in t.jobs && Selected(t, j, run, processor, scope, kinds) && j != job.value ::
              EndedBefore(t.jobs[j].completedAt, j, t.jobs[job.value].completedAt, job.value)
  {
    var times := JobTimes(t, run, processor, scope, kinds);
    assert forall j | j in t.jobs && Selected(t, j, run, processor, scope, kinds) :: j in times && times[j] == t.jobs[j].completedAt;
    Latest(times)
  }

  // ----- the columns -----

  function Value(t: Tables, run: int, kind: string): string {
    if (run, kind) in t.values then t.values[(run, kind)] else ""
  }

  function OutputText(t: Tables, job: Option<int>, kind: string): Option<string> {
    if job.Some? && (job.value, kind) in t.outputs && t.outputs[(job.value, kind)].Text?
    then Some(t.outputs[(job.value, kind)].text) else None
  }

  /** The verified value if there is one, else the canonical one. */
  function Corrected(t: Tables, run: int, job: Option<int>, kind: string, fallback: string): string {
    match OutputText(t, job, kind) case Some(text) => text case None => Value(t, run, fallback)
  }

  function Area(t: Tables, run: int): string {
    var job := LatestJob(t, run, "location_verification", "default", {"location_proposed", "location_assessment"});
    if job.Some? && t.outputs[(job.value, "location_proposed")].Place?
    then t.outputs[(job.value, "location_proposed")].name else Value(t, run, "area_name")
  }

  function Category(t: Tables, run: int): string {
    Corrected(t, run, LatestJob(t, run, "category_verification", "default", {"is_correct", "corrected_category"}), "corrected_category", "category")
  }

  function Assistance(t: Tables, run: int): string {
    var job := LatestJob(t, run, "public_assistance_verification", "default",
                         {"is_correct", "corrected_public_assistance_status", "corrected_public_assistance_types"});
    Corrected(t, run, job, "corrected_public_assistance_status", "public_assistance_status")
  }

  function Translation(t: Tables, run: int, language: string): Option<int> {
    LatestJob(t, run, "translation", language, {"title", "summary"})
  }

  /** Canonical columns come from the run, those of another language from its translation. */
  function Wording(t: Tables, run: int, language: string, translated: string, canonical: string): string {
    if language == t.canonical then Value(t, run, canonical)
    else match OutputText(t, Translation(t, run, language), translated) case Some(text) => text case None => ""
  }

  function TimeGroup(eventTime: string, dayPart: string): int {
    if eventTime != "" then 0 else if dayPart != "" then 1 else 2
  }

  /** Case folding of the ASCII letters and of the Turkish dotted and dotless I. */
  function FoldedChar(c: char): char {
    if c == '\U{0130}' || c == '\U{0131}' then 'i' else if 'A' <= c <= 'Z' then c - 'A' + 'a' else c
  }

  function Folded(text: string): (folded: string)
    ensures |folded| == |text|
  {
    seq(|text|, i requires 0 <= i < |text| => FoldedChar(text[i]))
  }

  function DocOf(t: Tables, incident: Incident, published: Stamp, run: int, language: string): Doc {
    var title, summary := Wording(t, run, language, "title", "title_de"), Wording(t, run, language, "summary", "summary_de");
    var eventTime, dayPart := Value(t, run, "event_start_time"), Value(t, run, "event_day_part");
    Doc(run, title, summary, Area(t, run), Category(t, run), Assistance(t, run), Value(t, run, "event_start_date"), eventTime, dayPart,
        published, incident.position, incident.number, TimeGroup(eventTime, dayPart),
        Folded(title + " " + summary + " " + Area(t, run) + " " + incident.number))
  }

  /** The row of the view for one incident and language, if it has one. */
  function Project(t: Tables, i: int, language: string): Option<Doc> {
    if i !in t.incidents || t.incidents[i].document !in t.documents || language !in t.languages then None
    else match LatestRun(t.runs, i, t.incidents[i].hash)
      case None => None
      case Some(run) =>
        if language != t.canonical && Translation(t, run, language).None? then None
        else Some(DocOf(t, t.incidents[i], t.documents[t.incidents[i].document].published, run, language))
  }

  // ----- what the rows of one incident depend on -----

  ghost predicate SameIncident(t: Tables, s: Tables, i: int) {
    && (i in t.incidents <==> i in s.incidents)
    && (i in t.incidents ==> s.incidents[i].(rest := "") == t.incidents[i].(rest := ""))
  }

  ghost predicate SameDocument(t: Tables, s: Tables, d: int) {
    && (d in t.documents <==> d in s.documents)
    && (d in t.documents ==> s.documents[d].published == t.documents[d].published)
  }

  ghost predicate SameValues(t: Tables, s: Tables, run: int) {
    forall kind: string :: ((run, kind) in t.values <==> (run, kind) in s.values) &&
                           ((run, kind) in t.values ==> s.values[(run, kind)] == t.values[(run, kind)])
  }

  ghost predicate SameOutputs(t: Tables, s: Tables, j: int) {
    forall kind: string :: ((j, kind) in t.outputs <==> (j, kind) in s.outputs) &&
                           ((j, kind) in t.outputs ==> s.outputs[(j, kind)] == t.outputs[(j, kind)])
  }

  ghost predicate SameJobs(t: Tables, s: Tables, run: int) {
    forall j :: (Visible(t, j, run) <==> Visible(s, j, run)) &&
                (Visible(t, j, run) ==> s.jobs[j].(rest := "") == t.jobs[j].(rest := "") && SameOutputs(t, s, j))
  }

  /** The two states agree on everything the rows of incident `i` are computed from. */
  ghost predicate SameView(t: Tables, s: Tables, i: int) {
    && s.languages == t.languages && s.canonical == t.canonical && SameIncident(t, s, i)
    && (i in t.incidents ==>
          && SameDocument(t, s, t.incidents[i].document)
          && RunTimes(s.runs, i, t.incidents[i].hash) == RunTimes(t.runs, i, t.incidents[i].hash)
          && (forall run | CompleteRun(t.runs, run, i, t.incidents[i].hash) :: SameValues(t, s, run) && SameJobs(t, s, run)))
  }

  /** The same, seen from a run of the incident. */
  ghost predicate SameRun(t: Tables, s: Tables, i: int, run: int) {
    && SameIncident(t, s, i) && SameValues(t, s, run) && SameJobs(t, s, run) && s.canonical == t.canonical
    && run in t.runs && run in s.runs && t.runs[run].incident == i && s.runs[run].incident == i
  }

  lemma SameJobTimes(t: Tables, s: Tables, i: int, run: int, processor: string, scope: string, kinds: set<string>)
    requires SameRun(t, s, i, run)
    ensures LatestJob(s, run, processor, scope, kinds) == LatestJob(t, run, processor, scope, kinds)
  {
    forall j ensures Selected(s, j, run, processor, scope, kinds) <==> Selected(t, j, run, processor, scope, kinds) {
      assert Visible(t, j, run) <==> Visible(s, j, run);
    }
    assert JobTimes(s, run, processor, scope, kinds) == JobTimes(t, run, processor, scope, kinds);
  }

  lemma SameOutput(t: Tables, s: Tables, i: int, run: int, processor: string, scope: string, kinds: set<string>, kind: string)
    requires SameRun(t, s, i, run)
    ensures var job := LatestJob(t, run, processor, scope, kinds);
            && LatestJob(s, run, processor, scope, kinds) == job
            && (job.Some? ==> ((job.value, kind) in s.outputs <==> (job.value, kind) in t.outputs))
            && (job.Some? && (job.value, kind) in t.outputs ==> s.outputs[(job.value, kind)] == t.outputs[(job.value, kind)])
            && OutputText(s, job, kind) == OutputText(t, job, kind)
  {
    SameJobTimes(t, s, i, run, processor, scope, kinds);
    var job := LatestJob(t, run, processor, scope, kinds);
    if job.Some? { assert Visible(t, job.value, run) && SameOutputs(t, s, job.value); }
  }

  lemma SameWording(t: Tables, s: Tables, i: int, run: int, language: string, translated: string, canonical: string)
    requires SameRun(t, s, i, run)
    ensures Wording(s, run, language, translated, canonical) == Wording(t, run, language, translated, canonical)
  {
    SameOutput(t, s, i, run, "translation", language, {"title", "summary"}, translated);
  }

  lemma SameArea(t: Tables, s: Tables, i: int, run: int)
    requires SameRun(t, s, i, run)
    ensures Area(s, run) == Area(t, run)
  {
    SameOutput(t, s, i, run, "location_verification", "default", {"location_proposed", "location_assessment"}, "location_proposed");
  }

  lemma SameCategory(t: Tables, s: Tables, i: int, run: int)
    requires SameRun(t, s, i, run)
    ensures Category(s, run) == Category(t, run)
  {
    SameOutput(t, s, i, run, "category_verification", "default", {"is_correct", "corrected_category"}, "corrected_category");
  }

  lemma SameAssistance(t: Tables, s: Tables, i: int, run: int)
    requires SameRun(t, s, i, run)
    ensures Assistance(s, run) == Assistance(t, run)
  {
    SameOutput(t, s, i, run, "public_assistance_verification", "default",
               {"is_correct", "corrected_public_assistance_status", "corrected_public_assistance_types"}, "corrected_public_assistance_status");
  }

  lemma SameDoc(t: Tables, s: Tables, i: int, incident: Incident, other: Incident, published: Stamp, run: int, language: string)
    requires SameRun(t, s, i, run) && other.position == incident.position && other.number == incident.number
    ensures DocOf(s, other, published, run, language) == DocOf(t, incident, published, run, language)
  {
    SameWording(t, s, i, run, language, "title", "title_de");
    SameWording(t, s, i, run, language, "summary", "summary_de");
    SameArea(t, s, i, run);
    SameCategory(t, s, i, run);
    SameAssistance(t, s, i, run);
  }

  lemma SameViewSameRows(t: Tables, s: Tables, i: int, language: string)
    requires SameView(t, s, i)
    ensures Project(s, i, language) == Project(t, i, language)
  {
    if i in t.incidents && t.incidents[i].document in t.documents {
      var run := LatestRun(t.runs, i, t.incidents[i].hash);
      if run.Some? {
        assert CompleteRun(s.runs, run.value, i, s.incidents[i].hash);
        SameJobTimes(t, s, i, run.value, "translation", language, {"title", "summary"});
        SameDoc(t, s, i, t.incidents[i], s.incidents[i], t.documents[t.incidents[i].document].published, run.value, language);
      }
    }
  }
}
