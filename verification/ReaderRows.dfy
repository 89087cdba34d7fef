/** What a row of the reader view shows, column by column, said of the base tables. */
module ReaderRows {
  import opened Rows
  import opened Presentation
  import opened ReaderProjection

  /** A successful job of this run for this work, with all these outputs; a location check also has to be confirmed or
  corrected by this catalog, for the text and the context that the incident has now. */
  ghost predicate Counts(t: Tables, j: int, run: int, processor: string, scope: string, kinds: set<string>) {
    && j in t.jobs && t.jobs[j].succeeded && t.jobs[j].run == run && t.jobs[j].processor == processor && t.jobs[j].scope == scope
    && (forall kind | kind in kinds :: (j, kind) in t.outputs)
    && (processor == "location_verification" ==> IsCurrentCheck(t, j, run))
  }

  ghost predicate IsCurrentCheck(t: Tables, j: int, run: int) {
    && run in t.runs && t.runs[run].incident in t.incidents && (j, "location_assessment") in t.outputs
    && exists outcome | outcome in {"confirmed", "corrected"} ::
         var incident := t.incidents[t.runs[run].incident];
         t.outputs[(j, "location_assessment")] == Assessment(outcome, incident.hash, incident.context, "munich-areas-v1")
  }

  /** Of the jobs that count, the one that ended last; none if there is none. */
  ghost predicate IsLatestJob(t: Tables, run: int, processor: string, scope: string, kinds: set<string>, job: Option<int>) {
    match job
    case None => forall j :: !Counts(t, j, run, processor, scope, kinds)
    case Some(last) =>
      && Counts(t, last, run, processor, scope, kinds)
      && forall j | Counts(t, j, run, processor, scope, kinds) && j != last ::
           EndedBefore(t.jobs[j].completedAt, j, t.jobs[last].completedAt, last)
  }

  lemma SelectedCounts(t: Tables, j: int, run: int, processor: string, scope: string, kinds: set<string>)
    ensures Selected(t, j, run, processor, scope, kinds) <==> Counts(t, j, run, processor, scope, kinds)
  {
    if j in t.jobs && (j, "location_assessment") in t.outputs && t.outputs[(j, "location_assessment")].Assessment? {
      var outcome := t.outputs[(j, "location_assessment")].outcome;
      assert outcome in {"confirmed", "corrected"} <==> outcome == "confirmed" || outcome == "corrected";
    }
  }

  lemma LatestJobIsLatest(t: Tables, run: int, processor: string, scope: string, kinds: set<string>)
    ensures IsLatestJob(t, run, processor, scope, kinds, LatestJob(t, run, processor, scope, kinds))
  {
    forall j ensures Selected(t, j, run, processor, scope, kinds) <==> Counts(t, j, run, processor, scope, kinds) {
      SelectedCounts(t, j, run, processor, scope, kinds);
    }
  }

  // ----- the columns -----

  /** A field of the run's presentation, empty if it has none. */
  ghost predicate IsField(t: Tables, run: int, kind: string, text: string) {
    if (run, kind) in t.values then text == t.values[(run, kind)] else text == ""
  }

  /** A text among the outputs of a job that is there. */
  ghost predicate IsOutput(t: Tables, job: Option<int>, kind: string, text: string) {
    job.Some? && (job.value, kind) in t.outputs && t.outputs[(job.value, kind)] == Text(text)
  }

  /** The verified text if the last verification of this kind gives one, and the presentation's field if not. */
  ghost predicate IsVerified(t: Tables, run: int, processor: string, kinds: set<string>, kind: string, field: string, text: string) {
    exists job :: IsLatestJob(t, run, processor, "default", kinds, job) &&
      (if exists verified :: IsOutput(t, job, kind, verified) then IsOutput(t, job, kind, text) else IsField(t, run, field, text))
  }

  /** The proposed place of the last current location check, and the presentation's area if there is none. */
  ghost predicate IsArea(t: Tables, run: int, text: string) {
    exists job :: IsLatestJob(t, run, "location_verification", "default", {"location_assessment", "location_proposed"}, job) &&
      (if exists name :: job.Some? && t.outputs[(job.value, "location_proposed")] == Place(name)
       then t.outputs[(job.value, "location_proposed")] == Place(text) else IsField(t, run, "area_name", text))
  }

  /** In the canonical language the presentation's field, in another one the text of the last translation into it. */
  ghost predicate IsWording(t: Tables, run: int, language: string, kind: string, field: string, text: string) {
    if language == t.canonical then IsField(t, run, field, text)
    else exists job :: IsLatestJob(t, run, "translation", language, {"title", "summary"}, Some(job)) && IsTranslated(t, job, kind, text)
  }

  ghost predicate IsTranslated(t: Tables, job: int, kind: string, text: string) {
    (job, kind) in t.outputs && if t.outputs[(job, kind)].Text? then t.outputs[(job, kind)] == Text(text) else text == ""
  }

  ghost predicate IsRow(t: Tables, i: int, run: int, language: string, row: Doc)
    requires i in t.incidents && t.incidents[i].document in t.documents
  {
    && row.run == run
    && IsWording(t, run, language, "title", "title_de", row.title) && IsWording(t, run, language, "summary", "summary_de", row.summary)
    && IsArea(t, run, row.area)
    && IsVerified(t, run, "category_verification", {"is_correct", "corrected_category"}, "corrected_category", "category", row.category)
    && IsVerified(t, run, "public_assistance_verification",
                  {"is_correct", "corrected_public_assistance_status", "corrected_public_assistance_types"},
                  "corrected_public_assistance_status", "public_assistance_status", row.assistance)
    && IsField(t, run, "event_start_date", row.eventDate) && IsField(t, run, "event_start_time", row.eventTime)
    && IsField(t, run, "event_day_part", row.dayPart)
    && row.published == t.documents[t.incidents[i].document].published
    && row.position == t.incidents[i].position && row.number == t.incidents[i].number
    && (row.timeGroup == 0 <==> row.eventTime != "") && (row.timeGroup == 2 <==> row.eventTime == "" && row.dayPart == "")
    && row.timeGroup in {0, 1, 2}
    && IsFolded(row.title + " " + row.summary + " " + row.area + " " + row.number, row.searchText)
  }

  /** Capital letters became small ones, both Turkish letters i became one, and nothing else changed. */
  ghost predicate IsFolded(text: string, folded: string) {
    |folded| == |text| && forall k | 0 <= k < |text| ::
      if 'A' <= text[k] <= 'Z' then 'a' <= folded[k] <= 'z' && folded[k] - 'a' == text[k] - 'A'
      else folded[k] == if text[k] in {'\U{0130}', '\U{0131}'} then 'i' else text[k]
  }

  // ----- the rows -----

  lemma FieldShows(t: Tables, run: int, kind: string)
    ensures IsField(t, run, kind, Value(t, run, kind))
  {
  }

  lemma VerifiedShows(t: Tables, run: int, processor: string, kinds: set<string>, kind: string, field: string)
    ensures IsVerified(t, run, processor, kinds, kind, field, Corrected(t, run, LatestJob(t, run, processor, "default", kinds), kind, field))
  {
    var job := LatestJob(t, run, processor, "default", kinds);
    LatestJobIsLatest(t, run, processor, "default", kinds);
    FieldShows(t, run, field);
    match OutputText(t, job, kind)
    case Some(text) => assert IsOutput(t, job, kind, text);
    case None => assert forall text :: !IsOutput(t, job, kind, text);
  }

  lemma AreaShows(t: Tables, run: int)
    ensures IsArea(t, run, Area(t, run))
  {
    var kinds := {"location_assessment", "location_proposed"};
    assert kinds == {"location_proposed", "location_assessment"};
    var job := LatestJob(t, run, "location_verification", "default", kinds);
    LatestJobIsLatest(t, run, "location_verification", "default", kinds);
    FieldShows(t, run, "area_name");
    if job.Some? && t.outputs[(job.value, "location_proposed")].Place? {
      var place := t.outputs[(job.value, "location_proposed")];
      assert place == Place(place.name);
    }
  }

  lemma WordingShows(t: Tables, run: int, language: string, kind: string, field: string)
    requires kind in {"title", "summary"} && (language == t.canonical || Translation(t, run, language).Some?)
    ensures IsWording(t, run, language, kind, field, Wording(t, run, language, kind, field))
  {
    FieldShows(t, run, field);
    LatestJobIsLatest(t, run, "translation", language, {"title", "summary"});
    if language != t.canonical {
      var job := Translation(t, run, language).value;
      assert Counts(t, job, run, "translation", language, {"title", "summary"});
      assert IsTranslated(t, job, kind, Wording(t, run, language, kind, field));
    }
  }

  lemma DocShows(t: Tables, i: int, run: int, language: string)
    requires i in t.incidents && t.incidents[i].document in t.documents
    requires language == t.canonical || Translation(t, run, language).Some?
    ensures IsRow(t, i, run, language, DocOf(t, t.incidents[i], t.documents[t.incidents[i].document].published, run, language))
  {
    WordingShows(t, run, language, "title", "title_de");
    WordingShows(t, run, language, "summary", "summary_de");
    AreaShows(t, run);
    VerifiedShows(t, run, "category_verification", {"is_correct", "corrected_category"}, "corrected_category", "category");
    VerifiedShows(t, run, "public_assistance_verification",
                  {"is_correct", "corrected_public_assistance_status", "corrected_public_assistance_types"},
                  "corrected_public_assistance_status", "public_assistance_status");
    FieldShows(t, run, "event_start_date");
    FieldShows(t, run, "event_start_time");
    FieldShows(t, run, "event_day_part");
  }

  /** An incident has a row in a language exactly if it has a document and a complete current run for its text, and the
  language is the canonical one or that run has a translation into it. */
  ghost predicate HasRow(t: Tables, i: int, language: string) {
    && i in t.incidents && t.incidents[i].document in t.documents && language in t.languages
    && exists run :: IsReadersRun(t, i, run) &&
         (language == t.canonical || exists j :: Counts(t, j, run, "translation", language, {"title", "summary"}))
  }

  /** The run that readers see: of the complete current ones for the incident's text the one completed last. */
  ghost predicate IsReadersRun(t: Tables, i: int, run: int)
    requires i in t.incidents
  {
    && IsCandidate(t, i, run)
    && forall r | IsCandidate(t, i, r) && r != run :: EndedBefore(t.runs[r].completedAt, r, t.runs[run].completedAt, run)
  }

  ghost predicate IsCandidate(t: Tables, i: int, run: int)
    requires i in t.incidents
  {
    run in t.runs && t.runs[run].incident == i && t.runs[run].hash == t.incidents[i].hash && t.runs[run].complete && t.runs[run].current
  }

  lemma ReadersRun(t: Tables, i: int)
    requires i in t.incidents
    ensures var latest := LatestRun(t.runs, i, t.incidents[i].hash);
            && (latest.Some? ==> forall run :: IsReadersRun(t, i, run) <==> run == latest.value)
            && (latest.None? ==> forall run :: !IsReadersRun(t, i, run))
  {
    var latest := LatestRun(t.runs, i, t.incidents[i].hash);
    if latest.Some? {
      assert IsCandidate(t, i, latest.value);
      forall r | IsCandidate(t, i, r) && r != latest.value
        ensures EndedBefore(t.runs[r].completedAt, r, t.runs[latest.value].completedAt, latest.value)
      {
      }
      forall run | IsReadersRun(t, i, run) ensures run == latest.value {}
    }
  }

  /** The view has exactly the rows it should have, and each shows in every column what the base tables say. */
  lemma RowsAreExact(t: Tables, i: int, language: string)
    ensures Project(t, i, language).Some? <==> HasRow(t, i, language)
    ensures Project(t, i, language).Some? ==>
              exists run :: IsReadersRun(t, i, run) && IsRow(t, i, run, language, Project(t, i, language).value)
  {
    if i in t.incidents && t.incidents[i].document in t.documents && language in t.languages {
      ReadersRun(t, i);
      var latest := LatestRun(t.runs, i, t.incidents[i].hash);
      if latest.Some? {
        LatestJobIsLatest(t, latest.value, "translation", language, {"title", "summary"});
        assert IsReadersRun(t, i, latest.value);
        if Translation(t, latest.value, language).Some? {
          assert Counts(t, Translation(t, latest.value, language).value, latest.value, "translation", language, {"title", "summary"});
        }
        if language == t.canonical || Translation(t, latest.value, language).Some? { DocShows(t, i, latest.value, language); }
      }
    }
  }
}
