/** What each transaction of the post-processing queue does to the tables, said row by row. */
module PostProcessingEffects {
  import opened Rows
  import Text
  import Presentation
  import opened PostProcessingTables
  import opened PostProcessingSystem

  // ----- inputs -----

  ghost predicate HasText(text: string) { exists k :: 0 <= k < |text| && text[k] !in {' ', '\t', '\n', '\r'} }

  /** The run's text is the one that its incident has now. */
  ghost predicate IsOfCurrentText(w: World, run: int, incident: Incident) {
    run in w.runs && w.runs[run].incident in w.incidents && w.incidents[w.runs[run].incident] == incident && incident.hash == w.runs[run].hash
  }

  ghost predicate HasCurrentText(w: World, run: int) { exists incident :: IsOfCurrentText(w, run, incident) }

  /** A field of the run's presentation, empty if it has none. */
  ghost predicate IsField(w: World, run: int, kind: string, text: string) {
    if (run, kind) in w.values then text == w.values[(run, kind)] else text == ""
  }

  /** The value of an input kind: four kinds come from the incident and only while its text is current. */
  ghost predicate IsInput(w: World, run: int, kind: string, text: string) {
    if kind !in {"original_title", "incident_body", "location_source", "location_original"} then IsField(w, run, kind, text)
    else if !HasCurrentText(w, run) then text == ""
    else exists incident :: IsOfCurrentText(w, run, incident) && IsSource(w, run, incident, kind, text)
  }

  ghost predicate IsSource(w: World, run: int, incident: Incident, kind: string, text: string) {
    && (kind == "original_title" ==> text == incident.title) && (kind == "incident_body" ==> text == incident.body)
    && (kind == "location_source" ==> text == incident.location) && (kind == "location_original" ==> IsOriginalPlace(w, run, text))
  }

  /** The place that the presentation names. */
  ghost predicate IsOriginalPlace(w: World, run: int, text: string) {
    exists name, areaType ::
      IsField(w, run, "area_name", name) && IsField(w, run, "area_type", areaType) && text == "{\"name\":\"" + name + "\",\"type\":\"" + areaType + "\"}"
  }

  ghost predicate AreInputs(w: World, run: int, kinds: seq<string>, parts: seq<(string, string)>) {
    |parts| == |kinds| && forall i | 0 <= i < |kinds| :: parts[i].0 == kinds[i] && IsInput(w, run, kinds[i], parts[i].1)
  }

  /** The first kind whose value has no text. */
  ghost predicate IsFirstMissing(w: World, run: int, kinds: seq<string>, kind: string) {
    exists i :: IsMissingAt(w, run, kinds, i) && kinds[i] == kind && forall k | 0 <= k < i :: !IsMissingAt(w, run, kinds, k)
  }

  ghost predicate IsMissingAt(w: World, run: int, kinds: seq<string>, i: int) {
    0 <= i < |kinds| && forall text | IsInput(w, run, kinds[i], text) :: !HasText(text)
  }

  ghost predicate NothingMissing(w: World, run: int, kinds: seq<string>) { forall i :: !IsMissingAt(w, run, kinds, i) }

  /** The adapter of a plan or job; none means structured output. */
  ghost predicate IsAdapter(given: string, adapter: string) {
    if HasText(given) then adapter == given else adapter == "structured"
  }

  lemma BlankHasNoText(text: string)
    ensures Text.Blank(text) <==> !HasText(text)
  {
  }

  lemma CurrentTextMatches(w: World, run: int)
    ensures HasCurrentText(w, run) <==> Matches(w, run)
  {
    if Matches(w, run) { assert IsOfCurrentText(w, run, w.incidents[w.runs[run].incident]); }
  }

  lemma OriginalIs(w: World, run: int, text: string)
    ensures IsOriginalPlace(w, run, text) <==> text == LocationOriginal(w, run)
  {
    assert IsField(w, run, "area_name", ValueOf(w, run, "area_name")) && IsField(w, run, "area_type", ValueOf(w, run, "area_type"));
  }

  lemma InputIs(w: World, run: int, kind: string, text: string)
    ensures IsInput(w, run, kind, text) <==> text == InputValue(w, run, kind)
  {
    CurrentTextMatches(w, run);
    OriginalIs(w, run, text);
    if Matches(w, run) { assert IsOfCurrentText(w, run, w.incidents[w.runs[run].incident]); }
  }

  lemma MissingIs(w: World, run: int, kinds: seq<string>, i: int)
    ensures IsMissingAt(w, run, kinds, i) <==> 0 <= i < |kinds| && Text.Blank(InputValue(w, run, kinds[i]))
  {
    if 0 <= i < |kinds| {
      InputIs(w, run, kinds[i], InputValue(w, run, kinds[i]));
      forall text | IsInput(w, run, kinds[i], text) ensures text == InputValue(w, run, kinds[i]) { InputIs(w, run, kinds[i], text); }
      BlankHasNoText(InputValue(w, run, kinds[i]));
    }
  }

  lemma PartsAre(w: World, run: int, kinds: seq<string>)
    ensures AreInputs(w, run, kinds, Parts(w, run, kinds))
  {
    forall i | 0 <= i < |kinds| ensures IsInput(w, run, kinds[i], Parts(w, run, kinds)[i].1) {
      InputIs(w, run, kinds[i], Parts(w, run, kinds)[i].1);
    }
  }

  lemma {:induction false} UnavailableIs(w: World, run: int, kinds: seq<string>)
    ensures match Unavailable(w, run, kinds)
            case None => NothingMissing(w, run, kinds)
            case Some(kind) => IsFirstMissing(w, run, kinds, kind) && !NothingMissing(w, run, kinds)
  {
    var i := FirstMissing(w, run, kinds);
    forall k ensures IsMissingAt(w, run, kinds, k) <==> 0 <= k < |kinds| && Text.Blank(InputValue(w, run, kinds[k])) {
      MissingIs(w, run, kinds, k);
    }
  }

  lemma {:induction false} FirstMissing(w: World, run: int, kinds: seq<string>) returns (i: nat)
    ensures i <= |kinds| && forall k | 0 <= k < i :: !Text.Blank(InputValue(w, run, kinds[k]))
    ensures i == |kinds| <==> Unavailable(w, run, kinds).None?
    ensures i < |kinds| ==> Text.Blank(InputValue(w, run, kinds[i])) && Unavailable(w, run, kinds) == Some(kinds[i])
    decreases |kinds|
  {
    if kinds == [] {
      i := 0;
    } else if Text.Blank(InputValue(w, run, kinds[0])) {
      i := 0;
    } else {
      var rest := FirstMissing(w, run, kinds[1..]);
      i := rest + 1;
      forall k | 0 <= k < i ensures !Text.Blank(InputValue(w, run, kinds[k])) { if k > 0 { assert kinds[k] == kinds[1..][k - 1]; } }
    }
  }

  // ----- completing -----

  /** Exactly the declared kinds, each once and each with a text. */
  ghost predicate AreDeclared(outputs: seq<(string, string)>, declared: seq<string>) {
    && |outputs| == |declared| > 0
    && (forall i, j | 0 <= i < j < |outputs| :: outputs[i].0 != outputs[j].0)
    && (forall kind :: kind in declared <==> exists i :: 0 <= i < |outputs| && outputs[i].0 == kind)
    && (forall i | 0 <= i < |outputs| :: HasText(outputs[i].0) && HasText(outputs[i].1))
  }

  /** A location check whose run, source or place is no longer the one it was given. */
  ghost predicate IsOutdated(w: World, c: Carried) {
    c.processor == "location_verification" &&
    !exists incident :: IsOfCurrentText(w, c.run, incident) && incident.location == c.source && IsOriginalPlace(w, c.run, c.original) &&
      Presentation.LatestRun(w.runs, w.runs[c.run].incident, incident.hash) == Some(c.run)
  }

  ghost predicate IsRunningJob(q: Queue, id: int) { id in q.jobs && q.jobs[id].status == Running }

  /** What is claimed and returned as declared. */
  ghost predicate IsProperResult(c: Carried, outputs: seq<(string, string)>, model: string, input: Input) {
    AreDeclared(outputs, c.outputs) && HasText(model) && input == c.input
  }

  ghost predicate HasOutput(q: Queue, c: Carried, outputs: seq<(string, string)>) {
    exists i :: 0 <= i < |outputs| && (c.id, outputs[i].0) in q.outputs
  }

  /** A proper result of a running job is stored, value by value, with the job succeeded; a result that comes too late for
  a location check ends the check, and every other one changes nothing. */
  ghost predicate IsCompletion(q: Queue, c: Carried, outputs: seq<(string, string)>, model: string, input: Input, after: Queue, outcome: Outcome) {
    && after.world == q.world && after.next == q.next
    && (outcome.Stored? <==> IsProperResult(c, outputs, model, input) && !IsOutdated(q.world, c) && IsRunningJob(q, c.id) && !HasOutput(q, c, outputs))
    && (outcome.NotRunning? <==>
          && IsProperResult(c, outputs, model, input)
          && (IsOutdated(q.world, c) || (c.id in q.jobs && !IsRunningJob(q, c.id) && !HasOutput(q, c, outputs))))
    && (outcome.Stored? ==> AreStored(q.outputs, c.id, outputs, after.outputs) && IsSucceeded(q, c.id, model, input, after))
    && (!outcome.Stored? ==> after.outputs == q.outputs)
    && var late := IsProperResult(c, outputs, model, input) && IsOutdated(q.world, c) && IsRunningJob(q, c.id);
       (!outcome.Stored? ==> after.jobs == if late then q.jobs[c.id := q.jobs[c.id].(status := Superseded)] else q.jobs)
  }

  /** Each value stands under its job and kind, and every other row is as it was. */
  ghost predicate AreStored(before: map<(int, string), string>, id: int, outputs: seq<(string, string)>, after: map<(int, string), string>) {
    && (forall i | 0 <= i < |outputs| :: (id, outputs[i].0) in after && after[(id, outputs[i].0)] == outputs[i].1)
    && (forall row | row in before :: row in after && after[row] == before[row])
    && (forall row | row in after && row !in before :: row.0 == id && exists i :: 0 <= i < |outputs| && outputs[i].0 == row.1)
  }

  ghost predicate IsSucceeded(q: Queue, id: int, model: string, input: Input, after: Queue) {
    && id in q.jobs && after.jobs.Keys == q.jobs.Keys
    && after.jobs[id] == q.jobs[id].(status := Succeeded, model := model, input := input)
    && forall j | j in q.jobs && j != id :: after.jobs[j] == q.jobs[j]
  }

  lemma OutdatedIs(w: World, c: Carried)
    ensures IsOutdated(w, c) <==> c.processor == "location_verification" && LocationOutdated(w, c)
  {
    CurrentTextMatches(w, c.run);
    OriginalIs(w, c.run, c.original);
    if Matches(w, c.run) { assert IsOfCurrentText(w, c.run, w.incidents[w.runs[c.run].incident]); }
  }

  /** As many different kinds as are declared, all of them declared: then every declared one is there. */
  lemma DeclaredArePresent(outputs: seq<(string, string)>, declared: seq<string>)
    requires |outputs| == |declared| && (forall i, j | 0 <= i < j < |outputs| :: outputs[i].0 != outputs[j].0)
    requires forall i | 0 <= i < |outputs| :: outputs[i].0 in declared
    ensures forall kind | kind in declared :: exists i :: 0 <= i < |outputs| && outputs[i].0 == kind
  {
    var kinds := KindsOf(outputs);
    var there, here := set k | k in declared, set k | k in kinds;
    DistinctSize(kinds);
    SizeAtMost(declared);
    assert here <= there;
    if exists kind :: kind in declared && kind !in kinds {
      var kind :| kind in declared && kind !in kinds;
      SubsetSize(here, there - {kind});
    }
    forall kind | kind in declared ensures exists i :: 0 <= i < |outputs| && outputs[i].0 == kind {
      var i :| 0 <= i < |kinds| && kinds[i] == kind;
      assert outputs[i].0 == kind;
    }
  }

  function KindsOf(outputs: seq<(string, string)>): (kinds: seq<string>)
    ensures |kinds| == |outputs| && forall i | 0 <= i < |kinds| :: kinds[i] == outputs[i].0
  {
    seq(|outputs|, i requires 0 <= i < |outputs| => outputs[i].0)
  }

  lemma {:induction false} DistinctSize(s: seq<string>)
    requires forall i, j | 0 <= i < j < |s| :: s[i] != s[j]
    ensures |set k | k in s| == |s|
  {
    if s != [] {
      DistinctSize(s[1..]);
      assert (set k | k in s) == {s[0]} + set k | k in s[1..];
    }
  }

  lemma {:induction false} SizeAtMost(s: seq<string>)
    ensures |set k | k in s| <= |s|
    ensures |set k | k in s| == |s| ==> forall i, j | 0 <= i < j < |s| :: s[i] != s[j]
  {
    if s != [] {
      SizeAtMost(s[1..]);
      assert (set k | k in s) == {s[0]} + set k | k in s[1..];
      if |set k | k in s| == |s| { assert s[0] !in s[1..]; }
    }
  }

  lemma {:induction false} SubsetSize(a: set<string>, b: set<string>)
    requires a <= b
    ensures |a| <= |b|
    decreases a
  {
    if a != {} {
      var x := Member(a);
      SubsetSize(a - {x}, b - {x});
    }
  }

  lemma DeclaredAre(outputs: seq<(string, string)>, declared: seq<string>)
    ensures AreDeclared(outputs, declared) <==> ValidOutputs(outputs, declared)
  {
    BlanksHaveNoText();
    if ValidOutputs(outputs, declared) {
      DeclaredArePresent(outputs, declared);
    }
    if AreDeclared(outputs, declared) {
      DeclaredAreDistinct(outputs, declared);
      forall kind | kind in declared ensures !Text.Blank(kind) {
        var i :| 0 <= i < |outputs| && outputs[i].0 == kind;
      }
    }
  }

  lemma BlanksHaveNoText()
    ensures forall text :: Text.Blank(text) <==> !HasText(text)
  {
    forall text ensures Text.Blank(text) <==> !HasText(text) { BlankHasNoText(text); }
  }

  lemma DeclaredAreDistinct(outputs: seq<(string, string)>, declared: seq<string>)
    requires AreDeclared(outputs, declared)
    ensures forall i, j | 0 <= i < j < |declared| :: declared[i] != declared[j]
  {
    var kinds := KindsOf(outputs);
    DistinctSize(kinds);
    assert (set k | k in kinds) == set k | k in declared by {
      forall k ensures k in kinds <==> k in declared {
        if k in kinds { var i :| 0 <= i < |kinds| && kinds[i] == k; assert outputs[i].0 == k; }
        if k in declared { var i :| 0 <= i < |outputs| && outputs[i].0 == k; assert kinds[i] == k; }
      }
    }
    SizeAtMost(declared);
  }

  lemma {:induction false} StoredAre(before: map<(int, string), string>, id: int, outputs: seq<(string, string)>)
    requires forall i, j | 0 <= i < j < |outputs| :: outputs[i].0 != outputs[j].0
    requires forall i | 0 <= i < |outputs| :: (id, outputs[i].0) !in before
    ensures AreStored(before, id, outputs, StoreOutputs(before, id, outputs))
    decreases |outputs|
  {
    if outputs != [] {
      var first, rest := outputs[0], outputs[1..];
      StoredAre(before[(id, first.0) := first.1], id, rest);
      StoredFirst(before, id, outputs, StoreOutputs(before, id, outputs));
    }
  }

  lemma StoredFirst(before: map<(int, string), string>, id: int, outputs: seq<(string, string)>, after: map<(int, string), string>)
    requires outputs != [] && (id, outputs[0].0) !in before
    requires AreStored(before[(id, outputs[0].0) := outputs[0].1], id, outputs[1..], after)
    ensures AreStored(before, id, outputs, after)
  {
    var more := before[(id, outputs[0].0) := outputs[0].1];
    assert (id, outputs[0].0) in more;
    forall i | 0 <= i < |outputs| ensures (id, outputs[i].0) in after && after[(id, outputs[i].0)] == outputs[i].1 {
      if i > 0 { assert outputs[1..][i - 1] == outputs[i]; }
    }
    forall row | row in after && row !in before ensures row.0 == id && exists i :: 0 <= i < |outputs| && outputs[i].0 == row.1 {
      if row !in more {
        var i :| 0 <= i < |outputs[1..]| && outputs[1..][i].0 == row.1;
        assert outputs[i + 1].0 == row.1;
      } else {
        assert row == (id, outputs[0].0);
      }
    }
  }

  lemma CompletionIs(q: Queue, c: Carried, outputs: seq<(string, string)>, model: string, input: Input)
    ensures var (after, outcome) := CompletePostProcessingJob(q, c, outputs, model, input);
            IsCompletion(q, c, outputs, model, input, after, outcome)
  {
    DeclaredAre(outputs, c.outputs);
    BlankHasNoText(model);
    OutdatedIs(q.world, c);
    assert HasOutput(q, c, outputs) <==> exists v | v in outputs :: (c.id, v.0) in q.outputs;
    if CompletePostProcessingJob(q, c, outputs, model, input).1.Stored? {
      StoredAre(q.outputs, c.id, outputs);
    }
  }

  // ----- queueing -----

  ghost predicate IsProperPlan(plan: Plan) {
    && HasText(plan.processor) && HasText(plan.scope) && HasText(plan.prompt) && HasText(plan.model) && |plan.inputs| > 0
    && (forall i | 0 <= i < |plan.inputs| :: HasText(plan.inputs[i]))
    && (forall i, j | 0 <= i < j < |plan.inputs| :: plan.inputs[i] != plan.inputs[j])
  }

  ghost predicate ReadsIncident(plan: Plan) {
    exists i :: 0 <= i < |plan.inputs| && plan.inputs[i] in {"original_title", "incident_body", "location_source", "location_original"}
  }

  /** A pending job for the same work on an earlier presentation of the same text. */
  ghost predicate IsReplaced(q: Queue, run: int, plan: Plan, j: int) {
    && j in q.jobs && q.jobs[j].status == Pending && q.jobs[j].processor == plan.processor && q.jobs[j].scope == plan.scope
    && q.jobs[j].run != run && run in q.world.runs && q.jobs[j].run in q.world.runs && q.world.runs[q.jobs[j].run].current
    && q.world.runs[q.jobs[j].run].incident == q.world.runs[run].incident && q.world.runs[q.jobs[j].run].hash == q.world.runs[run].hash
  }

  /** The input of the plan as it is now. */
  ghost predicate IsPlanInput(w: World, run: int, plan: Plan, input: Input) {
    && input.processor == plan.processor && input.scope == plan.scope && input.prompt == plan.prompt && input.model == plan.model
    && IsAdapter(plan.adapter, input.adapter) && AreInputs(w, run, plan.inputs, input.parts)
  }

  /** Work that is open; or, unless the request is forced, work that succeeded, and work that ended without success for
  the very same input. */
  ghost predicate IsEnough(job: Job, run: int, plan: Plan, input: Input, force: bool) {
    && job.run == run && job.processor == plan.processor && job.scope == plan.scope
    && (job.status in {Pending, Running} ||
        (!force && (job.status == Succeeded || (job.input == input && (job.status in {NeedsReview, Failed} || IsSkippedForInput(job))))))
  }

  ghost predicate IsSkippedForInput(job: Job) { job.status == Skipped && exists kind :: job.reason == MissingInput(kind) }

  /** The new job: pending, or skipped at once for the first input that is missing. */
  ghost predicate IsNewJob(w: World, run: int, plan: Plan, kind: Kind, now: int, job: Job) {
    && job.run == run && job.processor == plan.processor && job.scope == plan.scope && job.kind == kind
    && job.model == plan.model && IsAdapter(plan.adapter, job.adapter) && job.prompt == plan.prompt && IsPlanInput(w, run, plan, job.input)
    && job.attempts == 0 && job.retryAt == None && job.createdAt == now
    && (if NothingMissing(w, run, plan.inputs) then job.status == Pending && job.reason == NoReason
        else job.status == Skipped && exists missing :: job.reason == MissingInput(missing) && IsFirstMissing(w, run, plan.inputs, missing))
  }

  ghost predicate IsThereEnough(q: Queue, run: int, plan: Plan, force: bool) {
    exists j, input :: j in q.jobs && IsPlanInput(q.world, run, plan, input) && IsEnough(q.jobs[j], run, plan, input, force)
  }

  /** A request is refused for a bad plan and for a text that was replaced. Otherwise it supersedes the pending jobs for
  earlier presentations, and adds one job unless there is enough work for this one. */
  ghost predicate IsQueued(q: Queue, run: int, plan: Plan, kind: Kind, force: bool, now: int, after: Queue, queued: bool) {
    if !IsProperPlan(plan) || (ReadsIncident(plan) && !HasCurrentText(q.world, run)) then after == q && !queued
    else IsAdded(q, run, plan, kind, now, !IsThereEnough(q, run, plan, force), after, queued)
  }

  ghost predicate IsAdded(q: Queue, run: int, plan: Plan, kind: Kind, now: int, added: bool, after: Queue, queued: bool) {
    && after.world == q.world && after.outputs == q.outputs && after.next == (if added then q.next + 1 else q.next)
    && (queued <==> added && NothingMissing(q.world, run, plan.inputs))
    && (forall j | j in q.jobs && !(added && j == q.next) :: j in after.jobs &&
          after.jobs[j] == if IsReplaced(q, run, plan, j) then q.jobs[j].(status := Superseded) else q.jobs[j])
    && (forall j | j in after.jobs :: j in q.jobs || (added && j == q.next))
    && (added ==> q.next in after.jobs && IsNewJob(q.world, run, plan, kind, now, after.jobs[q.next]))
  }

  lemma AdapterIs(given: string)
    ensures IsAdapter(given, Normalized(given))
  {
    BlankHasNoText(given);
  }

  lemma PlanInputIs(w: World, run: int, plan: Plan, input: Input)
    ensures IsPlanInput(w, run, plan, input) <==> input == PlanInput(w, run, plan)
  {
    AdapterIs(plan.adapter);
    PartsAre(w, run, plan.inputs);
    if IsPlanInput(w, run, plan, input) {
      forall i | 0 <= i < |plan.inputs| ensures input.parts[i] == Parts(w, run, plan.inputs)[i] {
        InputIs(w, run, plan.inputs[i], input.parts[i].1);
      }
      assert input.parts == Parts(w, run, plan.inputs);
    }
  }

  lemma PlanIs(plan: Plan)
    ensures IsProperPlan(plan) <==> ValidPlan(plan)
  {
    BlanksHaveNoText();
  }

  lemma ReadsIs(plan: Plan)
    ensures ReadsIncident(plan) <==> NeedsSource(plan)
  {
    if NeedsSource(plan) {
      var kind :| kind in plan.inputs && SourceKind(kind);
      var i :| 0 <= i < |plan.inputs| && plan.inputs[i] == kind;
    }
    if i :| 0 <= i < |plan.inputs| && plan.inputs[i] in {"original_title", "incident_body", "location_source", "location_original"} {
      assert plan.inputs[i] in plan.inputs && SourceKind(plan.inputs[i]);
    }
  }

  lemma NewJobIs(w: World, run: int, plan: Plan, kind: Kind, now: int)
    ensures IsNewJob(w, run, plan, kind, now, NewJob(run, plan, kind, PlanInput(w, run, plan), Unavailable(w, run, plan.inputs), now))
  {
    AdapterIs(plan.adapter);
    PlanInputIs(w, run, plan, PlanInput(w, run, plan));
    UnavailableIs(w, run, plan.inputs);
  }

  lemma EnoughIs(q: Queue, older: map<int, Job>, run: int, plan: Plan, force: bool)
    requires older == SupersedeOlder(q, run, plan.processor, plan.scope)
    ensures Satisfied(older, run, plan, PlanInput(q.world, run, plan), force) <==> IsThereEnough(q, run, plan, force)
  {
    var input := PlanInput(q.world, run, plan);
    PlanInputIs(q.world, run, plan, input);
    forall other: Input ensures IsPlanInput(q.world, run, plan, other) <==> other == input { PlanInputIs(q.world, run, plan, other); }
    forall j | j in q.jobs && q.jobs[j].run == run ensures older[j] == q.jobs[j] {}
    if Satisfied(older, run, plan, input, force) {
      var j :| j in older && For(older[j], run, plan.processor, plan.scope) &&
        (Active(older[j].status) || (!force && (older[j].status == Succeeded || (older[j].input == input &&
          (older[j].status == NeedsReview || older[j].status == Failed || (older[j].status == Skipped && older[j].reason.MissingInput?))))));
      assert IsEnough(q.jobs[j], run, plan, input, force) by {
        if older[j].reason.MissingInput? { assert older[j].reason == MissingInput(older[j].reason.kind); }
      }
    }
    if j, other :| j in q.jobs && IsPlanInput(q.world, run, plan, other) && IsEnough(q.jobs[j], run, plan, other, force) {
      assert j in older && For(older[j], run, plan.processor, plan.scope);
    }
  }

  lemma ReplacedAre(q: Queue, run: int, plan: Plan) returns (older: map<int, Job>)
    ensures older == SupersedeOlder(q, run, plan.processor, plan.scope) && older.Keys == q.jobs.Keys
    ensures forall j | j in q.jobs :: older[j] == if IsReplaced(q, run, plan, j) then q.jobs[j].(status := Superseded) else q.jobs[j]
  {
    older := SupersedeOlder(q, run, plan.processor, plan.scope);
  }

  lemma AddedIs(q: Queue, older: map<int, Job>, run: int, plan: Plan, kind: Kind, force: bool, now: int)
    requires older == SupersedeOlder(q, run, plan.processor, plan.scope) && older.Keys == q.jobs.Keys
    requires forall j | j in q.jobs :: older[j] == if IsReplaced(q, run, plan, j) then q.jobs[j].(status := Superseded) else q.jobs[j]
    ensures var (after, queued) := InsertUnlessSatisfied(q.(jobs := older), run, plan, kind, force, now);
            IsAdded(q, run, plan, kind, now, !IsThereEnough(q, run, plan, force), after, queued)
  {
    EnoughIs(q, older, run, plan, force);
    NewJobIs(q.world, run, plan, kind, now);
    UnavailableIs(q.world, run, plan.inputs);
  }

  lemma QueuedIs(q: Queue, run: int, plan: Plan, kind: Kind, force: bool, now: int)
    ensures var (after, queued) := QueuePostProcessing(q, run, plan, kind, force, now); IsQueued(q, run, plan, kind, force, now, after, queued)
  {
    PlanIs(plan);
    ReadsIs(plan);
    CurrentTextMatches(q.world, run);
    var older := ReplacedAre(q, run, plan);
    AddedIs(q, older, run, plan, kind, force, now);
  }

  // ----- failing, recovering, cancelling -----

  /** Only a running job can fail, and with one of three outcomes. */
  ghost predicate IsFailure(q: Queue, id: int, status: Status, retryAt: Option<int>, after: Queue, stored: bool) {
    && (stored <==> IsRunningJob(q, id) && status in {Pending, NeedsReview, Failed})
    && after == if stored then q.(jobs := q.jobs[id := q.jobs[id].(status := status, retryAt := retryAt)]) else q
  }

  /** What was running is due again now, and nothing else changes. */
  ghost predicate IsRecovery(q: Queue, now: int, after: Queue) {
    && after == q.(jobs := after.jobs) && after.jobs.Keys == q.jobs.Keys
    && forall j | j in q.jobs ::
         after.jobs[j] == if q.jobs[j].status == Running then q.jobs[j].(status := Pending, retryAt := Some(now)) else q.jobs[j]
  }

  /** Automatic work is off, and every open job ends for this reason. */
  ghost predicate IsCancelled(q: Queue, after: Queue) {
    && after == q.(jobs := after.jobs, world := q.world.(automatic := false)) && after.jobs.Keys == q.jobs.Keys
    && forall j | j in q.jobs :: after.jobs[j] ==
         if q.jobs[j].status in {Pending, Running} then q.jobs[j].(status := Superseded, reason := OperatorCanceled, retryAt := None) else q.jobs[j]
  }

  lemma FailureIs(q: Queue, id: int, status: Status, retryAt: Option<int>)
    ensures var (after, stored) := FailPostProcessingJob(q, id, status, retryAt); IsFailure(q, id, status, retryAt, after, stored)
  {
  }

  lemma RecoveryIs(q: Queue, now: int)
    ensures IsRecovery(q, now, RecoverPostProcessing(q, now))
  {
  }

  lemma CancelledIs(q: Queue)
    ensures IsCancelled(q, CancelPostProcessing(q))
  {
  }

  // ----- claiming -----

  /** The run is complete, current and for the text its incident has now. */
  ghost predicate IsPresented(w: World, run: int) {
    HasCurrentText(w, run) && w.runs[run].complete && w.runs[run].current
  }

  ghost predicate IsOn<T>(controls: map<T, bool>, key: T) { key in controls && controls[key] }

  ghost predicate IsOff<T>(controls: map<T, bool>, key: T) { key in controls && !controls[key] }

  /** Pending, due, presented, of a model that is not blocked, and requested by hand or scheduled with all switches on. */
  ghost predicate MayBeClaimed(w: World, job: Job, processor: string, o: Options, now: int) {
    && job.processor == processor && job.status == Pending && w.processing && IsPresented(w, job.run) && job.model !in o.blocked
    && (job.retryAt.Some? ==> job.retryAt.value <= now)
    && (job.kind != Manual ==> o.allowScheduled && w.automatic && IsOn(w.processors, processor) && IsOn(w.scopes, (processor, job.scope)))
  }

  /** Its contract is registered for its prompt and whole, and nothing that the contract reads is missing. */
  ghost predicate CanRun(w: World, contracts: map<string, Contract>, job: Job) {
    job.scope in contracts && contracts[job.scope].prompt == job.prompt && IsWhole(contracts[job.scope]) && NothingMissing(w, job.run, contracts[job.scope].inputs)
  }

  ghost predicate IsWhole(c: Contract) { c.prompt != "" && c.inputs != [] && c.outputs != [] }

  ghost predicate IsRefused(contracts: map<string, Contract>, job: Job) { job.scope in contracts && !IsWhole(contracts[job.scope]) }

  ghost predicate IsMoreUrgent(a: Kind, b: Kind) { (a == Manual && b != Manual) || (a == Scheduled && b in {Backfill, Imported}) }

  /** The job is of the preferred model, or of the yielded one if none is preferred, and in the preferred scope. */
  ghost predicate IsInScope(o: Options, job: Job) {
    job.scope == o.preferredScope && job.model == if o.preferredModel != "" then o.preferredModel else o.yieldModel
  }

  /** Requests go first, then schedules; a yielded model goes last, a preferred model first and within it the preferred
  scope; then the older job. */
  ghost predicate GoesBefore(o: Options, a: Job, i: int, b: Job, j: int) {
    if IsMoreUrgent(a.kind, b.kind) || IsMoreUrgent(b.kind, a.kind) then IsMoreUrgent(a.kind, b.kind)
    else if (a.model == o.yieldModel) != (b.model == o.yieldModel) then b.model == o.yieldModel
    else if (a.model == o.preferredModel) != (b.model == o.preferredModel) then a.model == o.preferredModel
    else if IsInScope(o, a) != IsInScope(o, b) then IsInScope(o, a)
    else a.createdAt < b.createdAt || (a.createdAt == b.createdAt && i < j)
  }

  /** The input of a job with the values as they are now. */
  ghost predicate IsJobInput(w: World, contracts: map<string, Contract>, job: Job, input: Input) {
    && job.scope in contracts && input.processor == job.processor && input.scope == job.scope && input.prompt == job.prompt
    && input.model == job.model && IsAdapter(job.adapter, input.adapter) && AreInputs(w, job.run, contracts[job.scope].inputs, input.parts)
  }

  /** The claimed job: running, with one more attempt; a location check gets the input that it is claimed with. */
  ghost predicate IsStarted(w: World, contracts: map<string, Contract>, job: Job, after: Job) {
    && after == job.(status := Running, attempts := job.attempts + 1, retryAt := None, input := after.input)
    && (if job.processor == "location_verification" then IsJobInput(w, contracts, job, after.input) else after.input == job.input)
  }

  ghost predicate IsForOldText(w: World, job: Job) {
    job.run in w.runs && w.runs[job.run].incident in w.incidents && !IsPresented(w, job.run)
  }

  ghost predicate IsScheduledFor(job: Job, processor: string) { job.processor == processor && job.kind == Scheduled }

  /** What becomes of a job that is not claimed; `passed` if it could be claimed and comes before the claimed one. */
  ghost predicate IsLeft(w: World, processor: string, contracts: map<string, Contract>, job: Job, passed: bool, after: Job) {
    if job.status != Pending then after == job
    else if IsForOldText(w, job) then after == job.(status := Superseded)
    else if IsScheduledFor(job, processor) && IsOff(w.scopes, (processor, job.scope)) then after == job.(status := Skipped, reason := ScopeDisabled, retryAt := None)
    else if IsScheduledFor(job, processor) && IsOff(w.processors, processor) then after == job.(status := Skipped, reason := ProcessorDisabled, retryAt := None)
    else if !passed || CanRun(w, contracts, job) || IsRefused(contracts, job) then after == job
    else if job.scope !in contracts || contracts[job.scope].prompt != job.prompt then after == job.(status := Failed, reason := Unregistered, retryAt := None)
    else exists missing, input :: IsFirstMissing(w, job.run, contracts[job.scope].inputs, missing) && IsJobInput(w, contracts, job, input) &&
                                  after == job.(status := Skipped, reason := MissingInput(missing), retryAt := None, input := input)
  }

  /** The job stops the claim, and of all jobs that do it goes first. */
  ghost predicate IsFirstStop(q: Queue, processor: string, contracts: map<string, Contract>, o: Options, now: int, j: int) {
    && IsStop(q, processor, contracts, o, now, j)
    && forall k | IsStop(q, processor, contracts, o, now, k) && k != j :: GoesBefore(o, q.jobs[j], j, q.jobs[k], k)
  }

  ghost predicate IsStop(q: Queue, processor: string, contracts: map<string, Contract>, o: Options, now: int, j: int) {
    j in q.jobs && MayBeClaimed(q.world, q.jobs[j], processor, o, now) && (CanRun(q.world, contracts, q.jobs[j]) || IsRefused(contracts, q.jobs[j]))
  }

  ghost predicate IsPassed(q: Queue, processor: string, o: Options, now: int, k: int, result: ClaimResult)
    requires k in q.jobs
  {
    && MayBeClaimed(q.world, q.jobs[k], processor, o, now)
    && (result.Claimed? ==> result.id in q.jobs && GoesBefore(o, q.jobs[k], k, q.jobs[result.id], result.id))
  }

  /** A claim takes the first job that can run, ends those before it that cannot and those that are out of date or
  switched off, and leaves all others; it refuses if a job with a broken contract goes first. */
  ghost predicate IsClaimOf(q: Queue, processor: string, contracts: map<string, Contract>, o: Options, now: int, after: Queue, result: ClaimResult) {
    if result.MalformedContract? then
      after == q && exists j :: IsFirstStop(q, processor, contracts, o, now, j) && IsRefused(contracts, q.jobs[j])
    else
      && after == q.(jobs := after.jobs) && after.jobs.Keys == q.jobs.Keys
      && (forall k | k in q.jobs && result != Claimed(k) ::
            IsLeft(q.world, processor, contracts, q.jobs[k], IsPassed(q, processor, o, now, k, result), after.jobs[k]))
      && (if result.Claimed? then
            && IsFirstStop(q, processor, contracts, o, now, result.id) && CanRun(q.world, contracts, q.jobs[result.id])
            && IsStarted(q.world, contracts, q.jobs[result.id], after.jobs[result.id])
          else forall k :: !IsStop(q, processor, contracts, o, now, k))
  }

  lemma PresentedIs(w: World, run: int)
    ensures IsPresented(w, run) <==> Usable(w, run)
  {
    CurrentTextMatches(w, run);
  }

  lemma ClaimableIs(w: World, job: Job, processor: string, o: Options, now: int)
    ensures MayBeClaimed(w, job, processor, o, now) <==> Selectable(w, job, processor, o, now)
  {
    PresentedIs(w, job.run);
  }

  lemma VerdictIs(w: World, contracts: map<string, Contract>, job: Job)
    ensures CanRun(w, contracts, job) <==> Judge(w, contracts, job).Ready?
    ensures IsRefused(contracts, job) <==> Judge(w, contracts, job).Malformed?
    ensures Judge(w, contracts, job).Obsolete? <==>
              job.scope !in contracts || (IsWhole(contracts[job.scope]) && contracts[job.scope].prompt != job.prompt)
    ensures Judge(w, contracts, job).Lacks? ==>
              job.scope in contracts && IsFirstMissing(w, job.run, contracts[job.scope].inputs, Judge(w, contracts, job).kind)
  {
    if job.scope in contracts { UnavailableIs(w, job.run, contracts[job.scope].inputs); }
  }

  lemma BelowIs(o: Options, a: Job, i: int, b: Job, j: int)
    ensures GoesBefore(o, a, i, b, j) <==> Below(Rank(o, a), i, Rank(o, b), j)
  {
  }

  lemma JobInputIs(w: World, contracts: map<string, Contract>, job: Job)
    requires job.scope in contracts
    ensures IsJobInput(w, contracts, job, ClaimInput(w, contracts, job))
  {
    AdapterIs(job.adapter);
    PartsAre(w, job.run, contracts[job.scope].inputs);
  }

  lemma StartedIs(w: World, contracts: map<string, Contract>, job: Job)
    requires job.scope in contracts
    ensures IsStarted(w, contracts, job, StartedJob(w, contracts, job))
  {
    JobInputIs(w, contracts, job);
  }

  lemma SweptIs(w: World, processor: string, job: Job)
    ensures job.status == Pending ==> (IsForOldText(w, job) <==> Stale(w, job.run))
    ensures IsLeft(w, processor, map[], job, false, SweptJob(w, processor, job))
  {
    PresentedIs(w, job.run);
  }

  /** A claimable job is neither out of date nor switched off. */
  lemma ClaimableIsNotSwept(w: World, processor: string, job: Job, o: Options, now: int)
    requires MayBeClaimed(w, job, processor, o, now)
    ensures SweptJob(w, processor, job) == job
  {
    PresentedIs(w, job.run);
  }

  lemma PassedIs(w: World, processor: string, contracts: map<string, Contract>, job: Job, o: Options, now: int)
    requires MayBeClaimed(w, job, processor, o, now)
    ensures IsLeft(w, processor, contracts, job, true, SettledJob(w, contracts, job))
  {
    VerdictIs(w, contracts, job);
    PresentedIs(w, job.run);
    if Judge(w, contracts, job).Lacks? { JobInputIs(w, contracts, job); }
  }

  /** Sweeping keeps the claimable jobs as they are, so stops and their order can be read off the rows before it. */
  lemma StopsAre(q: Queue, processor: string, contracts: map<string, Contract>, o: Options, now: int)
    ensures var (s, rows) := (Sweep(q, processor), Candidates(Sweep(q, processor), processor, o, now));
            && (forall k :: k in rows <==> k in q.jobs && MayBeClaimed(q.world, q.jobs[k], processor, o, now))
            && (forall k | k in rows :: k in s.jobs && s.jobs[k] == q.jobs[k])
            && (forall k :: k in StopRows(s, contracts, rows) <==> IsStop(q, processor, contracts, o, now, k))
            && (forall j, k | j in rows && k in rows :: Order(s.jobs, o)(j, k) <==> GoesBefore(o, q.jobs[j], j, q.jobs[k], k))
  {
    var s, rows := Sweep(q, processor), Candidates(Sweep(q, processor), processor, o, now);
    SweepKeepsCandidates(q, processor, o, now);
    forall k ensures k in rows <==> k in q.jobs && MayBeClaimed(q.world, q.jobs[k], processor, o, now) {
      if k in q.jobs { ClaimableIs(q.world, q.jobs[k], processor, o, now); }
    }
    forall k ensures k in StopRows(s, contracts, rows) <==> IsStop(q, processor, contracts, o, now, k) {
      if k in rows { VerdictIs(q.world, contracts, q.jobs[k]); }
    }
    forall j, k | j in rows && k in rows ensures Order(s.jobs, o)(j, k) <==> GoesBefore(o, q.jobs[j], j, q.jobs[k], k) {
      BelowIs(o, q.jobs[j], j, q.jobs[k], k);
    }
  }

  lemma FirstStopIs(q: Queue, processor: string, contracts: map<string, Contract>, o: Options, now: int, j: int)
    requires var s := Sweep(q, processor); IsFirst(StopRows(s, contracts, Candidates(s, processor, o, now)), Order(s.jobs, o), j)
    ensures IsFirstStop(q, processor, contracts, o, now, j)
  {
    StopsAre(q, processor, contracts, o, now);
  }

  /** What the claim makes of one job that it does not take. */
  lemma LeftIs(q: Queue, processor: string, contracts: map<string, Contract>, o: Options, now: int, done: set<int>, k: int, passed: bool)
    requires var s := Sweep(q, processor);
             var rows := Candidates(s, processor, o, now);
             k in q.jobs && done <= rows && (k in rows ==> (k in done <==> passed)) && (k !in rows ==> !passed)
    ensures var r := Settle(Sweep(q, processor), contracts, done);
            r.jobs.Keys == q.jobs.Keys && IsLeft(q.world, processor, contracts, q.jobs[k], passed, r.jobs[k])
  {
    SweepRows(q, processor);
    StopsAre(q, processor, contracts, o, now);
    SweptIs(q.world, processor, q.jobs[k]);
    if MayBeClaimed(q.world, q.jobs[k], processor, o, now) {
      ClaimableIsNotSwept(q.world, processor, q.jobs[k], o, now);
      PassedIs(q.world, processor, contracts, q.jobs[k], o, now);
      ClaimableIsLeft(q.world, processor, contracts, q.jobs[k], o, now);
    } else {
      NotPassed(q.world, processor, contracts, q.jobs[k], SweptJob(q.world, processor, q.jobs[k]));
    }
  }

  lemma ClaimableIsLeft(w: World, processor: string, contracts: map<string, Contract>, job: Job, o: Options, now: int)
    requires MayBeClaimed(w, job, processor, o, now)
    ensures IsLeft(w, processor, contracts, job, false, job)
  {
  }

  lemma NotPassed(w: World, processor: string, contracts: map<string, Contract>, job: Job, after: Job)
    requires IsLeft(w, processor, map[], job, false, after)
    ensures IsLeft(w, processor, contracts, job, false, after)
  {
  }

  lemma ClaimIs(q: Queue, processor: string, contracts: map<string, Contract>, o: Options, now: int, after: Queue, result: ClaimResult)
    requires IsClaim(q, processor, contracts, o, now, after, result)
    ensures IsClaimOf(q, processor, contracts, o, now, after, result)
  {
    match result
    case Claimed(j) => ClaimedIs(q, processor, contracts, o, now, after, j);
    case NothingEligible => NothingIs(q, processor, contracts, o, now, after);
    case MalformedContract => RefusalIs(q, processor, contracts, o, now, after);
  }

  lemma RefusalIs(q: Queue, processor: string, contracts: map<string, Contract>, o: Options, now: int, after: Queue)
    requires IsClaim(q, processor, contracts, o, now, after, MalformedContract)
    ensures IsClaimOf(q, processor, contracts, o, now, after, MalformedContract)
  {
    var s := Sweep(q, processor);
    var j :| IsFirst(StopRows(s, contracts, Candidates(s, processor, o, now)), Order(s.jobs, o), j) && Judge(s.world, contracts, s.jobs[j]).Malformed?;
    FirstStopIs(q, processor, contracts, o, now, j);
    StopsAre(q, processor, contracts, o, now);
    VerdictIs(q.world, contracts, q.jobs[j]);
  }

  lemma NothingIs(q: Queue, processor: string, contracts: map<string, Contract>, o: Options, now: int, after: Queue)
    requires IsClaim(q, processor, contracts, o, now, after, NothingEligible)
    ensures IsClaimOf(q, processor, contracts, o, now, after, NothingEligible)
  {
    var rows := Candidates(Sweep(q, processor), processor, o, now);
    StopsAre(q, processor, contracts, o, now);
    forall k | k in q.jobs
      ensures after.jobs.Keys == q.jobs.Keys &&
              IsLeft(q.world, processor, contracts, q.jobs[k], IsPassed(q, processor, o, now, k, NothingEligible), after.jobs[k])
    {
      LeftIs(q, processor, contracts, o, now, rows, k, IsPassed(q, processor, o, now, k, NothingEligible));
    }
    SweepRows(q, processor);
  }

  lemma ClaimedIs(q: Queue, processor: string, contracts: map<string, Contract>, o: Options, now: int, after: Queue, j: int)
    requires IsClaim(q, processor, contracts, o, now, after, Claimed(j))
    ensures IsClaimOf(q, processor, contracts, o, now, after, Claimed(j))
  {
    var s := Sweep(q, processor);
    var rows := Candidates(s, processor, o, now);
    var done := RowsBefore(rows, Order(s.jobs, o), j);
    FirstStopIs(q, processor, contracts, o, now, j);
    StopsAre(q, processor, contracts, o, now);
    VerdictIs(q.world, contracts, q.jobs[j]);
    SweepRows(q, processor);
    TakenIs(q, contracts, Settle(s, contracts, done), after, j);
    forall k | k in q.jobs && k != j
      ensures IsLeft(q.world, processor, contracts, q.jobs[k], IsPassed(q, processor, o, now, k, Claimed(j)), after.jobs[k])
    {
      LeftIs(q, processor, contracts, o, now, done, k, IsPassed(q, processor, o, now, k, Claimed(j)));
    }
  }

  lemma TakenIs(q: Queue, contracts: map<string, Contract>, settled: Queue, after: Queue, j: int)
    requires settled == q.(jobs := settled.jobs) && settled.jobs.Keys == q.jobs.Keys && j in q.jobs && settled.jobs[j] == q.jobs[j]
    requires q.jobs[j].scope in contracts && after == Start(settled, contracts, j)
    ensures after == q.(jobs := after.jobs) && after.jobs.Keys == q.jobs.Keys
    ensures IsStarted(q.world, contracts, q.jobs[j], after.jobs[j]) && forall k | k in q.jobs && k != j :: after.jobs[k] == settled.jobs[k]
  {
    StartedIs(q.world, contracts, q.jobs[j]);
  }

  // ----- peeking -----

  /** The first job that could be claimed and run; none if there is none. */
  ghost predicate IsPeekOf(q: Queue, processor: string, contracts: map<string, Contract>, o: Options, now: int, result: Option<int>) {
    match result
    case None => forall j :: !IsRunnable(q, processor, contracts, o, now, j)
    case Some(j) =>
      && IsRunnable(q, processor, contracts, o, now, j)
      && forall k | IsRunnable(q, processor, contracts, o, now, k) && k != j :: GoesBefore(o, q.jobs[j], j, q.jobs[k], k)
  }

  /** Unlike the claim, peeking takes an empty prompt for one like any other. */
  ghost predicate IsRunnable(q: Queue, processor: string, contracts: map<string, Contract>, o: Options, now: int, j: int) {
    && j in q.jobs && MayBeClaimed(q.world, q.jobs[j], processor, o, now) && q.jobs[j].scope in contracts
    && var c := contracts[q.jobs[j].scope];
       c.prompt == q.jobs[j].prompt && c.inputs != [] && c.outputs != [] && NothingMissing(q.world, q.jobs[j].run, c.inputs)
  }

  lemma RunnableIs(q: Queue, processor: string, contracts: map<string, Contract>, o: Options, now: int, j: int)
    ensures IsRunnable(q, processor, contracts, o, now, j) <==> j in RunnableRows(q, processor, contracts, o, now)
  {
    if j in q.jobs {
      ClaimableIs(q.world, q.jobs[j], processor, o, now);
      if q.jobs[j].scope in contracts { UnavailableIs(q.world, q.jobs[j].run, contracts[q.jobs[j].scope].inputs); }
    }
  }

  lemma PeekIs(q: Queue, processor: string, contracts: map<string, Contract>, o: Options, now: int, result: Option<int>)
    requires IsPeek(q, processor, contracts, o, now, result)
    ensures IsPeekOf(q, processor, contracts, o, now, result)
  {
    forall j ensures IsRunnable(q, processor, contracts, o, now, j) <==> j in RunnableRows(q, processor, contracts, o, now) {
      RunnableIs(q, processor, contracts, o, now, j);
    }
    if result.Some? {
      var j := result.value;
      forall k | IsRunnable(q, processor, contracts, o, now, k) && k != j ensures GoesBefore(o, q.jobs[j], j, q.jobs[k], k) {
        BelowIs(o, q.jobs[j], j, q.jobs[k], k);
        assert Order(q.jobs, o)(j, k);
      }
    }
  }
}
