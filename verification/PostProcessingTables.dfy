/** The queue of independent post-processing jobs: its tables and its transactions.

Claiming is stated in closed form here: which job is claimed, which ones are settled on the way and
when the claim refuses to go on. `PostProcessingStore` runs the source's loops and meets this. */
module PostProcessingTables {
  import opened Rows
  import opened Text
  import opened Presentation

  datatype Status = Pending | Running | Succeeded | NeedsReview | Failed | Skipped | Superseded
  datatype Kind = Manual | Scheduled | Backfill | Imported
  datatype Reason = NoReason | MissingInput(kind: string) | ScopeDisabled | ProcessorDisabled | Unregistered | OperatorCanceled

  /** What an input hash digests, in place of the hash. */
  datatype Input = Input(processor: string, scope: string, parts: seq<(string, string)>, prompt: string, model: string, adapter: string)

  datatype Job = Job(run: int, processor: string, scope: string, kind: Kind, status: Status, reason: Reason, model: string,
                     adapter: string, prompt: string, input: Input, attempts: nat, retryAt: Option<int>, createdAt: int)

  /** `location` is the marshalled source description of the location check. */
  datatype Incident = Incident(hash: Hash, title: string, body: string, location: string)

  /** Everything the queue reads and its own transactions leave alone. */
  datatype World = World(processing: bool, automatic: bool, processors: map<string, bool>, scopes: map<(string, string), bool>,
                         runs: map<int, Run>, incidents: map<int, Incident>, values: map<(int, string), string>)

  datatype Queue = Queue(world: World, jobs: map<int, Job>, outputs: map<(int, string), string>, next: int)

  datatype Contract = Contract(prompt: string, inputs: seq<string>, outputs: seq<string>)
  datatype Options = Options(allowScheduled: bool, preferredModel: string, yieldModel: string, preferredScope: string, blocked: set<string>)
  datatype Plan = Plan(processor: string, scope: string, prompt: string, model: string, adapter: string, inputs: seq<string>)

  predicate Active(status: Status) { status == Pending || status == Running }

  // ----- inputs -----

  predicate SourceKind(kind: string) { kind in {"original_title", "incident_body", "location_source", "location_original"} }

  /** The run is for the text its incident has now. */
  predicate Matches(w: World, run: int) {
    run in w.runs && w.runs[run].incident in w.incidents && w.incidents[w.runs[run].incident].hash == w.runs[run].hash
  }

  function ValueOf(w: World, run: int, kind: string): string {
    if (run, kind) in w.values then w.values[(run, kind)] else ""
  }

  function LocationOriginal(w: World, run: int): string {
    "{\"name\":\"" + ValueOf(w, run, "area_name") + "\",\"type\":\"" + ValueOf(w, run, "area_type") + "\"}"
  }

  /** The value of one input kind; an absent value reads as the empty text. */
  function InputValue(w: World, run: int, kind: string): string {
    if !SourceKind(kind) then ValueOf(w, run, kind)
    else if !Matches(w, run) then ""
    else
      var incident := w.incidents[w.runs[run].incident];
      if kind == "original_title" then incident.title
      else if kind == "incident_body" then incident.body
      else if kind == "location_source" then incident.location
      else LocationOriginal(w, run)
  }

  function Parts(w: World, run: int, kinds: seq<string>): (parts: seq<(string, string)>)
    ensures |parts| == |kinds|
    ensures forall i | 0 <= i < |kinds| :: parts[i] == (kinds[i], InputValue(w, run, kinds[i]))
  {
    if kinds == [] then [] else [(kinds[0], InputValue(w, run, kinds[0]))] + Parts(w, run, kinds[1..])
  }

  /** The first input kind without a value. */
  function Unavailable(w: World, run: int, kinds: seq<string>): (kind: Option<string>)
    ensures kind.None? <==> forall k | k in kinds :: !Blank(InputValue(w, run, k))
    ensures kind.Some? ==> kind.value in kinds && Blank(InputValue(w, run, kind.value))
  {
    if kinds == [] then None
    else if Blank(InputValue(w, run, kinds[0])) then Some(kinds[0])
    else Unavailable(w, run, kinds[1..])
  }

  function Normalized(adapter: string): string { if Blank(adapter) then "structured" else adapter }

  // ----- queuePostProcessingTx -----

  predicate ValidPlan(plan: Plan) {
    && !Blank(plan.processor) && !Blank(plan.scope) && !Blank(plan.prompt) && !Blank(plan.model) && |plan.inputs| > 0
    && (forall kind | kind in plan.inputs :: !Blank(kind))
    && (forall i, j | 0 <= i < j < |plan.inputs| :: plan.inputs[i] != plan.inputs[j])
  }

  function PlanInput(w: World, run: int, plan: Plan): Input {
    Input(plan.processor, plan.scope, Parts(w, run, plan.inputs), plan.prompt, plan.model, Normalized(plan.adapter))
  }

  /** An older current run of the same text. */
  predicate Older(w: World, other: int, run: int) {
    run in w.runs && other in w.runs && other != run && w.runs[other].incident == w.runs[run].incident &&
    w.runs[other].hash == w.runs[run].hash && w.runs[other].current
  }

  function SupersedeOlder(q: Queue, run: int, processor: string, scope: string): map<int, Job> {
    map j | j in q.jobs ::
      if q.jobs[j].status == Pending && q.jobs[j].processor == processor && q.jobs[j].scope == scope && Older(q.world, q.jobs[j].run, run)
      then q.jobs[j].(status := Superseded) else q.jobs[j]
  }

  predicate For(job: Job, run: int, processor: string, scope: string) {
    job.run == run && job.processor == processor && job.scope == scope
  }

  /** Whether existing work for this run and scope forbids a new job. */
  predicate Satisfied(jobs: map<int, Job>, run: int, plan: Plan, input: Input, force: bool) {
    exists j | j in jobs :: For(jobs[j], run, plan.processor, plan.scope) &&
      (Active(jobs[j].status) ||
       (!force && (jobs[j].status == Succeeded ||
                   (jobs[j].input == input && (jobs[j].status == NeedsReview || jobs[j].status == Failed ||
                                               (jobs[j].status == Skipped && jobs[j].reason.MissingInput?))))))
  }

  /** `run` is a complete current run for its incident's text, as both callers select it. */
  function QueuePostProcessing(q: Queue, run: int, plan: Plan, kind: Kind, force: bool, now: int): (Queue, bool) {
    if !ValidPlan(plan) || (NeedsSource(plan) && !Matches(q.world, run)) then (q, false)
    else
      InsertUnlessSatisfied(q.(jobs := SupersedeOlder(q, run, plan.processor, plan.scope)), run, plan, kind, force, now)
  }

  function InsertUnlessSatisfied(q: Queue, run: int, plan: Plan, kind: Kind, force: bool, now: int): (Queue, bool) {
    var input, missing := PlanInput(q.world, run, plan), Unavailable(q.world, run, plan.inputs);
    if Satisfied(q.jobs, run, plan, input, force) then (q, false)
    else (q.(jobs := q.jobs[q.next := NewJob(run, plan, kind, input, missing, now)], next := q.next + 1), missing.None?)
  }

  /** A job for which an input is missing is recorded as skipped at once. */
  function NewJob(run: int, plan: Plan, kind: Kind, input: Input, missing: Option<string>, now: int): Job {
    Job(run, plan.processor, plan.scope, kind, if missing.Some? then Skipped else Pending,
        if missing.Some? then MissingInput(missing.value) else NoReason,
        plan.model, Normalized(plan.adapter), plan.prompt, input, 0, None, now)
  }

  predicate NeedsSource(plan: Plan) { exists k | k in plan.inputs :: SourceKind(k) }

  // ----- selection -----

  /** The run is complete, current and for the text its incident has now. */
  predicate Usable(w: World, run: int) { Matches(w, run) && w.runs[run].complete && w.runs[run].current }

  predicate Stale(w: World, run: int) {
    run in w.runs && w.runs[run].incident in w.incidents && !Usable(w, run)
  }

  predicate Enabled<T(==)>(controls: map<T, bool>, key: T) { key in controls && controls[key] }
  predicate Disabled<T(==)>(controls: map<T, bool>, key: T) { key in controls && !controls[key] }

  predicate Selectable(w: World, job: Job, processor: string, o: Options, now: int) {
    && job.processor == processor && job.status == Pending && Usable(w, job.run)
    && (job.retryAt.None? || job.retryAt.value <= now) && w.processing
    && (job.kind == Manual || (o.allowScheduled && w.automatic && Enabled(w.processors, processor) && Enabled(w.scopes, (processor, job.scope))))
    && job.model !in o.blocked
  }

  function Candidates(q: Queue, processor: string, o: Options, now: int): set<int> {
    set j | j in q.jobs && Selectable(q.world, q.jobs[j], processor, o, now)
  }

  function KindRank(kind: Kind): int {
    match kind case Manual => 0 case Scheduled => 1 case _ => 2
  }

  function Flag(condition: bool): int { if condition then 0 else 1 }

  /** Request kind first; then the yielded model last, the preferred model and scope first, and the older job. */
  function Rank(o: Options, job: Job): (int, int, int, int, int) {
    var scopeModel := if o.preferredModel == "" then o.yieldModel else o.preferredModel;
    (KindRank(job.kind), Flag(job.model != o.yieldModel), Flag(job.model == o.preferredModel),
     Flag(job.model == scopeModel && job.scope == o.preferredScope), job.createdAt)
  }

  predicate Below(x: (int, int, int, int, int), i: int, y: (int, int, int, int, int), j: int) {
    if x.0 != y.0 then x.0 < y.0
    else if x.1 != y.1 then x.1 < y.1
    else if x.2 != y.2 then x.2 < y.2
    else if x.3 != y.3 then x.3 < y.3
    else if x.4 != y.4 then x.4 < y.4
    else i < j
  }

  function Order(jobs: map<int, Job>, o: Options): (int, int) -> bool {
    (a: int, b: int) => a in jobs && b in jobs && Below(Rank(o, jobs[a]), a, Rank(o, jobs[b]), b)
  }

  lemma OrderIsTotal(jobs: map<int, Job>, o: Options, rows: set<int>)
    requires rows <= jobs.Keys
    ensures StrictOrder(rows, Order(jobs, o))
  {
  }

  function Select(q: Queue, processor: string, o: Options, now: int): (selected: Option<int>)
    ensures selected.None? <==> Candidates(q, processor, o, now) == {}
    ensures selected.Some? ==> IsFirst(Candidates(q, processor, o, now), Order(q.jobs, o), selected.value)
  {
    var rows := Candidates(q, processor, o, now);
    if rows == {} then None else
      OrderIsTotal(q.jobs, o, rows);
      Some(First(rows, Order(q.jobs, o)))
  }

  // ----- PeekPostProcessingJob -----

  predicate Runnable(w: World, contracts: map<string, Contract>, job: Job) {
    job.scope in contracts &&
    var c := contracts[job.scope];
    c.prompt == job.prompt && |c.inputs| > 0 && |c.outputs| > 0 && Unavailable(w, job.run, c.inputs).None?
  }

  function RunnableRows(q: Queue, processor: string, contracts: map<string, Contract>, o: Options, now: int): set<int> {
    set j | j in Candidates(q, processor, o, now) && Runnable(q.world, contracts, q.jobs[j])
  }

  /** The first runnable candidate. */
  ghost predicate IsPeek(q: Queue, processor: string, contracts: map<string, Contract>, o: Options, now: int, result: Option<int>) {
    match result
    case None => RunnableRows(q, processor, contracts, o, now) == {}
    case Some(j) => IsFirst(RunnableRows(q, processor, contracts, o, now), Order(q.jobs, o), j)
  }

  // ----- ClaimPostProcessingJob -----

  /** What the three statements before the selection make of a job. */
  function SweptJob(w: World, processor: string, job: Job): Job {
    if job.status != Pending then job
    else if Stale(w, job.run) then job.(status := Superseded)
    else if job.processor != processor || job.kind != Scheduled then job
    else if Disabled(w.scopes, (processor, job.scope)) then job.(status := Skipped, reason := ScopeDisabled, retryAt := None)
    else if Disabled(w.processors, processor) then job.(status := Skipped, reason := ProcessorDisabled, retryAt := None)
    else job
  }

  function SupersedeStale(w: World, jobs: map<int, Job>): map<int, Job> {
    map j | j in jobs :: if jobs[j].status == Pending && Stale(w, jobs[j].run) then jobs[j].(status := Superseded) else jobs[j]
  }

  predicate Schedulable(job: Job, processor: string) {
    job.processor == processor && job.kind == Scheduled && job.status == Pending
  }

  function SkipDisabledScopes(w: World, processor: string, jobs: map<int, Job>): map<int, Job> {
    map j | j in jobs ::
      if Schedulable(jobs[j], processor) && Disabled(w.scopes, (processor, jobs[j].scope))
      then jobs[j].(status := Skipped, reason := ScopeDisabled, retryAt := None) else jobs[j]
  }

  function SkipDisabledProcessor(w: World, processor: string, jobs: map<int, Job>): map<int, Job> {
    map j | j in jobs ::
      if Schedulable(jobs[j], processor) && Disabled(w.processors, processor)
      then jobs[j].(status := Skipped, reason := ProcessorDisabled, retryAt := None) else jobs[j]
  }

  function Sweep(q: Queue, processor: string): Queue {
    q.(jobs := SkipDisabledProcessor(q.world, processor, SkipDisabledScopes(q.world, processor, SupersedeStale(q.world, q.jobs))))
  }

  lemma SweepRows(q: Queue, processor: string)
    ensures Sweep(q, processor).jobs.Keys == q.jobs.Keys
    ensures forall j | j in q.jobs :: Sweep(q, processor).jobs[j] == SweptJob(q.world, processor, q.jobs[j])
  {
  }

  datatype Verdict = Malformed | Obsolete | Lacks(kind: string) | Ready

  function Judge(w: World, contracts: map<string, Contract>, job: Job): Verdict {
    if job.scope !in contracts then Obsolete else
      var c := contracts[job.scope];
      if c.prompt == "" || |c.inputs| == 0 || |c.outputs| == 0 then Malformed
      else if c.prompt != job.prompt then Obsolete
      else match Unavailable(w, job.run, c.inputs) case Some(kind) => Lacks(kind) case None => Ready
  }

  /** The hash of the inputs as they are at the moment of the claim. */
  function ClaimInput(w: World, contracts: map<string, Contract>, job: Job): Input {
    Input(job.processor, job.scope, if job.scope in contracts then Parts(w, job.run, contracts[job.scope].inputs) else [],
          job.prompt, job.model, Normalized(job.adapter))
  }

  /** A candidate that cannot run is failed or skipped so that it cannot block the queue. */
  function SettledJob(w: World, contracts: map<string, Contract>, job: Job): Job {
    match Judge(w, contracts, job)
    case Obsolete => job.(status := Failed, reason := Unregistered, retryAt := None)
    case Lacks(kind) => job.(status := Skipped, reason := MissingInput(kind), input := ClaimInput(w, contracts, job), retryAt := None)
    case _ => job
  }

  function StartedJob(w: World, contracts: map<string, Contract>, job: Job): Job {
    job.(status := Running, attempts := job.attempts + 1, retryAt := None,
         input := if job.processor == "location_verification" then ClaimInput(w, contracts, job) else job.input)
  }

  function Settle(q: Queue, contracts: map<string, Contract>, rows: set<int>): Queue {
    q.(jobs := map j | j in q.jobs :: if j in rows then SettledJob(q.world, contracts, q.jobs[j]) else q.jobs[j])
  }

  function Start(q: Queue, contracts: map<string, Contract>, j: int): Queue
    requires j in q.jobs
  {
    q.(jobs := q.jobs[j := StartedJob(q.world, contracts, q.jobs[j])])
  }

  datatype ClaimResult = Claimed(id: int) | NothingEligible | MalformedContract

  predicate Ends(w: World, contracts: map<string, Contract>, job: Job) {
    Judge(w, contracts, job).Ready? || Judge(w, contracts, job).Malformed?
  }

  /** Candidates at which the claim loop ends: the runnable ones and those it refuses. */
  function StopRows(q: Queue, contracts: map<string, Contract>, rows: set<int>): set<int>
    requires rows <= q.jobs.Keys
  {
    set j | j in rows && Ends(q.world, contracts, q.jobs[j])
  }

  function RowsBefore(rows: set<int>, order: (int, int) -> bool, j: int): set<int> {
    set k | k in rows && order(k, j)
  }

  ghost predicate IsClaim(q: Queue, processor: string, contracts: map<string, Contract>, o: Options, now: int, after: Queue, result: ClaimResult) {
    var swept := Sweep(q, processor);
    var rows := Candidates(swept, processor, o, now);
    var stops := StopRows(swept, contracts, rows);
    match result
    case NothingEligible => stops == {} && after == Settle(swept, contracts, rows)
    case Claimed(j) =>
      && IsFirst(stops, Order(swept.jobs, o), j) && Judge(swept.world, contracts, swept.jobs[j]).Ready?
      && after == Start(Settle(swept, contracts, RowsBefore(rows, Order(swept.jobs, o), j)), contracts, j)
    case MalformedContract =>
      && after == q
      && exists j :: IsFirst(stops, Order(swept.jobs, o), j) && Judge(swept.world, contracts, swept.jobs[j]).Malformed?
  }

  // ----- CompletePostProcessingJob, FailPostProcessingJob, RecoverPostProcessing and cancelling -----

  /** The copy of a claimed job that the worker carries through its provider call. */
  datatype Carried = Carried(id: int, processor: string, run: int, outputs: seq<string>, source: string, original: string, input: Input)

  datatype Outcome = Stored | Rejected | NotRunning

  /** Exactly the declared kinds, each once and with a value. */
  predicate ValidOutputs(outputs: seq<(string, string)>, declared: seq<string>) {
    && |declared| > 0 && |outputs| == |declared|
    && (forall kind | kind in declared :: !Blank(kind))
    && (forall i, j | 0 <= i < j < |declared| :: declared[i] != declared[j])
    && (forall v | v in outputs :: !Blank(v.1) && v.0 in declared)
    && (forall i, j | 0 <= i < j < |outputs| :: outputs[i].0 != outputs[j].0)
  }

  /** A location check is only good for the newest run and the inputs it was given. */
  predicate LocationOutdated(w: World, c: Carried) {
    || !Matches(w, c.run)
    || LatestRun(w.runs, w.runs[c.run].incident, w.incidents[w.runs[c.run].incident].hash) != Some(c.run)
    || w.incidents[w.runs[c.run].incident].location != c.source
    || LocationOriginal(w, c.run) != c.original
  }

  function StoreOutputs(stored: map<(int, string), string>, id: int, outputs: seq<(string, string)>): map<(int, string), string>
    decreases |outputs|
  {
    if outputs == [] then stored
    else StoreOutputs(stored[(id, outputs[0].0) := outputs[0].1], id, outputs[1..])
  }

  predicate IsRunning(q: Queue, id: int) { id in q.jobs && q.jobs[id].status == Running }

  function CompletePostProcessingJob(q: Queue, c: Carried, outputs: seq<(string, string)>, model: string, input: Input): (Queue, Outcome) {
    if !ValidOutputs(outputs, c.outputs) || Blank(model) || input != c.input then (q, Rejected)
    else if c.processor == "location_verification" && LocationOutdated(q.world, c) then
      (if IsRunning(q, c.id) then q.(jobs := q.jobs[c.id := q.jobs[c.id].(status := Superseded)]) else q, NotRunning)
    else if c.id !in q.jobs || (exists v | v in outputs :: (c.id, v.0) in q.outputs) then (q, Rejected)
    else if !IsRunning(q, c.id) then (q, NotRunning)
    else (q.(jobs := q.jobs[c.id := q.jobs[c.id].(status := Succeeded, model := model, input := input)],
             outputs := StoreOutputs(q.outputs, c.id, outputs)), Stored)
  }

  function FailPostProcessingJob(q: Queue, id: int, status: Status, retryAt: Option<int>): (Queue, bool) {
    if status !in {Pending, NeedsReview, Failed} || !IsRunning(q, id) then (q, false)
    else (q.(jobs := q.jobs[id := q.jobs[id].(status := status, retryAt := retryAt)]), true)
  }

  function RecoverPostProcessing(q: Queue, now: int): Queue {
    q.(jobs := map j | j in q.jobs ::
      if q.jobs[j].status == Running then q.jobs[j].(status := Pending, retryAt := Some(now)) else q.jobs[j])
  }

  /** The post-processing statement of CancelAllAIWork. */
  function CancelPostProcessing(q: Queue): Queue {
    q.(world := q.world.(automatic := false),
       jobs := map j | j in q.jobs ::
         if Active(q.jobs[j].status) then q.jobs[j].(status := Superseded, reason := OperatorCanceled, retryAt := None) else q.jobs[j])
  }
}
