/** Tables of the staged AI pipeline and its transactions as functions on them.

Every function below a transaction's name is one SQL statement of that transaction; the
transaction composes them in the source's order. `PipelineStore` runs the same transactions
on mutable tables, and `PipelineSystem` interleaves them. */
module PipelineTables {
  import opened Rows
  import opened Text

  type Hash = nat

  datatype CycleKind = Manual | Scheduled | Continuation
  datatype CycleStatus = CycleQueued | CycleRunning | CycleSucceeded | CycleFailed | CycleSuperseded
  datatype ItemStatus = ItemPending | ItemSucceeded | ItemFailed | ItemSuperseded
  datatype JobStatus = Waiting | Pending | Running | Succeeded | NeedsReview | Failed | Skipped | Superseded
  datatype RunStatus = Processing | Complete | RunFailed | RunSuperseded

  /** A frozen post-processing plan, and the inputs the manual request key digests. */
  datatype Plan = Plan(processor: string, scope: string, model: string, adapter: string, prompt: string)
  datatype RequestKey = RequestKey(models: seq<string>, plans: seq<Plan>, targets: map<int, Hash>)

  datatype Incident = Incident(hash: Hash, hasBody: bool, publishedAt: int, position: int, createdAt: int)
  datatype Cycle = Cycle(kind: CycleKind, status: CycleStatus, activeStep: nat, queuedAt: int,
                         models: seq<string>, plans: seq<Plan>, requestKey: Option<RequestKey>)
  datatype Item = Item(cycle: int, incident: int, hash: Hash, run: int, status: ItemStatus)
  /** Steps of an item are unique, so an item and a step order identify a job. */
  datatype JobKey = JobKey(item: int, step: nat)
  datatype Job = Job(status: JobStatus, model: string, attempts: nat, retryAt: Option<int>)
  datatype Run = Run(incident: int, hash: Hash, current: bool, status: RunStatus)

  datatype Db = Db(automatic: bool, processing: bool, stepCount: nat, cutover: int,
                   incidents: map<int, Incident>, cycles: map<int, Cycle>, items: map<int, Item>,
                   jobs: map<JobKey, Job>, runs: map<int, Run>, values: map<(int, string), string>,
                   nextCycle: int, nextItem: int, nextRun: int)

  predicate Unclaimed(status: JobStatus) { status == Waiting || status == Pending }
  predicate Open(status: JobStatus) { Unclaimed(status) || status == Running }
  predicate Active(status: CycleStatus) { status == CycleQueued || status == CycleRunning }
  predicate AutomaticKind(kind: CycleKind) { kind == Scheduled || kind == Continuation }

  // ----- row updates shared by several transactions -----

  /** Jobs of the given items that no worker has claimed become superseded. */
  function SupersedeJobs(jobs: map<JobKey, Job>, items: set<int>): map<JobKey, Job> {
    map k | k in jobs ::
      if k.item in items && Unclaimed(jobs[k].status) then jobs[k].(status := Superseded) else jobs[k]
  }

  function SupersedeItems(items: map<int, Item>, rows: set<int>): map<int, Item> {
    map i | i in items :: if i in rows then items[i].(status := ItemSuperseded) else items[i]
  }

  function SupersedeRuns(runs: map<int, Run>, rows: set<int>): map<int, Run> {
    map r | r in runs ::
      if r in rows && runs[r].status == Processing then runs[r].(status := RunSuperseded) else runs[r]
  }

  function SupersedeCycles(cycles: map<int, Cycle>, rows: set<int>): map<int, Cycle> {
    map c | c in cycles :: if c in rows then cycles[c].(status := CycleSuperseded) else cycles[c]
  }

  function RunsOf(items: map<int, Item>, rows: set<int>): set<int>
    requires rows <= items.Keys
  {
    set i | i in rows :: items[i].run
  }

  function SupersededItems(items: map<int, Item>): set<int> {
    set i | i in items && items[i].status == ItemSuperseded
  }

  // ----- ClaimPipelineJob -----

  function StaleItems(db: Db, cycle: int): set<int> {
    set i | i in db.items && db.items[i].cycle == cycle && db.items[i].incident in db.incidents &&
            db.incidents[db.items[i].incident].hash != db.items[i].hash
  }

  /** The three statements that drop work on a source text that has been replaced. */
  function SweepStale(db: Db, cycle: int): Db {
    var stale := StaleItems(db, cycle);
    var items := SupersedeItems(db.items, stale);
    var rows := set i | i in items && items[i].cycle == cycle && items[i].status == ItemSuperseded;
    db.(jobs := SupersedeJobs(db.jobs, stale), items := items, runs := SupersedeRuns(db.runs, RunsOf(items, rows)))
  }

  function Due(retryAt: Option<int>, now: int): bool { retryAt.None? || retryAt.value <= now }

  function ClaimableJobs(db: Db, cycle: int, step: nat, now: int): set<JobKey> {
    set k | k in db.jobs && k.step == step && db.jobs[k].status == Pending && Due(db.jobs[k].retryAt, now) &&
            k.item in db.items && db.items[k.item].cycle == cycle && cycle in db.cycles &&
            db.cycles[cycle].status == CycleRunning && db.processing &&
            (db.cycles[cycle].kind == Manual || db.automatic) &&
            db.items[k.item].incident in db.incidents &&
            db.incidents[db.items[k.item].incident].hash == db.items[k.item].hash
  }

  /** The latest publication first, then the position in its document, then the job. */
  predicate ClaimsBefore(db: Db, a: JobKey, b: JobKey)
    requires a.item in db.items && b.item in db.items
    requires db.items[a.item].incident in db.incidents && db.items[b.item].incident in db.incidents
  {
    var x, y := db.incidents[db.items[a.item].incident], db.incidents[db.items[b.item].incident];
    x.publishedAt > y.publishedAt ||
    (x.publishedAt == y.publishedAt &&
     (x.position < y.position || (x.position == y.position && a.item < b.item)))
  }

  function ClaimOrder(db: Db): (JobKey, JobKey) -> bool {
    (a: JobKey, b: JobKey) =>
      a.item in db.items && b.item in db.items && db.items[a.item].incident in db.incidents &&
      db.items[b.item].incident in db.incidents && ClaimsBefore(db, a, b)
  }

  lemma ClaimOrderIsTotal(db: Db, cycle: int, step: nat, now: int)
    ensures StrictOrder(ClaimableJobs(db, cycle, step, now), ClaimOrder(db))
  {
  }

  function SelectJob(db: Db, cycle: int, step: nat, now: int): (selected: Option<JobKey>)
    ensures selected.None? <==> ClaimableJobs(db, cycle, step, now) == {}
    ensures selected.Some? ==> IsFirst(ClaimableJobs(db, cycle, step, now), ClaimOrder(db), selected.value)
  {
    var rows := ClaimableJobs(db, cycle, step, now);
    if rows == {} then None else
      ClaimOrderIsTotal(db, cycle, step, now);
      Some(First(rows, ClaimOrder(db)))
  }

  function MarkRunning(jobs: map<JobKey, Job>, k: JobKey): map<JobKey, Job>
    requires k in jobs
  {
    jobs[k := jobs[k].(status := Running, attempts := jobs[k].attempts + 1, retryAt := None)]
  }

  function ClaimPipelineJob(db: Db, cycle: int, step: nat, now: int): (Db, Option<JobKey>) {
    var swept := SweepStale(db, cycle);
    var selected := SelectJob(swept, cycle, step, now);
    if selected.None? then (swept, None)
    else (swept.(jobs := MarkRunning(swept.jobs, selected.value)), selected)
  }

  // ----- CompletePipelineJob and FailPipelineJob -----

  predicate RunningJob(db: Db, k: JobKey) { k in db.jobs && db.jobs[k].status == Running }

  predicate LastStage(db: Db, k: JobKey) {
    forall other | other in db.jobs && other.item == k.item :: other.step <= k.step
  }

  function StoreValues(values: map<(int, string), string>, run: int, outputs: map<string, string>): map<(int, string), string> {
    values + map kind | kind in outputs :: (run, kind) := outputs[kind]
  }

  function PublishRun(runs: map<int, Run>, run: int): map<int, Run> {
    if run in runs && runs[run].status == Processing then runs[run := runs[run].(status := Complete)] else runs
  }

  function SucceedItem(items: map<int, Item>, item: int): map<int, Item> {
    if item in items && items[item].status == ItemPending then items[item := items[item].(status := ItemSucceeded)]
    else items
  }

  predicate HasBlank(outputs: map<string, string>) {
    exists kind | kind in outputs :: Blank(kind) || Blank(outputs[kind])
  }

  lemma StoreNothing(values: map<(int, string), string>, run: int)
    ensures StoreValues(values, run, map[]) == values
  {
  }

  lemma StoreShrinks(values: map<(int, string), string>, run: int, outputs: map<string, string>, kind: string)
    requires kind in outputs
    ensures StoreValues(values[(run, kind) := outputs[kind]], run, outputs - {kind}) == StoreValues(values, run, outputs)
  {
  }

  lemma BlankShrinks(outputs: map<string, string>, kind: string)
    requires kind in outputs
    ensures HasBlank(outputs) <==> Blank(kind) || Blank(outputs[kind]) || HasBlank(outputs - {kind})
  {
    if HasBlank(outputs) && !Blank(kind) && !Blank(outputs[kind]) {
      var other :| other in outputs && (Blank(other) || Blank(outputs[other]));
      assert other in outputs - {kind};
    }
  }

  /** The second component is false exactly when the source reports an error and rolls back. */
  function CompletePipelineJob(db: Db, k: JobKey, outputs: map<string, string>): (Db, bool) {
    if k.item !in db.items || !RunningJob(db, k) || HasBlank(outputs) then (db, false)
    else
      var run := db.items[k.item].run;
      var done := db.(values := StoreValues(db.values, run, outputs),
                      jobs := db.jobs[k := db.jobs[k].(status := Succeeded)]);
      (PublishAfterLast(done, k), true)
  }

  /** The last step publishes the presentation and finishes its item. */
  function PublishAfterLast(db: Db, k: JobKey): Db
    requires k.item in db.items
  {
    if LastStage(db, k)
    then db.(runs := PublishRun(db.runs, db.items[k.item].run), items := SucceedItem(db.items, k.item)) else db
  }

  function FailPipelineJob(db: Db, k: JobKey, status: JobStatus, retryAt: Option<int>): (Db, bool) {
    if status !in {Pending, NeedsReview, Failed} || !RunningJob(db, k) then (db, false)
    else (db.(jobs := db.jobs[k := db.jobs[k].(status := status, retryAt := retryAt)]), true)
  }

  /** RecoverPipeline, run once when a worker starts. */
  function RecoverPipeline(db: Db, now: int): Db {
    db.(jobs := map k | k in db.jobs ::
      if db.jobs[k].status == Running then db.jobs[k].(status := Pending, retryAt := Some(now)) else db.jobs[k])
  }

  // ----- AdvancePipelineCycle -----

  datatype AdvanceResult = Blocked(waiting: bool) | Advanced | Completed

  predicate InCycle(db: Db, i: int, cycle: int) { i in db.items && db.items[i].cycle == cycle }

  function StageJobs(db: Db, cycle: int, step: nat): set<JobKey> {
    set k | k in db.jobs && k.step == step && InCycle(db, k.item, cycle)
  }

  predicate StageOpen(db: Db, cycle: int, step: nat) {
    exists k | k in StageJobs(db, cycle, step) :: db.jobs[k].status == Pending || db.jobs[k].status == Running
  }

  /** No job of the stage is running or due; only retries are outstanding. */
  predicate StageWaiting(db: Db, cycle: int, step: nat, now: int) {
    forall k | k in StageJobs(db, cycle, step) ::
      db.jobs[k].status != Running && !(db.jobs[k].status == Pending && Due(db.jobs[k].retryAt, now))
  }

  predicate SucceededAt(db: Db, item: int, step: nat) {
    JobKey(item, step) in db.jobs && db.jobs[JobKey(item, step)].status == Succeeded
  }

  function OpenStage(db: Db, cycle: int, step: nat): map<JobKey, Job> {
    map k | k in db.jobs ::
      if k.step == step + 1 && db.jobs[k].status == Waiting && InCycle(db, k.item, cycle)
      then db.jobs[k].(status := if SucceededAt(db, k.item, step) then Pending else Skipped)
      else db.jobs[k]
  }

  function MoveStage(cycles: map<int, Cycle>, cycle: int, step: nat): map<int, Cycle> {
    if cycle in cycles && cycles[cycle].status == CycleRunning
    then cycles[cycle := cycles[cycle].(activeStep := step)] else cycles
  }

  function SettleItems(db: Db, cycle: int, last: nat): map<int, Item> {
    map i | i in db.items ::
      if db.items[i].cycle != cycle then db.items[i]
      else if SucceededAt(db, i, last) then db.items[i].(status := ItemSucceeded)
      else if db.items[i].status != ItemSuperseded then db.items[i].(status := ItemFailed)
      else db.items[i]
  }

  function SettleRuns(db: Db, cycle: int): map<int, Run> {
    var all := set i | i in db.items && db.items[i].cycle == cycle;
    var succeeded := set i | i in all && db.items[i].status == ItemSucceeded;
    map r | r in db.runs ::
      if r !in RunsOf(db.items, all) then db.runs[r]
      else if r in RunsOf(db.items, succeeded) then db.runs[r].(status := Complete)
      else if db.runs[r].status != RunSuperseded then db.runs[r].(status := RunFailed)
      else db.runs[r]
  }

  function SettleCycle(db: Db, cycle: int): map<int, Cycle> {
    if cycle in db.cycles && db.cycles[cycle].status == CycleRunning then
      var failed := exists i | i in db.items :: db.items[i].cycle == cycle && db.items[i].status == ItemFailed;
      db.cycles[cycle := db.cycles[cycle].(status := if failed then CycleFailed else CycleSucceeded)]
    else db.cycles
  }

  function SourcesOf(db: Db, rows: set<int>): set<(int, Hash)>
    requires rows <= db.items.Keys
  {
    set i | i in rows :: (db.items[i].incident, db.items[i].hash)
  }

  /** The four statements both supersede helpers run: jobs, items, their runs, emptied cycles. */
  function SupersedeAndClose(db: Db, jobRows: set<int>, itemRows: set<int>, emptied: set<int>): Db {
    var items := SupersedeItems(db.items, itemRows);
    db.(jobs := SupersedeJobs(db.jobs, jobRows), items := items,
        runs := SupersedeRuns(db.runs, RunsOf(items, SupersededItems(items))),
        cycles := SupersedeCycles(db.cycles, emptied))
  }

  /** Items of automatic cycles, queued or in `statuses`, for one of the target texts. */
  function AutomaticItems(db: Db, statuses: set<CycleStatus>, targets: set<(int, Hash)>): set<int> {
    set i | i in db.items && db.items[i].cycle in db.cycles &&
            AutomaticKind(db.cycles[db.items[i].cycle].kind) && db.cycles[db.items[i].cycle].status in statuses &&
            (db.items[i].incident, db.items[i].hash) in targets
  }

  function FinishedTargets(db: Db, manual: int): set<(int, Hash)> {
    SourcesOf(db, set i | i in db.items && db.items[i].cycle == manual && db.items[i].status == ItemSucceeded)
  }

  function CyclesWithoutPending(db: Db, items: map<int, Item>): set<int> {
    set c | c in db.cycles && AutomaticKind(db.cycles[c].kind) && Active(db.cycles[c].status) &&
            !exists i | i in items :: items[i].cycle == c && items[i].status == ItemPending
  }

  /** supersedeCompletedManualTargetsTx */
  function SupersedeCompletedManualTargets(db: Db, manual: int): Db {
    var hits := AutomaticItems(db, {CycleQueued, CycleRunning}, FinishedTargets(db, manual));
    var pending := set i | i in hits && db.items[i].status == ItemPending;
    SupersedeAndClose(db, hits, pending, CyclesWithoutPending(db, SupersedeItems(db.items, pending)))
  }

  function FinishCycle(db: Db, cycle: int, kind: CycleKind): Db {
    var d1 := db.(items := SettleItems(db, cycle, if db.stepCount > 0 then db.stepCount - 1 else 0));
    var d2 := d1.(runs := SettleRuns(d1, cycle));
    var d3 := d2.(cycles := SettleCycle(d2, cycle));
    if kind == Manual then SupersedeCompletedManualTargets(d3, cycle) else d3
  }

  /** `kind` and `step` are the worker's own copies of the cycle it runs. */
  function AdvancePipelineCycle(db: Db, cycle: int, kind: CycleKind, step: nat, now: int): (Db, AdvanceResult) {
    if StageOpen(db, cycle, step) then (db, Blocked(StageWaiting(db, cycle, step, now)))
    else if step + 1 < db.stepCount then
      (db.(jobs := OpenStage(db, cycle, step), cycles := MoveStage(db.cycles, cycle, step + 1)), Advanced)
    else (FinishCycle(db, cycle, kind), Completed)
  }

  // ----- createPipelineCycleTx and its two callers -----

  /** The rows one target adds, the n-th of its request. */
  function NewItem(db: Db, target: int, n: nat): Item
    requires target in db.incidents
  {
    Item(db.nextCycle, target, db.incidents[target].hash, db.nextRun + n, ItemPending)
  }

  function NewRun(db: Db, target: int): Run
    requires target in db.incidents
  {
    Run(target, db.incidents[target].hash, true, Processing)
  }

  function NewJob(models: seq<string>, step: nat): Job
    requires step < |models|
  {
    Job(if step == 0 then Pending else Waiting, models[step], 0, None)
  }

  function NewItems(db: Db, targets: seq<int>): map<int, Item>
    requires forall t | t in targets :: t in db.incidents
  {
    if targets == [] then map[] else
      var n := |targets| - 1;
      NewItems(db, targets[..n])[db.nextItem + n := NewItem(db, targets[n], n)]
  }

  function NewRuns(db: Db, targets: seq<int>): map<int, Run>
    requires forall t | t in targets :: t in db.incidents
  {
    if targets == [] then map[] else
      var n := |targets| - 1;
      NewRuns(db, targets[..n])[db.nextRun + n := NewRun(db, targets[n])]
  }

  /** The first `count` step jobs of one item. */
  function JobsOf(item: int, models: seq<string>, count: nat): map<JobKey, Job>
    requires count <= |models|
  {
    if count == 0 then map[] else JobsOf(item, models, count - 1)[JobKey(item, count - 1) := NewJob(models, count - 1)]
  }

  function NewJobs(first: int, count: nat, models: seq<string>): map<JobKey, Job> {
    if count == 0 then map[] else NewJobs(first, count - 1, models) + JobsOf(first + count - 1, models, |models|)
  }

  lemma NewItemsRows(db: Db, targets: seq<int>)
    requires forall t | t in targets :: t in db.incidents
    ensures forall i :: i in NewItems(db, targets) <==> db.nextItem <= i < db.nextItem + |targets|
    ensures forall i | i in NewItems(db, targets) ::
      NewItems(db, targets)[i] == NewItem(db, targets[i - db.nextItem], i - db.nextItem)
  {
  }

  lemma NewRunsRows(db: Db, targets: seq<int>)
    requires forall t | t in targets :: t in db.incidents
    ensures forall r :: r in NewRuns(db, targets) <==> db.nextRun <= r < db.nextRun + |targets|
    ensures forall r | r in NewRuns(db, targets) :: NewRuns(db, targets)[r] == NewRun(db, targets[r - db.nextRun])
  {
  }

  lemma JobsOfRows(item: int, models: seq<string>, count: nat)
    requires count <= |models|
    ensures forall k :: k in JobsOf(item, models, count) <==> k.item == item && k.step < count
    ensures forall k | k in JobsOf(item, models, count) :: JobsOf(item, models, count)[k] == NewJob(models, k.step)
  {
  }

  lemma NewJobsRows(first: int, count: nat, models: seq<string>)
    ensures forall k :: k in NewJobs(first, count, models) <==> first <= k.item < first + count && k.step < |models|
    ensures forall k | k in NewJobs(first, count, models) :: NewJobs(first, count, models)[k] == NewJob(models, k.step)
  {
    if count > 0 {
      JobsOfRows(first + count - 1, models, |models|);
    }
  }

  /** A queued cycle with its items, runs and jobs, all under fresh IDs. */
  function AddRows(db: Db, cycle: Cycle, items: map<int, Item>, runs: map<int, Run>, jobs: map<JobKey, Job>, count: nat): Db {
    db.(cycles := db.cycles[db.nextCycle := cycle], items := db.items + items, runs := db.runs + runs, jobs := db.jobs + jobs,
        nextCycle := db.nextCycle + 1, nextItem := db.nextItem + count, nextRun := db.nextRun + count)
  }

  function CreateCycle(db: Db, kind: CycleKind, key: Option<RequestKey>, targets: seq<int>,
                       models: seq<string>, plans: seq<Plan>, now: int): Db
    requires forall t | t in targets :: t in db.incidents
  {
    AddRows(db, Cycle(kind, CycleQueued, 0, now, models, plans, key),
            NewItems(db, targets), NewRuns(db, targets), NewJobs(db.nextItem, |targets|, models), |targets|)
  }

  /** One round of the insert loop: a run, an item and all its step jobs. */
  function InsertTarget(db: Db, cycle: int, target: int, models: seq<string>): Db
    requires target in db.incidents
  {
    db.(runs := db.runs[db.nextRun := NewRun(db, target)],
        items := db.items[db.nextItem := Item(cycle, target, db.incidents[target].hash, db.nextRun, ItemPending)],
        jobs := db.jobs + JobsOf(db.nextItem, models, |models|), nextItem := db.nextItem + 1, nextRun := db.nextRun + 1)
  }

  lemma NewItemsGrow(db: Db, targets: seq<int>, t: nat)
    requires t < |targets| && forall x | x in targets :: x in db.incidents
    ensures db.items + NewItems(db, targets[..t + 1]) ==
            (db.items + NewItems(db, targets[..t]))[db.nextItem + t := NewItem(db, targets[t], t)]
  {
    assert targets[..t + 1][..t] == targets[..t];
    MergeBuild(db.items, NewItems(db, targets[..t]), db.nextItem + t, NewItem(db, targets[t], t));
  }

  lemma NewRunsGrow(db: Db, targets: seq<int>, t: nat)
    requires t < |targets| && forall x | x in targets :: x in db.incidents
    ensures db.runs + NewRuns(db, targets[..t + 1]) ==
            (db.runs + NewRuns(db, targets[..t]))[db.nextRun + t := NewRun(db, targets[t])]
  {
    assert targets[..t + 1][..t] == targets[..t];
    MergeBuild(db.runs, NewRuns(db, targets[..t]), db.nextRun + t, NewRun(db, targets[t]));
  }

  lemma NewJobsGrow(jobs: map<JobKey, Job>, first: int, t: nat, models: seq<string>)
    ensures jobs + NewJobs(first, t + 1, models) == jobs + NewJobs(first, t, models) + JobsOf(first + t, models, |models|)
  {
    var earlier, added := NewJobs(first, t, models), JobsOf(first + t, models, |models|);
    calc {
      jobs + NewJobs(first, t + 1, models);
      jobs + (earlier + added);
      { MergeMerge(jobs, earlier, added); }
      jobs + earlier + added;
    }
  }

  lemma InsertAfter(db: Db, cycle: Cycle, items: map<int, Item>, runs: map<int, Run>, jobs: map<JobKey, Job>, n: nat,
                    target: int, models: seq<string>, items': map<int, Item>, runs': map<int, Run>, jobs': map<JobKey, Job>)
    requires target in db.incidents
    requires db.items + items' == (db.items + items)[db.nextItem + n := NewItem(db, target, n)]
    requires db.runs + runs' == (db.runs + runs)[db.nextRun + n := NewRun(db, target)]
    requires db.jobs + jobs' == db.jobs + jobs + JobsOf(db.nextItem + n, models, |models|)
    ensures AddRows(db, cycle, items', runs', jobs', n + 1) == InsertTarget(AddRows(db, cycle, items, runs, jobs, n), db.nextCycle, target, models)
  {
    var a, b := AddRows(db, cycle, items', runs', jobs', n + 1), InsertTarget(AddRows(db, cycle, items, runs, jobs, n), db.nextCycle, target, models);
    assert a.items == b.items;
    assert a.runs == b.runs;
    assert a.jobs == b.jobs;
  }

  lemma CreateGrows(db: Db, kind: CycleKind, key: Option<RequestKey>, targets: seq<int>, t: nat,
                    models: seq<string>, plans: seq<Plan>, now: int)
    requires t < |targets| && forall x | x in targets :: x in db.incidents
    ensures CreateCycle(db, kind, key, targets[..t + 1], models, plans, now) ==
            InsertTarget(CreateCycle(db, kind, key, targets[..t], models, plans, now), db.nextCycle, targets[t], models)
  {
    NewItemsGrow(db, targets, t);
    NewRunsGrow(db, targets, t);
    NewJobsGrow(db.jobs, db.nextItem, t, models);
    InsertAfter(db, Cycle(kind, CycleQueued, 0, now, models, plans, key),
                NewItems(db, targets[..t]), NewRuns(db, targets[..t]), NewJobs(db.nextItem, t, models), t, targets[t], models,
                NewItems(db, targets[..t + 1]), NewRuns(db, targets[..t + 1]), NewJobs(db.nextItem, t + 1, models));
  }

  lemma CreateNothing(db: Db, kind: CycleKind, key: Option<RequestKey>, models: seq<string>, plans: seq<Plan>, now: int)
    ensures CreateCycle(db, kind, key, [], models, plans, now) ==
            db.(cycles := db.cycles[db.nextCycle := Cycle(kind, CycleQueued, 0, now, models, plans, key)], nextCycle := db.nextCycle + 1)
  {
    MergeEmpty(db.items);
    MergeEmpty(db.runs);
    MergeEmpty(db.jobs);
  }

  /** The latest publication first, then the position; two reports of one document differ in position. */
  function TargetOrder(db: Db): (int, int) -> bool {
    (a: int, b: int) =>
      a in db.incidents && b in db.incidents &&
      (db.incidents[a].publishedAt > db.incidents[b].publishedAt ||
       (db.incidents[a].publishedAt == db.incidents[b].publishedAt &&
        (db.incidents[a].position < db.incidents[b].position ||
         (db.incidents[a].position == db.incidents[b].position && a < b))))
  }

  lemma TargetOrderIsTotal(db: Db, rows: set<int>)
    requires rows <= db.incidents.Keys
    ensures StrictOrder(rows, TargetOrder(db))
  {
  }

  function ManualTargets(db: Db, incident: Option<int>, reprocessAll: bool): set<int> {
    set i | i in db.incidents && db.incidents[i].hasBody &&
            (if incident.Some? then i == incident.value else
             reprocessAll || !exists r | r in db.runs ::
               db.runs[r].incident == i && db.runs[r].hash == db.incidents[i].hash && db.runs[r].status == Complete)
  }

  function ScheduledTargets(db: Db): set<int> {
    set i | i in db.incidents && db.incidents[i].hasBody && db.incidents[i].createdAt > db.cutover &&
            !exists r | r in db.runs :: db.runs[r].incident == i && db.runs[r].hash == db.incidents[i].hash && db.runs[r].current &&
              (db.runs[r].status == Complete || db.runs[r].status == RunFailed)
  }

  function QueuedTargets(db: Db, manual: int): set<(int, Hash)> {
    SourcesOf(db, set i | i in db.items && db.items[i].cycle == manual)
  }

  function CyclesAllSuperseded(db: Db, items: map<int, Item>): set<int> {
    set c | c in db.cycles && AutomaticKind(db.cycles[c].kind) && db.cycles[c].status == CycleQueued &&
            !exists i | i in items :: items[i].cycle == c && items[i].status != ItemSuperseded
  }

  /** supersedeQueuedAutomaticTargetsTx; running cycles are deliberately left untouched. */
  function SupersedeQueuedAutomaticTargets(db: Db, manual: int): Db {
    var hits := AutomaticItems(db, {CycleQueued}, QueuedTargets(db, manual));
    SupersedeAndClose(db, hits, hits, CyclesAllSuperseded(db, SupersedeItems(db.items, hits)))
  }

  datatype RequestResult = Coalesced(cycle: int, current: nat) | Created(cycle: int, requested: nat) | NothingToDo | NotFound

  predicate QueuedRequest(db: Db, c: int, key: RequestKey) {
    c in db.cycles && db.cycles[c].kind == Manual && db.cycles[c].status == CycleQueued && db.cycles[c].requestKey == Some(key)
  }

  function QueuedRequests(db: Db, key: RequestKey): set<int> {
    set c | c in db.cycles && QueuedRequest(db, c, key)
  }

  function ManualKey(db: Db, models: seq<string>, plans: seq<Plan>, rows: set<int>): RequestKey
    requires rows <= db.incidents.Keys
  {
    RequestKey(models, plans, map i | i in rows :: db.incidents[i].hash)
  }

  function CreateManualPipelineCycle(db: Db, models: seq<string>, plans: seq<Plan>, incident: Option<int>,
                                     reprocessAll: bool, now: int): (Db, RequestResult)
  {
    var rows := ManualTargets(db, incident, reprocessAll);
    var key := ManualKey(db, models, plans, rows);
    var queued := QueuedRequests(db, key);
    if queued != {} then
      (db, Coalesced(First(queued, (a: int, b: int) => a < b), |rows|))
    else if rows == {} then (db, if incident.Some? then NotFound else NothingToDo)
    else
      TargetOrderIsTotal(db, rows);
      var created := CreateCycle(db, Manual, Some(key), Sorted(rows, TargetOrder(db)), models, plans, now);
      (SupersedeQueuedAutomaticTargets(created, db.nextCycle), Created(db.nextCycle, |rows|))
  }

  // ----- ActivateNextPipelineCycle, suspension and interruption -----

  function KindRank(kind: CycleKind): nat {
    match kind case Manual => 0 case Continuation => 1 case Scheduled => 2
  }

  function CycleOrder(cycles: map<int, Cycle>): (int, int) -> bool {
    (a: int, b: int) =>
      a in cycles && b in cycles &&
      (KindRank(cycles[a].kind) < KindRank(cycles[b].kind) ||
       (KindRank(cycles[a].kind) == KindRank(cycles[b].kind) &&
        (cycles[a].queuedAt < cycles[b].queuedAt || (cycles[a].queuedAt == cycles[b].queuedAt && a < b))))
  }

  lemma CycleOrderIsTotal(cycles: map<int, Cycle>, rows: set<int>)
    requires rows <= cycles.Keys
    ensures StrictOrder(rows, CycleOrder(cycles))
  {
  }

  function SelectCycle(cycles: map<int, Cycle>, rows: set<int>): (selected: Option<int>)
    requires rows <= cycles.Keys
    ensures selected.None? <==> rows == {}
    ensures selected.Some? ==> IsFirst(rows, CycleOrder(cycles), selected.value)
  {
    if rows == {} then None else
      CycleOrderIsTotal(cycles, rows);
      Some(First(rows, CycleOrder(cycles)))
  }

  function RunningCycles(cycles: map<int, Cycle>): set<int> {
    set c | c in cycles && cycles[c].status == CycleRunning
  }

  function QueuedCycles(cycles: map<int, Cycle>, automatic: bool): set<int> {
    set c | c in cycles && cycles[c].status == CycleQueued && (automatic || cycles[c].kind == Manual)
  }

  function SetCycleStatus(cycles: map<int, Cycle>, cycle: int, status: CycleStatus): map<int, Cycle>
    requires cycle in cycles
  {
    cycles[cycle := cycles[cycle].(status := status)]
  }

  /** The rest of activation once no cycle is running: queued work first, then a new schedule. */
  function ActivateQueued(db: Db, models: seq<string>, allowScheduled: bool, now: int): (Db, Option<int>) {
    var queued := SelectCycle(db.cycles, QueuedCycles(db.cycles, db.automatic));
    var rows := ScheduledTargets(db);
    if queued.Some? then (db.(cycles := SetCycleStatus(db.cycles, queued.value, CycleRunning)), queued)
    else if !(allowScheduled && db.automatic) || rows == {} then (db, None)
    else
      TargetOrderIsTotal(db, rows);
      var created := CreateCycle(db, Scheduled, None, Sorted(rows, TargetOrder(db)), models, [], now);
      (created.(cycles := SetCycleStatus(created.cycles, db.nextCycle, CycleRunning)), Some(db.nextCycle))
  }

  function ActivateNextPipelineCycle(db: Db, models: seq<string>, allowScheduled: bool, now: int): (Db, Option<int>) {
    if !db.processing then (db, None) else
      var running := SelectCycle(db.cycles, RunningCycles(db.cycles));
      if running.Some? && (db.automatic || db.cycles[running.value].kind == Manual) then (db, running)
      else
        var freed := if running.Some? then db.(cycles := SetCycleStatus(db.cycles, running.value, CycleQueued)) else db;
        ActivateQueued(freed, models, allowScheduled, now)
  }

  predicate RunningAutomatic(db: Db, cycle: int) {
    cycle in db.cycles && db.cycles[cycle].status == CycleRunning && AutomaticKind(db.cycles[cycle].kind)
  }

  function SuspendAutomaticCycle(db: Db, cycle: int): (Db, bool) {
    if RunningAutomatic(db, cycle)
    then (db.(cycles := SetCycleStatus(db.cycles, cycle, CycleQueued)), true) else (db, false)
  }

  predicate HasQueuedManualCycle(db: Db) {
    exists c | c in db.cycles :: db.cycles[c].kind == Manual && db.cycles[c].status == CycleQueued
  }

  function MoveItems(items: map<int, Item>, from: int, to: int): map<int, Item> {
    map i | i in items ::
      if items[i].cycle == from && items[i].status == ItemPending then items[i].(cycle := to) else items[i]
  }

  /** The pending items of a cycle move to its continuation, which keeps step, models and plans. */
  function Continue(db: Db, cycle: int, now: int): Db
    requires cycle in db.cycles
  {
    var from := db.cycles[cycle];
    var next := Cycle(Continuation, CycleQueued, from.activeStep, now, from.models, from.plans, None);
    db.(cycles := SetCycleStatus(db.cycles[db.nextCycle := next], cycle, CycleFailed),
        items := MoveItems(db.items, cycle, db.nextCycle),
        nextCycle := db.nextCycle + 1)
  }

  /** None when the source refuses: only a running automatic cycle may be interrupted. */
  function InterruptBlockedAutomaticCycle(db: Db, cycle: int, now: int): (Db, Option<int>) {
    if !RunningAutomatic(db, cycle) then (db, None)
    else if db.cycles[cycle].kind == Continuation then
      (db.(cycles := SetCycleStatus(db.cycles, cycle, CycleQueued)), Some(cycle))
    else (Continue(db, cycle, now), Some(db.nextCycle))
  }

  /** CancelAllAIWork, its statements on the canonical tables. */
  function CancelAll(db: Db): Db {
    db.(automatic := false, jobs := CancelJobs(db.jobs), items := CancelItems(db.items),
        runs := SupersedeRuns(db.runs, db.runs.Keys), cycles := CancelCycles(db.cycles))
  }

  function CancelJobs(jobs: map<JobKey, Job>): map<JobKey, Job> {
    map k | k in jobs :: if Open(jobs[k].status) then jobs[k].(status := Superseded, retryAt := None) else jobs[k]
  }

  function CancelItems(items: map<int, Item>): map<int, Item> {
    map i | i in items :: if items[i].status == ItemPending then items[i].(status := ItemSuperseded) else items[i]
  }

  function CancelCycles(cycles: map<int, Cycle>): map<int, Cycle> {
    map c | c in cycles :: if Active(cycles[c].status) then cycles[c].(status := CycleSuperseded) else cycles[c]
  }
}
