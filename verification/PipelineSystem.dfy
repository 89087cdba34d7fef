/** One worker and any number of operators acting on the pipeline tables in any order.

A step is one transaction. Worker steps follow the worker's own position in its cycle;
operator steps are possible at every moment, in particular while a provider call is in flight. */
module PipelineSystem {
  import opened Rows
  import opened Text
  import opened PipelineTables
  import opened PipelineInvariant

  /** Where the worker stands. `kind` and `step` are its copies of the cycle it processes. */
  datatype Worker =
    | Down
    | Idle
    | Holding(cycle: int, kind: CycleKind, step: nat)
    | InFlight(cycle: int, kind: CycleKind, step: nat, job: JobKey, cancelled: bool)

  datatype System = System(db: Db, worker: Worker)

  datatype Op =
    // worker
    | Activate(models: seq<string>, allowScheduled: bool, now: int)
    | Claim(now: int)
    | CompleteJob(outputs: map<string, string>, leave: bool)
    | FailJob(status: JobStatus, retryAt: Option<int>, leave: bool)
    | DropCancelled
    | Advance(now: int)
    | Suspend
    | Yield(now: int)
    | Leave
    // process
    | Crash
    | Restart(now: int)
    // operators and ingestion
    | RequestManual(models: seq<string>, plans: seq<Plan>, incident: Option<int>, reprocessAll: bool, now: int)
    | SetAutomatic(enabled: bool)
    | SetProcessing(enabled: bool)
    | Cancel
    | ReplaceSource(id: int, text: Incident)

  function Back(worker: Worker, leave: bool): Worker
    requires worker.InFlight?
  {
    if leave then Idle else Holding(worker.cycle, worker.kind, worker.step)
  }

  // ----- worker steps; one that does not fit the worker's position changes nothing -----

  function ActivateStep(db: Db, models: seq<string>, allowScheduled: bool, now: int): System {
    if |models| != db.stepCount then System(db, Idle) else
      var (after, cycle) := ActivateNextPipelineCycle(db, models, allowScheduled, now);
      System(after, if cycle.Some? && cycle.value in after.cycles
                    then Holding(cycle.value, after.cycles[cycle.value].kind, after.cycles[cycle.value].activeStep)
                    else Idle)
  }

  function ClaimStep(db: Db, worker: Worker, now: int): System
    requires worker.Holding?
  {
    var (after, job) := ClaimPipelineJob(db, worker.cycle, worker.step, now);
    System(after, if job.Some? then InFlight(worker.cycle, worker.kind, worker.step, job.value, false) else worker)
  }

  function AdvanceStep(db: Db, worker: Worker, now: int): System
    requires worker.Holding?
  {
    var (after, result) := AdvancePipelineCycle(db, worker.cycle, worker.kind, worker.step, now);
    System(after, match result
                  case Blocked(_) => worker
                  case Advanced => Holding(worker.cycle, worker.kind, worker.step + 1)
                  case Completed => Idle)
  }

  function YieldStep(db: Db, worker: Worker, now: int): System
    requires worker.Holding?
  {
    if AutomaticKind(worker.kind) && HasQueuedManualCycle(db)
    then System(InterruptBlockedAutomaticCycle(db, worker.cycle, now).0, Idle) else System(db, worker)
  }

  /** Invalid outputs are reported as a failure of the job, which is still running. */
  function CompleteStep(db: Db, worker: Worker, outputs: map<string, string>, leave: bool): System
    requires worker.InFlight?
  {
    var (after, stored) := CompletePipelineJob(db, worker.job, outputs);
    System(after, if stored then Back(worker, leave) else if RunningJob(db, worker.job) then worker else Idle)
  }

  function FailStep(db: Db, worker: Worker, status: JobStatus, retryAt: Option<int>, leave: bool): System
    requires worker.InFlight?
  {
    if status !in {Pending, NeedsReview, Failed} then System(db, worker) else
      var (after, stored) := FailPipelineJob(db, worker.job, status, retryAt);
      System(after, if stored then Back(worker, leave) else Idle)
  }

  function HoldingStep(db: Db, worker: Worker, op: Op): System
    requires worker.Holding?
  {
    match op
    case Claim(now) => ClaimStep(db, worker, now)
    case Advance(now) => AdvanceStep(db, worker, now)
    case Suspend => System(SuspendAutomaticCycle(db, worker.cycle).0, Idle)
    case Yield(now) => YieldStep(db, worker, now)
    case Leave => System(db, Idle)
    case _ => System(db, worker)
  }

  function InFlightStep(db: Db, worker: Worker, op: Op): System
    requires worker.InFlight?
  {
    match op
    case CompleteJob(outputs, leave) => CompleteStep(db, worker, outputs, leave)
    case FailJob(status, retryAt, leave) => FailStep(db, worker, status, retryAt, leave)
    // The call's context was cancelled: the worker returns without touching the tables.
    case DropCancelled => System(db, if worker.cancelled then Idle else worker)
    case _ => System(db, worker)
  }

  function WorkerStep(s: System, op: Op): System {
    if op == Crash then System(s.db, Down) else
      match s.worker
      case Down => if op.Restart? then System(RecoverPipeline(s.db, op.now), Idle) else s
      case Idle => if op.Activate? then ActivateStep(s.db, op.models, op.allowScheduled, op.now) else s
      case Holding(_, _, _) => HoldingStep(s.db, s.worker, op)
      case InFlight(_, _, _, _, _) => InFlightStep(s.db, s.worker, op)
  }

  function RequestStep(db: Db, op: Op): Db
    requires op.RequestManual?
  {
    if |op.models| != db.stepCount then db
    else CreateManualPipelineCycle(db, op.models, op.plans, op.incident, op.reprocessAll, op.now).0
  }

  function Apply(s: System, op: Op): System {
    match op
    case RequestManual(_, _, _, _, _) => s.(db := RequestStep(s.db, op))
    case SetAutomatic(enabled) => s.(db := s.db.(automatic := enabled))
    case SetProcessing(enabled) => s.(db := s.db.(processing := enabled))
    case Cancel =>
      System(CancelAll(s.db), if s.worker.InFlight? then s.worker.(cancelled := true) else s.worker)
    case ReplaceSource(id, text) => s.(db := s.db.(incidents := s.db.incidents[id := text]))
    case _ => WorkerStep(s, op)
  }

  function Run(s: System, ops: seq<Op>): System
    decreases |ops|
  {
    if ops == [] then s else Run(Apply(s, ops[0]), ops[1..])
  }

  function Empty(stepCount: nat, cutover: int): System {
    System(Db(true, true, stepCount, cutover, map[], map[], map[], map[], map[], map[], 1, 1, 1), Down)
  }

  // ----- the invariant of the whole system -----

  ghost predicate SysInv(s: System) {
    Inv(s.db) && WorkerOk(s)
  }

  /** A job runs exactly while the worker's uncancelled call for it is in flight. */
  ghost predicate WorkerOk(s: System) {
    match s.worker
    case Down => true
    case Idle => NoRunningJob(s.db)
    case Holding(cycle, kind, step) => NoRunningJob(s.db) && Held(s.db, cycle, kind, step)
    case InFlight(cycle, kind, step, job, cancelled) =>
      && Held(s.db, cycle, kind, step)
      && job.step == step && InCycle(s.db, job.item, cycle) && job in s.db.jobs
      && (forall k | RunningJob(s.db, k) :: k == job)
      && (!cancelled ==> RunningJob(s.db, job))
      && (cancelled ==> s.db.jobs[job].status == Superseded)
  }

  lemma NoRunning(db: Db)
    requires forall k :: !RunningJob(db, k)
    ensures NoRunningJob(db)
  {
    forall k | k in db.jobs ensures db.jobs[k].status != Running { assert !RunningJob(db, k); }
  }

  lemma HeldAfterClaim(db: Db, s: Db, cycle: int, kind: CycleKind, step: nat)
    requires Held(db, cycle, kind, step) && s.cycles == db.cycles && s.stepCount == db.stepCount
    ensures Held(s, cycle, kind, step)
  {
  }

  /** What an operator's request leaves alone: started cycles, running jobs and superseded jobs. */
  ghost predicate LeavesStarted(db: Db, s: Db) {
    && s.stepCount == db.stepCount
    && (forall c | c in db.cycles && db.cycles[c].status != CycleQueued :: c in s.cycles && s.cycles[c] == db.cycles[c])
    && (forall k | RunningJob(db, k) :: RunningJob(s, k))
    && (forall k | RunningJob(s, k) :: RunningJob(db, k))
    && (forall i | i in db.items :: i in s.items && s.items[i].cycle == db.items[i].cycle)
  }

  lemma AddedRowsLeaveStarted(db: Db, cycle: Cycle, items: map<int, Item>, runs: map<int, PipelineTables.Run>, jobs: map<JobKey, Job>, count: nat)
    requires Shape(db) && FreshRows(db, items, runs, jobs, count)
    ensures LeavesStarted(db, AddRows(db, cycle, items, runs, jobs, count))
  {
    AddedRowsExtend(db, cycle, items, runs, jobs, count);
    var s := AddRows(db, cycle, items, runs, jobs, count);
    forall k | RunningJob(s, k) ensures RunningJob(db, k) {}
  }

  lemma SupersedeQueuedLeavesStarted(db: Db, manual: int)
    requires Inv(db)
    ensures LeavesStarted(db, SupersedeQueuedAutomaticTargets(db, manual))
  {
    var s := SupersedeQueuedAutomaticTargets(db, manual);
    forall k | RunningJob(db, k) ensures RunningJob(s, k) { assert JobOk(db, k); }
  }

  lemma RequestLeavesStarted(db: Db, op: Op)
    requires Inv(db) && op.RequestManual?
    ensures LeavesStarted(db, RequestStep(db, op))
  {
    if |op.models| == db.stepCount {
      var rows := ManualTargets(db, op.incident, op.reprocessAll);
      var key := ManualKey(db, op.models, op.plans, rows);
      if QueuedRequests(db, key) == {} && rows != {} {
        TargetOrderIsTotal(db, rows);
        CreatedLeavesStarted(db, key, Sorted(rows, TargetOrder(db)), op.models, op.plans, op.now);
      }
    }
  }

  lemma CreatedLeavesStarted(db: Db, key: RequestKey, targets: seq<int>, models: seq<string>, plans: seq<Plan>, now: int)
    requires Inv(db) && Creatable(db, targets, models)
    requires QueuedRequests(db, key) == {}
    ensures LeavesStarted(db, SupersedeQueuedAutomaticTargets(CreateCycle(db, Manual, Some(key), targets, models, plans, now), db.nextCycle))
  {
    var created := CreateCycle(db, Manual, Some(key), targets, models, plans, now);
    forall c ensures !QueuedRequest(db, c, key) { assert c !in QueuedRequests(db, key); }
    CreateKeepsInv(db, Manual, Some(key), targets, models, plans, now);
    NewRowsAreFresh(db, targets, models);
    AddedRowsLeaveStarted(db, Cycle(Manual, CycleQueued, 0, now, models, plans, Some(key)),
                          NewItems(db, targets), NewRuns(db, targets), NewJobs(db.nextItem, |targets|, models), |targets|);
    SupersedeQueuedLeavesStarted(created, db.nextCycle);
    LeavesStartedTransitive(db, created, SupersedeQueuedAutomaticTargets(created, db.nextCycle));
  }

  lemma LeavesStartedTransitive(a: Db, b: Db, c: Db)
    requires LeavesStarted(a, b) && LeavesStarted(b, c)
    ensures LeavesStarted(a, c)
  {
  }

  lemma WorkerAfterRequest(db: Db, s: Db, worker: Worker)
    requires WorkerOk(System(db, worker)) && LeavesStarted(db, s) && Keeps(db, s)
    ensures WorkerOk(System(s, worker))
  {
    if worker.Idle? || worker.Holding? { forall k ensures !RunningJob(s, k) {} NoRunning(s); }
  }

  // ----- every step keeps the invariant -----

  lemma ActivateStepOk(db: Db, models: seq<string>, allowScheduled: bool, now: int)
    requires Inv(db) && NoRunningJob(db)
    ensures var s := ActivateStep(db, models, allowScheduled, now); SysInv(s) && Keeps(db, s.db)
  {
    if |models| == db.stepCount {
      ActivateKeepsInv(db, models, allowScheduled, now);
    }
  }

  lemma ClaimStepOk(db: Db, worker: Worker, now: int)
    requires Inv(db) && worker.Holding? && WorkerOk(System(db, worker))
    ensures var s := ClaimStep(db, worker, now); SysInv(s) && Keeps(db, s.db)
  {
    ClaimKeepsInv(db, worker.cycle, worker.step, now);
    var (after, job) := ClaimPipelineJob(db, worker.cycle, worker.step, now);
    HeldAfterClaim(db, after, worker.cycle, worker.kind, worker.step);
    assert OneRunningJob(after);
  }

  lemma AfterInFlight(db: Db, after: Db, worker: Worker, leave: bool)
    requires WorkerOk(System(db, worker)) && worker.InFlight?
    requires NoRunningJob(after) && after.cycles == db.cycles && after.stepCount == db.stepCount
    ensures WorkerOk(System(after, Back(worker, leave)))
  {
    HeldAfterClaim(db, after, worker.cycle, worker.kind, worker.step);
  }

  lemma CompleteStepOk(db: Db, worker: Worker, outputs: map<string, string>, leave: bool)
    requires Inv(db) && worker.InFlight? && WorkerOk(System(db, worker))
    ensures var s := CompleteStep(db, worker, outputs, leave); SysInv(s) && Keeps(db, s.db)
  {
    CompleteKeepsInv(db, worker.job, outputs);
    var (after, stored) := CompletePipelineJob(db, worker.job, outputs);
    if stored { AfterInFlight(db, after, worker, leave); }
    else { KeepsItself(db); NotRunningIsIdle(db, worker); }
  }

  lemma FailStepOk(db: Db, worker: Worker, status: JobStatus, retryAt: Option<int>, leave: bool)
    requires Inv(db) && worker.InFlight? && WorkerOk(System(db, worker))
    ensures var s := FailStep(db, worker, status, retryAt, leave); SysInv(s) && Keeps(db, s.db)
  {
    if status !in {Pending, NeedsReview, Failed} { KeepsItself(db); return; }
    FailKeepsInv(db, worker.job, status, retryAt);
    var (after, stored) := FailPipelineJob(db, worker.job, status, retryAt);
    if stored { AfterInFlight(db, after, worker, leave); }
    else { KeepsItself(db); NotRunningIsIdle(db, worker); }
  }

  lemma KeepsItself(db: Db)
    ensures Keeps(db, db)
  {
  }

  lemma NotRunningIsIdle(db: Db, worker: Worker)
    requires WorkerOk(System(db, worker)) && worker.InFlight?
    ensures !RunningJob(db, worker.job) ==> NoRunningJob(db)
  {
    if !RunningJob(db, worker.job) {
      forall k ensures !RunningJob(db, k) {}
      NoRunning(db);
    }
  }

  lemma AdvanceStepOk(db: Db, worker: Worker, now: int)
    requires Inv(db) && worker.Holding? && WorkerOk(System(db, worker))
    ensures var s := AdvanceStep(db, worker, now); SysInv(s) && Keeps(db, s.db)
  {
    AdvanceKeepsInv(db, worker.cycle, worker.kind, worker.step, now);
  }

  lemma YieldStepOk(db: Db, worker: Worker, now: int)
    requires Inv(db) && worker.Holding? && WorkerOk(System(db, worker))
    ensures var s := YieldStep(db, worker, now); SysInv(s) && Keeps(db, s.db)
  {
    InterruptKeepsInv(db, worker.cycle, now);
  }

  lemma CancelStepOk(s: System)
    requires SysInv(s)
    ensures SysInv(Apply(s, Cancel)) && Keeps(s.db, Apply(s, Cancel).db)
  {
    CancelKeepsInv(s.db);
    CancelSettles(s.db);
    CancelledWorker(s);
  }

  lemma CancelledWorker(s: System)
    requires WorkerOk(s)
    ensures WorkerOk(Apply(s, Cancel))
  {
    CancelSettles(s.db);
  }

  lemma ControlStepOk(db: Db, after: Db, worker: Worker)
    requires SysInv(System(db, worker)) && SameRows(db, after)
    ensures SysInv(System(after, worker)) && Keeps(db, after)
  {
    SameRowsKeepInv(db, after);
    assert forall k :: RunningJob(after, k) <==> RunningJob(db, k);
  }

  lemma RequestStepOk(db: Db, worker: Worker, op: Op)
    requires SysInv(System(db, worker)) && op.RequestManual?
    ensures var after := RequestStep(db, op); SysInv(System(after, worker)) && Keeps(db, after)
  {
    if |op.models| == db.stepCount {
      CreateManualKeepsInv(db, op.models, op.plans, op.incident, op.reprocessAll, op.now);
      RequestLeavesStarted(db, op);
      WorkerAfterRequest(db, RequestStep(db, op), worker);
    } else {
      ControlStepOk(db, db, worker);
    }
  }

  lemma OperatorStepOk(s: System, op: Op)
    requires SysInv(s) && (op.RequestManual? || op.SetAutomatic? || op.SetProcessing? || op.Cancel? || op.ReplaceSource?)
    ensures SysInv(Apply(s, op)) && Keeps(s.db, Apply(s, op).db)
  {
    match op
    case RequestManual(_, _, _, _, _) => RequestStepOk(s.db, s.worker, op);
    case Cancel => CancelStepOk(s);
    case _ => ControlStepOk(s.db, Apply(s, op).db, s.worker);
  }

  lemma HoldingStepOk(db: Db, worker: Worker, op: Op)
    requires SysInv(System(db, worker)) && worker.Holding?
    ensures var s := HoldingStep(db, worker, op); SysInv(s) && Keeps(db, s.db)
  {
    KeepsItself(db);
    match op
    case Claim(now) => ClaimStepOk(db, worker, now);
    case Advance(now) => AdvanceStepOk(db, worker, now);
    case Suspend => SuspendKeepsInv(db, worker.cycle);
    case Yield(now) => YieldStepOk(db, worker, now);
    case _ =>
  }

  lemma DropStepOk(db: Db, worker: Worker)
    requires SysInv(System(db, worker)) && worker.InFlight?
    ensures SysInv(System(db, if worker.cancelled then Idle else worker)) && Keeps(db, db)
  {
    KeepsItself(db);
    NotRunningIsIdle(db, worker);
  }

  lemma InFlightStepOk(db: Db, worker: Worker, op: Op)
    requires SysInv(System(db, worker)) && worker.InFlight?
    ensures var s := InFlightStep(db, worker, op); SysInv(s) && Keeps(db, s.db)
  {
    if op.CompleteJob? {
      CompleteStepOk(db, worker, op.outputs, op.leave);
    } else if op.FailJob? {
      FailStepOk(db, worker, op.status, op.retryAt, op.leave);
    } else {
      DropStepOk(db, worker);
    }
  }

  lemma WorkerStepOk(s: System, op: Op)
    requires SysInv(s)
    ensures SysInv(WorkerStep(s, op)) && Keeps(s.db, WorkerStep(s, op).db)
  {
    KeepsItself(s.db);
    if op != Crash {
      match s.worker
      case Holding(_, _, _) => HoldingStepOk(s.db, s.worker, op);
      case InFlight(_, _, _, _, _) => InFlightStepOk(s.db, s.worker, op);
      case Idle => if op.Activate? { ActivateStepOk(s.db, op.models, op.allowScheduled, op.now); }
      case Down => if op.Restart? { RecoverKeepsInv(s.db, op.now); }
    }
  }

  /** One step of anybody keeps the invariant and undoes nothing that is settled. */
  lemma StepKeepsSysInv(s: System, op: Op)
    requires SysInv(s)
    ensures SysInv(Apply(s, op)) && Keeps(s.db, Apply(s, op).db)
  {
    match op
    case RequestManual(_, _, _, _, _) => OperatorStepOk(s, op);
    case SetAutomatic(_) => OperatorStepOk(s, op);
    case SetProcessing(_) => OperatorStepOk(s, op);
    case Cancel => OperatorStepOk(s, op);
    case ReplaceSource(_, _) => OperatorStepOk(s, op);
    case _ => WorkerStepOk(s, op);
  }

  lemma {:induction false} RunKeepsSysInv(s: System, ops: seq<Op>)
    requires SysInv(s)
    ensures SysInv(Run(s, ops)) && Keeps(s.db, Run(s, ops).db)
    decreases |ops|
  {
    if ops != [] {
      StepKeepsSysInv(s, ops[0]);
      RunKeepsSysInv(Apply(s, ops[0]), ops[1..]);
      KeepsTransitive(s.db, Apply(s, ops[0]).db, Run(s, ops).db);
    }
  }

  // ----- the protocol's promises -----

  /** A state that some sequence of steps reaches from the empty tables. */
  ghost predicate Reachable(s: System) {
    exists stepCount: nat, cutover, ops :: stepCount > 0 && s == Run(Empty(stepCount, cutover), ops)
  }

  lemma EmptyIsOk(stepCount: nat, cutover: int)
    requires stepCount > 0
    ensures SysInv(Empty(stepCount, cutover))
  {
  }

  lemma ReachableIsOk(s: System)
    requires Reachable(s)
    ensures SysInv(s)
  {
    var stepCount: nat, cutover, ops :| stepCount > 0 && s == Run(Empty(stepCount, cutover), ops);
    EmptyIsOk(stepCount, cutover);
    RunKeepsSysInv(Empty(stepCount, cutover), ops);
  }

  /** The place of one job: it runs only at the active step of the running cycle, jobs below that step
  are terminal, jobs above it wait or are superseded, and only pending items of unfinished cycles own
  unfinished jobs. */
  ghost predicate InPlace(db: Db, k: JobKey)
    requires k in db.jobs
  {
    && k.item in db.items && db.items[k.item].cycle in db.cycles
    && var (status, item) := (db.jobs[k].status, db.items[k.item]);
       var cycle := db.cycles[item.cycle];
    && (status == Running ==> cycle.status == CycleRunning && k.step == cycle.activeStep)
    && (k.step < cycle.activeStep ==> !Open(status))
    && (k.step > cycle.activeStep ==> status == Waiting || status == Superseded)
    && (item.status != ItemPending || !Active(cycle.status) ==> !Open(status))
  }

  /** In every reachable interleaving at most one cycle and one step job run, and every job is in its place. */
  lemma EveryInterleavingIsDisciplined(s: System)
    requires Reachable(s)
    ensures forall c, d | c in s.db.cycles && d in s.db.cycles &&
                          s.db.cycles[c].status == CycleRunning && s.db.cycles[d].status == CycleRunning :: c == d
    ensures forall k, l | RunningJob(s.db, k) && RunningJob(s.db, l) :: k == l
    ensures forall k | k in s.db.jobs :: InPlace(s.db, k)
  {
    ReachableIsOk(s);
    forall k | k in s.db.jobs ensures InPlace(s.db, k) {
      assert JobOk(s.db, k) && ItemOk(s.db, k.item);
    }
  }

  /** A presentation is published exactly when every step of its item succeeded ... */
  lemma PublishedMeansEveryStepSucceeded(s: System, i: int)
    requires Reachable(s) && i in s.db.items
    ensures s.db.items[i].run in s.db.runs
    ensures s.db.runs[s.db.items[i].run].status == Complete <==>
              forall n: nat | n < s.db.stepCount :: SucceededAt(s.db, i, n)
  {
    ReachableIsOk(s);
    assert ItemOk(s.db, i);
    assert JobKey(i, s.db.stepCount - 1) in s.db.jobs && JobOk(s.db, JobKey(i, s.db.stepCount - 1));
  }

  /** ... a step is attempted or done only after every step before it succeeded ... */
  lemma StepsRunInOrder(s: System, k: JobKey)
    requires Reachable(s) && k in s.db.jobs && s.db.jobs[k].status in {Pending, Running, Succeeded}
    ensures forall n: nat | n < k.step :: SucceededAt(s.db, k.item, n)
  {
    ReachableIsOk(s);
    assert JobOk(s.db, k);
  }

  /** ... and nothing later takes it back: complete runs stay complete, terminal jobs and cycles stay as
  they are and no row disappears, whatever is claimed, advanced, superseded, yielded or cancelled. */
  lemma SettledWorkStaysSettled(s: System, more: seq<Op>)
    requires Reachable(s)
    ensures Keeps(s.db, Run(s, more).db)
  {
    ReachableIsOk(s);
    RunKeepsSysInv(s, more);
  }

  /** Cancelling settles everything at once and publishes or unpublishes nothing, and whatever is done afterwards, no
  job or cycle that it found is ever taken up again. */
  lemma CancelSettlesEverything(s: System, more: seq<Op>)
    requires Reachable(s)
    ensures var after := Apply(s, Cancel);
            SettledAndKept(s.db, after.db) && !after.db.automatic && NothingTakenUp(after.db, Run(after, more).db)
  {
    ReachableIsOk(s);
    CancelSettles(s.db);
    StepKeepsSysInv(s, Cancel);
    SettledIsNotTakenUp(Apply(s, Cancel), more);
  }

  /** Everything is terminal, and nothing was published, unpublished or lost. */
  ghost predicate SettledAndKept(db: Db, after: Db) {
    && AllSettled(after)
    && after.items.Keys == db.items.Keys && after.jobs.Keys == db.jobs.Keys && after.cycles.Keys == db.cycles.Keys && after.values == db.values
    && (forall r | r in db.runs :: r in after.runs && (after.runs[r].status == Complete <==> db.runs[r].status == Complete))
  }

  ghost predicate NothingTakenUp(db: Db, later: Db) {
    && (forall k | k in db.jobs :: k in later.jobs && later.jobs[k] == db.jobs[k])
    && (forall c | c in db.cycles :: c in later.cycles && later.cycles[c] == db.cycles[c])
  }

  lemma SettledIsNotTakenUp(s: System, more: seq<Op>)
    requires SysInv(s) && AllSettled(s.db)
    ensures NothingTakenUp(s.db, Run(s, more).db)
  {
    RunKeepsSysInv(s, more);
  }

  /** Whatever happens between a cancellation and the end of the cancelled call, its late result and its
  late failure are refused and leave every table unchanged. */
  lemma LateResultChangesNothing(s: System, outputs: map<string, string>, status: JobStatus, retryAt: Option<int>)
    requires Reachable(s) && s.worker.InFlight? && s.worker.cancelled
    ensures CompletePipelineJob(s.db, s.worker.job, outputs) == (s.db, false)
    ensures FailPipelineJob(s.db, s.worker.job, status, retryAt) == (s.db, false)
  {
    ReachableIsOk(s);
    assert !RunningJob(s.db, s.worker.job);
  }

  /** The other direction: the result of a call that was not cancelled is never refused. */
  lemma UncancelledResultIsRecorded(s: System, outputs: map<string, string>)
    requires Reachable(s) && s.worker.InFlight? && !s.worker.cancelled
    ensures CompletePipelineJob(s.db, s.worker.job, outputs).1 <==>
              forall kind | kind in outputs :: !Blank(kind) && !Blank(outputs[kind])
  {
    ReachableIsOk(s);
    assert RunningJob(s.db, s.worker.job);
  }

  /** Yielding a scheduled cycle moves exactly its pending items to one continuation at the same step
  with the same models and plans; no item, job or run is lost, invented or changed. */
  lemma YieldConservesWork(s: System, now: int)
    requires Reachable(s) && s.worker.Holding? && s.worker.kind == Scheduled && HasQueuedManualCycle(s.db)
    requires RunningAutomatic(s.db, s.worker.cycle)
    ensures Apply(s, Yield(now)) == System(Continue(s.db, s.worker.cycle, now), Idle)
    ensures MovedPendingItems(s.db, Continue(s.db, s.worker.cycle, now), s.worker.cycle, s.db.nextCycle)
  {
    ReachableIsOk(s);
    assert s.db.nextCycle !in s.db.cycles;
  }

  ghost predicate MovedPendingItems(db: Db, after: Db, from: int, to: int) {
    && from in db.cycles && to !in db.cycles && after.cycles.Keys == db.cycles.Keys + {to}
    && after.cycles[to].kind == Continuation && after.cycles[to].status == CycleQueued && after.cycles[from].status == CycleFailed
    && after.cycles[to].activeStep == db.cycles[from].activeStep
    && after.cycles[to].models == db.cycles[from].models && after.cycles[to].plans == db.cycles[from].plans
    && after.jobs == db.jobs && after.runs == db.runs && after.values == db.values && after.items.Keys == db.items.Keys
    && (forall i | i in db.items ::
          after.items[i] == if db.items[i].cycle == from && db.items[i].status == ItemPending
                            then db.items[i].(cycle := to) else db.items[i])
  }

  /** Queued automatic cycles keep no item for a text that a cycle covers. */
  ghost predicate TakenOver(s: Db, manual: int) {
    forall i, j | i in s.items && j in s.items && s.items[i].cycle == manual &&
                  s.items[i].incident == s.items[j].incident && s.items[i].hash == s.items[j].hash &&
                  s.items[j].cycle in s.cycles && s.cycles[s.items[j].cycle].status == CycleQueued &&
                  AutomaticKind(s.cycles[s.items[j].cycle].kind) ::
      s.items[j].status == ItemSuperseded
  }

  lemma QueuedTargetsAreSuperseded(db: Db, manual: int)
    ensures TakenOver(SupersedeQueuedAutomaticTargets(db, manual), manual)
  {
    var s := SupersedeQueuedAutomaticTargets(db, manual);
    var targets := QueuedTargets(db, manual);
    forall i, j | i in s.items && j in s.items && s.items[i].cycle == manual &&
                  s.items[i].incident == s.items[j].incident && s.items[i].hash == s.items[j].hash &&
                  s.items[j].cycle in s.cycles && s.cycles[s.items[j].cycle].status == CycleQueued &&
                  AutomaticKind(s.cycles[s.items[j].cycle].kind)
      ensures s.items[j].status == ItemSuperseded
    {
      assert (db.items[i].incident, db.items[i].hash) in targets;
      assert j in AutomaticItems(db, {CycleQueued}, targets);
    }
  }

  /** After a manual request no queued automatic cycle can repeat the requested texts. */
  lemma RequestTakesOverQueuedWork(db: Db, models: seq<string>, plans: seq<Plan>, incident: Option<int>, all: bool, now: int)
    requires CreateManualPipelineCycle(db, models, plans, incident, all, now).1.Created?
    ensures var (s, result) := CreateManualPipelineCycle(db, models, plans, incident, all, now); TakenOver(s, result.cycle)
  {
    var rows := ManualTargets(db, incident, all);
    var key := ManualKey(db, models, plans, rows);
    TargetOrderIsTotal(db, rows);
    var created := CreateCycle(db, Manual, Some(key), Sorted(rows, TargetOrder(db)), models, plans, now);
    QueuedTargetsAreSuperseded(created, db.nextCycle);
  }

  // ----- priorities -----

  /** While a manual request is queued, activation starts no automatic cycle. */
  lemma QueuedRequestsGoFirst(db: Db, models: seq<string>, allowScheduled: bool, now: int)
    requires db.processing && HasQueuedManualCycle(db)
    ensures var active := ActivateNextPipelineCycle(db, models, allowScheduled, now).1;
            && active.Some? && active.value in db.cycles
            && (db.cycles[active.value].status == CycleRunning || db.cycles[active.value].kind == Manual)
  {
    var running := SelectCycle(db.cycles, RunningCycles(db.cycles));
    if !(running.Some? && (db.automatic || db.cycles[running.value].kind == Manual)) {
      var freed := if running.Some? then db.(cycles := SetCycleStatus(db.cycles, running.value, CycleQueued)) else db;
      var c :| c in db.cycles && db.cycles[c].kind == Manual && db.cycles[c].status == CycleQueued;
      assert c in freed.cycles && freed.cycles[c] == db.cycles[c];
      ManualIsFirst(freed);
    }
  }

  lemma ManualIsFirst(db: Db)
    requires HasQueuedManualCycle(db)
    ensures var queued := SelectCycle(db.cycles, QueuedCycles(db.cycles, db.automatic));
            queued.Some? && db.cycles[queued.value].kind == Manual
  {
    var c :| c in db.cycles && db.cycles[c].kind == Manual && db.cycles[c].status == CycleQueued;
    var rows := QueuedCycles(db.cycles, db.automatic);
    assert c in rows;
    var first := SelectCycle(db.cycles, rows).value;
    assert first != c ==> CycleOrder(db.cycles)(first, c);
  }

  /** A claimed job is for the text its incident has now, under switches that are on, and for the latest report. */
  lemma ClaimTakesTheLatestCurrentReport(db: Db, cycle: int, step: nat, now: int)
    requires ClaimPipelineJob(db, cycle, step, now).1.Some?
    ensures var (s, k) := (ClaimPipelineJob(db, cycle, step, now).0, ClaimPipelineJob(db, cycle, step, now).1.value);
            && db.processing && cycle in db.cycles && (db.cycles[cycle].kind == Manual || db.automatic)
            && CurrentJob(db, k, cycle, step) && Due(db.jobs[k].retryAt, now) && RunningJob(s, k)
            && forall other | CurrentJob(db, other, cycle, step) && Due(db.jobs[other].retryAt, now) ::
                 db.incidents[db.items[k.item].incident].publishedAt >= db.incidents[db.items[other.item].incident].publishedAt
  {
    var swept := SweepStale(db, cycle);
    var k := SelectJob(swept, cycle, step, now).value;
    forall other | CurrentJob(db, other, cycle, step) && Due(db.jobs[other].retryAt, now)
      ensures db.incidents[db.items[k.item].incident].publishedAt >= db.incidents[db.items[other.item].incident].publishedAt
    {
      CurrentIsClaimable(db, other, cycle, step, now);
      assert other != k ==> ClaimOrder(swept)(k, other);
    }
  }

  /** A pending job of the cycle's step whose item's text is the incident's. */
  predicate CurrentJob(db: Db, k: JobKey, cycle: int, step: nat) {
    && k in db.jobs && k.step == step && db.jobs[k].status == Pending && InCycle(db, k.item, cycle)
    && db.items[k.item].incident in db.incidents && db.incidents[db.items[k.item].incident].hash == db.items[k.item].hash
  }

  lemma CurrentIsClaimable(db: Db, k: JobKey, cycle: int, step: nat, now: int)
    requires CurrentJob(db, k, cycle, step) && Due(db.jobs[k].retryAt, now)
    requires cycle in db.cycles && db.cycles[cycle].status == CycleRunning && db.processing && (db.cycles[cycle].kind == Manual || db.automatic)
    ensures k in ClaimableJobs(SweepStale(db, cycle), cycle, step, now)
    ensures SweepStale(db, cycle).items[k.item] == db.items[k.item]
  {
    assert k.item !in StaleItems(db, cycle);
  }
}
