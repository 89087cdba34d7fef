/** How cycles come about and which one runs: requests, schedules, activation, suspension and cancelling, row by row. */
module PipelineRequests {
  import opened Rows
  import opened PipelineTables
  import opened PipelineEffects

  // ----- which reports -----

  ghost predicate HasRunWith(db: Db, t: int, statuses: set<RunStatus>, currentOnly: bool)
    requires t in db.incidents
  {
    exists r :: r in db.runs && db.runs[r].incident == t && db.runs[r].hash == db.incidents[t].hash && db.runs[r].status in statuses &&
      (currentOnly ==> db.runs[r].current)
  }

  /** A request for one report takes it as it is, one for all takes all, and any other one those without a presentation
  of their text. */
  ghost predicate IsRequested(db: Db, incident: Option<int>, all: bool, t: int) {
    && t in db.incidents && db.incidents[t].hasBody
    && match incident
       case Some(one) => t == one
       case None => all || !HasRunWith(db, t, {Complete}, false)
  }

  /** A report that came in after the cutover and whose text has neither been presented nor given up. */
  ghost predicate IsDue(db: Db, t: int) {
    t in db.incidents && db.incidents[t].hasBody && db.incidents[t].createdAt > db.cutover && !HasRunWith(db, t, {Complete, RunFailed}, true)
  }

  lemma RequestedAre(db: Db, incident: Option<int>, all: bool, t: int)
    ensures t in ManualTargets(db, incident, all) <==> IsRequested(db, incident, all, t)
  {
  }

  lemma DueAre(db: Db, t: int)
    ensures t in ScheduledTargets(db) <==> IsDue(db, t)
  {
  }

  // ----- new cycles -----

  /** The reports in the order in which they are published, each once. */
  ghost predicate IsOrderOf(db: Db, reports: iset<int>, order: seq<int>) {
    && (forall t :: t in order <==> t in reports) && (forall n | 0 <= n < |order| :: order[n] in db.incidents)
    && (forall m, n | 0 <= m < n < |order| :: ReportGoesBefore(db.incidents[order[m]], order[m], db.incidents[order[n]], order[n]))
  }

  ghost predicate IsNewJob(models: seq<string>, step: nat, job: Job)
    requires step < |models|
  {
    job.model == models[step] && job.attempts == 0 && job.retryAt == None && job.status == if step == 0 then Pending else Waiting
  }

  /** The rows of the n-th report: its item, its run, and one job for each step with the model of that step. */
  ghost predicate HasNewRows(db: Db, after: Db, n: nat, t: int, models: seq<string>)
    requires t in db.incidents
  {
    var (i, r, hash) := (db.nextItem + n, db.nextRun + n, db.incidents[t].hash);
    && i in after.items && after.items[i] == Item(db.nextCycle, t, hash, r, ItemPending)
    && r in after.runs && after.runs[r] == Run(t, hash, true, Processing)
    && forall step: nat | step < |models| :: JobKey(i, step) in after.jobs && IsNewJob(models, step, after.jobs[JobKey(i, step)])
  }

  /** A queued cycle with one item, one run and all jobs for each report, under new numbers; no other row changes. */
  ghost predicate IsCreated(db: Db, kind: CycleKind, key: Option<RequestKey>, reports: iset<int>, models: seq<string>, plans: seq<Plan>, now: int, after: Db) {
    exists order :: IsOrderOf(db, reports, order) && HasCreated(db, kind, key, order, models, plans, now, after)
  }

  ghost predicate HasCreated(db: Db, kind: CycleKind, key: Option<RequestKey>, order: seq<int>, models: seq<string>, plans: seq<Plan>, now: int, after: Db)
    requires forall n | 0 <= n < |order| :: order[n] in db.incidents
  {
    && after.cycles == db.cycles[db.nextCycle := Cycle(kind, CycleQueued, 0, now, models, plans, key)]
    && (forall n: nat | n < |order| :: HasNewRows(db, after, n, order[n], models))
    && OnlyAdds(db, |order|, |models|, after)
  }

  /** All other rows and numbers. */
  ghost predicate OnlyAdds(db: Db, count: nat, steps: nat, after: Db) {
    && after == db.(cycles := after.cycles, items := after.items, runs := after.runs, jobs := after.jobs,
                    nextCycle := db.nextCycle + 1, nextItem := db.nextItem + count, nextRun := db.nextRun + count)
    && (forall i :: i in after.items <==> i in db.items || db.nextItem <= i < db.nextItem + count)
    && (forall r :: r in after.runs <==> r in db.runs || db.nextRun <= r < db.nextRun + count)
    && (forall k :: k in after.jobs <==> k in db.jobs || (db.nextItem <= k.item < db.nextItem + count && k.step < steps))
    && (forall i | i in db.items && !(db.nextItem <= i < db.nextItem + count) :: after.items[i] == db.items[i])
    && (forall r | r in db.runs && !(db.nextRun <= r < db.nextRun + count) :: after.runs[r] == db.runs[r])
    && (forall k | k in db.jobs && !(db.nextItem <= k.item < db.nextItem + count && k.step < steps) :: after.jobs[k] == db.jobs[k])
  }

  lemma CreatedHas(db: Db, kind: CycleKind, key: Option<RequestKey>, order: seq<int>, models: seq<string>, plans: seq<Plan>, now: int)
    requires forall t | t in order :: t in db.incidents
    ensures forall n | 0 <= n < |order| :: order[n] in db.incidents
    ensures HasCreated(db, kind, key, order, models, plans, now, CreateCycle(db, kind, key, order, models, plans, now))
  {
    var items, runs, jobs := NewItems(db, order), NewRuns(db, order), NewJobs(db.nextItem, |order|, models);
    NewItemsRows(db, order);
    NewRunsRows(db, order);
    NewJobsRows(db.nextItem, |order|, models);
    forall n | 0 <= n < |order| ensures order[n] in db.incidents {}
    AddedHas(db, Cycle(kind, CycleQueued, 0, now, models, plans, key), items, runs, jobs, order, models);
  }

  lemma AddedHas(db: Db, cycle: Cycle, items: map<int, Item>, runs: map<int, Run>, jobs: map<JobKey, Job>, order: seq<int>, models: seq<string>)
    requires forall n | 0 <= n < |order| :: order[n] in db.incidents
    requires cycle.status == CycleQueued && cycle.activeStep == 0 && cycle.models == models
    requires forall i :: i in items <==> db.nextItem <= i < db.nextItem + |order|
    requires forall i | i in items :: items[i] == NewItem(db, order[i - db.nextItem], i - db.nextItem)
    requires forall r :: r in runs <==> db.nextRun <= r < db.nextRun + |order|
    requires forall r | r in runs :: runs[r] == NewRun(db, order[r - db.nextRun])
    requires forall k :: k in jobs <==> db.nextItem <= k.item < db.nextItem + |order| && k.step < |models|
    requires forall k | k in jobs :: jobs[k] == NewJob(models, k.step)
    ensures HasCreated(db, cycle.kind, cycle.requestKey, order, models, cycle.plans, cycle.queuedAt, AddRows(db, cycle, items, runs, jobs, |order|))
  {
    RowsAdded(db, cycle, items, runs, jobs, |order|, |models|);
    forall n: nat | n < |order| ensures HasNewRows(db, AddRows(db, cycle, items, runs, jobs, |order|), n, order[n], models) {
      NthRows(db, cycle, items, runs, jobs, order, models, n);
    }
  }

  lemma RowsAdded(db: Db, cycle: Cycle, items: map<int, Item>, runs: map<int, Run>, jobs: map<JobKey, Job>, count: nat, steps: nat)
    requires forall i :: i in items <==> db.nextItem <= i < db.nextItem + count
    requires forall r :: r in runs <==> db.nextRun <= r < db.nextRun + count
    requires forall k :: k in jobs <==> db.nextItem <= k.item < db.nextItem + count && k.step < steps
    ensures OnlyAdds(db, count, steps, AddRows(db, cycle, items, runs, jobs, count))
  {
  }

  lemma NthRows(db: Db, cycle: Cycle, items: map<int, Item>, runs: map<int, Run>, jobs: map<JobKey, Job>, order: seq<int>, models: seq<string>, n: nat)
    requires n < |order| && order[n] in db.incidents
    requires db.nextItem + n in items && items[db.nextItem + n] == NewItem(db, order[n], n)
    requires db.nextRun + n in runs && runs[db.nextRun + n] == NewRun(db, order[n])
    requires forall k :: k in jobs <==> db.nextItem <= k.item < db.nextItem + |order| && k.step < |models|
    requires forall k | k in jobs :: jobs[k] == NewJob(models, k.step)
    ensures HasNewRows(db, AddRows(db, cycle, items, runs, jobs, |order|), n, order[n], models)
  {
    var i := db.nextItem + n;
    assert forall step: nat | step < |models| :: JobKey(i, step) in jobs && jobs[JobKey(i, step)] == NewJob(models, step);
  }

  lemma SortedIsOrder(db: Db, rows: set<int>, reports: iset<int>)
    requires rows <= db.incidents.Keys && forall t :: t in rows <==> t in reports
    ensures StrictOrder(rows, TargetOrder(db)) && IsOrderOf(db, reports, Sorted(rows, TargetOrder(db)))
  {
    TargetOrderIsTotal(db, rows);
    var order := Sorted(rows, TargetOrder(db));
    forall n | 0 <= n < |order| ensures order[n] in db.incidents { assert order[n] in order; }
    forall m, n | 0 <= m < n < |order| ensures ReportGoesBefore(db.incidents[order[m]], order[m], db.incidents[order[n]], order[n]) {
      assert TargetOrder(db)(order[m], order[n]);
    }
  }

  lemma CreatedIs(db: Db, kind: CycleKind, key: Option<RequestKey>, rows: set<int>, reports: iset<int>, models: seq<string>, plans: seq<Plan>, now: int)
    requires rows <= db.incidents.Keys && forall t :: t in rows <==> t in reports
    ensures StrictOrder(rows, TargetOrder(db))
    ensures IsCreated(db, kind, key, reports, models, plans, now, CreateCycle(db, kind, key, Sorted(rows, TargetOrder(db)), models, plans, now))
  {
    SortedIsOrder(db, rows, reports);
    CreatedHas(db, kind, key, Sorted(rows, TargetOrder(db)), models, plans, now);
  }

  // ----- requests -----

  /** The key says for which models, which plans and which reports with which texts the request is. */
  ghost predicate IsKeyOf(db: Db, models: seq<string>, plans: seq<Plan>, incident: Option<int>, all: bool, key: RequestKey) {
    && key.models == models && key.plans == plans && (forall t :: t in key.targets <==> IsRequested(db, incident, all, t))
    && forall t | t in key.targets :: key.targets[t] == db.incidents[t].hash
  }

  /** A queued manual cycle for the very same models, plans, reports and texts. */
  ghost predicate IsSameRequest(db: Db, models: seq<string>, plans: seq<Plan>, incident: Option<int>, all: bool, c: int) {
    && c in db.cycles && db.cycles[c].kind == Manual && db.cycles[c].status == CycleQueued
    && exists key :: db.cycles[c].requestKey == Some(key) && IsKeyOf(db, models, plans, incident, all, key)
  }

  ghost predicate IsNumber(reports: iset<int>, n: nat) {
    exists rows: set<int> :: (forall t :: t in rows <==> t in reports) && |rows| == n
  }

  ghost function Reports(db: Db, incident: Option<int>, all: bool): iset<int> { iset t | IsRequested(db, incident, all, t) }

  /** The request is answered with the same one if that is still queued; with an error if there is nothing to do; and
  otherwise with a new cycle, which takes over the texts that automatic cycles have queued. */
  ghost predicate IsRequest(db: Db, models: seq<string>, plans: seq<Plan>, incident: Option<int>, all: bool, now: int, after: Db, result: RequestResult) {
    match result
    case Coalesced(c, n) =>
      && after == db && IsSameRequest(db, models, plans, incident, all, c) && IsNumber(Reports(db, incident, all), n)
      && forall d | IsSameRequest(db, models, plans, incident, all, d) :: c <= d
    case NotFound => after == db && incident.Some? && NothingRequested(db, models, plans, incident, all)
    case NothingToDo => after == db && incident.None? && NothingRequested(db, models, plans, incident, all)
    case Created(c, n) =>
      && (forall d :: !IsSameRequest(db, models, plans, incident, all, d)) && c == db.nextCycle && n > 0 && IsNumber(Reports(db, incident, all), n)
      && exists created :: IsNewCycle(db, models, plans, incident, all, now, created) && IsRequestTakeover(created, c, after)
  }

  ghost predicate IsNewCycle(db: Db, models: seq<string>, plans: seq<Plan>, incident: Option<int>, all: bool, now: int, created: Db) {
    exists key :: IsKeyOf(db, models, plans, incident, all, key) &&
                  IsCreated(db, Manual, Some(key), Reports(db, incident, all), models, plans, now, created)
  }

  ghost predicate NothingRequested(db: Db, models: seq<string>, plans: seq<Plan>, incident: Option<int>, all: bool) {
    && (forall t :: !IsRequested(db, incident, all, t)) && (forall d :: !IsSameRequest(db, models, plans, incident, all, d))
  }

  lemma KeyIs(db: Db, models: seq<string>, plans: seq<Plan>, incident: Option<int>, all: bool, key: RequestKey)
    ensures IsKeyOf(db, models, plans, incident, all, key) <==> key == ManualKey(db, models, plans, ManualTargets(db, incident, all))
  {
    var rows := ManualTargets(db, incident, all);
    forall t ensures t in rows <==> IsRequested(db, incident, all, t) { RequestedAre(db, incident, all, t); }
    if IsKeyOf(db, models, plans, incident, all, key) {
      var targets := map t | t in rows :: db.incidents[t].hash;
      forall t ensures t in key.targets <==> t in targets {
        assert t in key.targets <==> IsRequested(db, incident, all, t);
        RequestedAre(db, incident, all, t);
      }
      assert forall t | t in targets :: key.targets[t] == targets[t];
      assert key.targets == targets;
    }
  }

  lemma SameRequestsAre(db: Db, models: seq<string>, plans: seq<Plan>, incident: Option<int>, all: bool, c: int)
    ensures c in QueuedRequests(db, ManualKey(db, models, plans, ManualTargets(db, incident, all))) <==>
              IsSameRequest(db, models, plans, incident, all, c)
  {
    var key := ManualKey(db, models, plans, ManualTargets(db, incident, all));
    KeyIs(db, models, plans, incident, all, key);
    if IsSameRequest(db, models, plans, incident, all, c) {
      var other :| db.cycles[c].requestKey == Some(other) && IsKeyOf(db, models, plans, incident, all, other);
      KeyIs(db, models, plans, incident, all, other);
    }
  }

  lemma RequestIs(db: Db, models: seq<string>, plans: seq<Plan>, incident: Option<int>, all: bool, now: int)
    ensures var (after, result) := CreateManualPipelineCycle(db, models, plans, incident, all, now);
            IsRequest(db, models, plans, incident, all, now, after, result)
  {
    var rows := ManualTargets(db, incident, all);
    var key := ManualKey(db, models, plans, rows);
    forall t ensures t in rows <==> IsRequested(db, incident, all, t) { RequestedAre(db, incident, all, t); }
    forall c ensures c in QueuedRequests(db, key) <==> IsSameRequest(db, models, plans, incident, all, c) {
      SameRequestsAre(db, models, plans, incident, all, c);
    }
    assert IsNumber(Reports(db, incident, all), |rows|);
    if QueuedRequests(db, key) == {} {
      if rows != {} { NewRequestIs(db, models, plans, incident, all, now, rows, key); } else { assert forall t :: t !in rows; }
    } else {
      OldRequestIs(db, models, plans, incident, all, now, QueuedRequests(db, key), |rows|);
    }
  }

  lemma OldRequestIs(db: Db, models: seq<string>, plans: seq<Plan>, incident: Option<int>, all: bool, now: int, queued: set<int>, n: nat)
    requires queued != {} && (forall c :: c in queued <==> IsSameRequest(db, models, plans, incident, all, c)) && IsNumber(Reports(db, incident, all), n)
    ensures IsRequest(db, models, plans, incident, all, now, db, Coalesced(First(queued, (a: int, b: int) => a < b), n))
  {
  }

  lemma NewRequestIs(db: Db, models: seq<string>, plans: seq<Plan>, incident: Option<int>, all: bool, now: int, rows: set<int>, key: RequestKey)
    requires rows == ManualTargets(db, incident, all) && rows != {} && key == ManualKey(db, models, plans, rows)
    requires (forall t :: t in rows <==> IsRequested(db, incident, all, t)) && IsNumber(Reports(db, incident, all), |rows|)
    requires forall c :: !IsSameRequest(db, models, plans, incident, all, c)
    ensures StrictOrder(rows, TargetOrder(db))
    ensures var created := CreateCycle(db, Manual, Some(key), Sorted(rows, TargetOrder(db)), models, plans, now);
            IsRequest(db, models, plans, incident, all, now, SupersedeQueuedAutomaticTargets(created, db.nextCycle), Created(db.nextCycle, |rows|))
  {
    var created := NewCycleIs(db, models, plans, incident, all, now, rows, key);
    RequestTakeoverIs(created, db.nextCycle);
    TakeoverIsRequest(db, models, plans, incident, all, now, created, SupersedeQueuedAutomaticTargets(created, db.nextCycle), |rows|);
  }

  lemma NewCycleIs(db: Db, models: seq<string>, plans: seq<Plan>, incident: Option<int>, all: bool, now: int, rows: set<int>, key: RequestKey)
    returns (created: Db)
    requires rows == ManualTargets(db, incident, all) && key == ManualKey(db, models, plans, rows)
    requires forall t :: t in rows <==> IsRequested(db, incident, all, t)
    ensures StrictOrder(rows, TargetOrder(db))
    ensures created == CreateCycle(db, Manual, Some(key), Sorted(rows, TargetOrder(db)), models, plans, now)
    ensures IsNewCycle(db, models, plans, incident, all, now, created)
  {
    KeyIs(db, models, plans, incident, all, key);
    CreatedIs(db, Manual, Some(key), rows, Reports(db, incident, all), models, plans, now);
    created := CreateCycle(db, Manual, Some(key), Sorted(rows, TargetOrder(db)), models, plans, now);
  }

  lemma TakeoverIsRequest(db: Db, models: seq<string>, plans: seq<Plan>, incident: Option<int>, all: bool, now: int, created: Db, after: Db, n: nat)
    requires IsNewCycle(db, models, plans, incident, all, now, created) && IsRequestTakeover(created, db.nextCycle, after)
    requires n > 0 && IsNumber(Reports(db, incident, all), n) && forall c :: !IsSameRequest(db, models, plans, incident, all, c)
    ensures IsRequest(db, models, plans, incident, all, now, after, Created(db.nextCycle, n))
  {
  }

  // ----- activation -----

  /** Requests first, then continuations, then schedules; within each the one queued first. */
  ghost predicate CycleGoesBefore(a: Cycle, c: int, b: Cycle, d: int) {
    if a.kind != b.kind then a.kind == Manual || b.kind == Scheduled
    else a.queuedAt < b.queuedAt || (a.queuedAt == b.queuedAt && c < d)
  }

  ghost predicate IsFirstCycle(db: Db, rows: iset<int>, c: int) {
    && c in rows && c in db.cycles
    && forall d | d in rows && d in db.cycles && d != c :: CycleGoesBefore(db.cycles[c], c, db.cycles[d], d)
  }

  ghost function RunningNow(db: Db): iset<int> { iset c | c in db.cycles && db.cycles[c].status == CycleRunning }

  /** With automatic work off only requests are started. */
  ghost function Startable(db: Db): iset<int> {
    iset c | c in db.cycles && db.cycles[c].status == CycleQueued && (db.automatic || db.cycles[c].kind == Manual)
  }

  ghost function DueReports(db: Db): iset<int> { iset t | IsDue(db, t) }

  ghost predicate HasStatus(db: Db, c: int, status: CycleStatus, after: Db) {
    c in db.cycles && after == db.(cycles := db.cycles[c := db.cycles[c].(status := status)])
  }

  /** A queued cycle starts if there is one; and otherwise a new schedule, if schedules are allowed and a report is due. */
  ghost predicate IsStart(db: Db, models: seq<string>, allowScheduled: bool, now: int, after: Db, active: Option<int>) {
    if !IsNone(Startable(db)) then active.Some? && IsFirstCycle(db, Startable(db), active.value) && HasStatus(db, active.value, CycleRunning, after)
    else if !allowScheduled || !db.automatic || IsNone(DueReports(db)) then active == None && after == db
    else
      && active == Some(db.nextCycle)
      && exists created :: HasStatus(created, db.nextCycle, CycleRunning, after) &&
           IsCreated(db, Scheduled, None, DueReports(db), models, [], now, created)
  }

  /** Nothing happens while the pipeline is off. A running cycle goes on, unless it is an automatic one and automatic work
  is off: then it is queued again, and others may start. */
  ghost predicate IsActivation(db: Db, models: seq<string>, allowScheduled: bool, now: int, after: Db, active: Option<int>) {
    if !db.processing then active == None && after == db
    else if IsNone(RunningNow(db)) then IsStart(db, models, allowScheduled, now, after, active)
    else exists c :: IsFirstCycle(db, RunningNow(db), c) && IsTurn(db, c, models, allowScheduled, now, after, active)
  }

  ghost predicate IsTurn(db: Db, c: int, models: seq<string>, allowScheduled: bool, now: int, after: Db, active: Option<int>)
    requires c in db.cycles
  {
    if db.automatic || db.cycles[c].kind == Manual then active == Some(c) && after == db
    else exists freed :: HasStatus(db, c, CycleQueued, freed) && IsStart(freed, models, allowScheduled, now, after, active)
  }

  ghost predicate IsNone(rows: iset<int>) { forall x :: x !in rows }

  lemma FirstCycleIs(db: Db, rows: set<int>, all: iset<int>)
    requires rows <= db.cycles.Keys && (forall c | c in rows :: c in all) && (forall c | c in all :: c in rows)
    ensures SelectCycle(db.cycles, rows).Some? ==> IsFirstCycle(db, all, SelectCycle(db.cycles, rows).value)
    ensures SelectCycle(db.cycles, rows).None? <==> IsNone(all)
  {
    var selected := SelectCycle(db.cycles, rows);
    if selected.Some? {
      assert selected.value in rows;
      forall d | d in all && d in db.cycles && d != selected.value
        ensures CycleGoesBefore(db.cycles[selected.value], selected.value, db.cycles[d], d)
      {
        assert CycleOrder(db.cycles)(selected.value, d);
      }
    } else {
      assert forall c :: c !in rows;
    }
  }

  lemma StartIs(db: Db, models: seq<string>, allowScheduled: bool, now: int)
    ensures var (after, active) := ActivateQueued(db, models, allowScheduled, now); IsStart(db, models, allowScheduled, now, after, active)
  {
    var rows := ScheduledTargets(db);
    FirstCycleIs(db, QueuedCycles(db.cycles, db.automatic), Startable(db));
    forall t ensures t in rows <==> t in DueReports(db) { DueAre(db, t); }
    if rows == {} {
      assert forall t :: t !in rows;
    } else {
      var t := Member(rows);
      assert t in DueReports(db);
      if SelectCycle(db.cycles, QueuedCycles(db.cycles, db.automatic)).None? && allowScheduled && db.automatic {
        ScheduleIs(db, rows, models, allowScheduled, now);
      }
    }
  }

  lemma ScheduleIs(db: Db, rows: set<int>, models: seq<string>, allowScheduled: bool, now: int)
    requires rows <= db.incidents.Keys && (forall t :: t in rows <==> t in DueReports(db)) && !IsNone(DueReports(db))
    requires IsNone(Startable(db)) && allowScheduled && db.automatic
    ensures StrictOrder(rows, TargetOrder(db))
    ensures var created := CreateCycle(db, Scheduled, None, Sorted(rows, TargetOrder(db)), models, [], now);
            IsStart(db, models, allowScheduled, now, created.(cycles := SetCycleStatus(created.cycles, db.nextCycle, CycleRunning)), Some(db.nextCycle))
  {
    CreatedIs(db, Scheduled, None, rows, DueReports(db), models, [], now);
    var created := CreateCycle(db, Scheduled, None, Sorted(rows, TargetOrder(db)), models, [], now);
    assert HasStatus(created, db.nextCycle, CycleRunning, created.(cycles := SetCycleStatus(created.cycles, db.nextCycle, CycleRunning)));
  }

  lemma ActivationIs(db: Db, models: seq<string>, allowScheduled: bool, now: int)
    ensures var (after, active) := ActivateNextPipelineCycle(db, models, allowScheduled, now);
            IsActivation(db, models, allowScheduled, now, after, active)
  {
    FirstCycleIs(db, RunningCycles(db.cycles), RunningNow(db));
    var running := SelectCycle(db.cycles, RunningCycles(db.cycles));
    var freed := if running.Some? then db.(cycles := SetCycleStatus(db.cycles, running.value, CycleQueued)) else db;
    StartIs(freed, models, allowScheduled, now);
  }

  // ----- suspending, interrupting, cancelling -----

  ghost predicate IsRunningAutomatic(db: Db, c: int) {
    c in db.cycles && db.cycles[c].status == CycleRunning && db.cycles[c].kind in {Scheduled, Continuation}
  }

  ghost predicate IsSuspension(db: Db, c: int, after: Db, suspended: bool) {
    && (suspended <==> IsRunningAutomatic(db, c))
    && (if suspended then HasStatus(db, c, CycleQueued, after) else after == db)
  }

  /** The pending items of a schedule go on in a continuation, queued now at the same step with the same models and plans. */
  ghost predicate IsContinued(db: Db, c: int, now: int, after: Db)
    requires c in db.cycles
  {
    && after == db.(cycles := after.cycles, items := after.items, nextCycle := db.nextCycle + 1) && after.items.Keys == db.items.Keys
    && (forall i | i in db.items :: after.items[i] ==
          if db.items[i].cycle == c && db.items[i].status == ItemPending then db.items[i].(cycle := db.nextCycle) else db.items[i])
    && after.cycles.Keys == db.cycles.Keys + {db.nextCycle}
    && (forall d | d in db.cycles && d != c && d != db.nextCycle :: after.cycles[d] == db.cycles[d])
    && after.cycles[c] == (if c == db.nextCycle then after.cycles[c] else db.cycles[c].(status := CycleFailed))
    && var from := db.cycles[c];
       (c != db.nextCycle ==> after.cycles[db.nextCycle] == Cycle(Continuation, CycleQueued, from.activeStep, now, from.models, from.plans, None))
  }

  ghost predicate IsInterruption(db: Db, c: int, now: int, after: Db, continuation: Option<int>) {
    if !IsRunningAutomatic(db, c) then after == db && continuation == None
    else if db.cycles[c].kind == Continuation then HasStatus(db, c, CycleQueued, after) && continuation == Some(c)
    else IsContinued(db, c, now, after) && continuation == Some(db.nextCycle)
  }

  /** Everything that is not over is superseded, and automatic work is off. */
  ghost predicate IsCancelled(db: Db, after: Db) {
    && after == db.(automatic := false, jobs := after.jobs, items := after.items, runs := after.runs, cycles := after.cycles)
    && after.jobs.Keys == db.jobs.Keys && after.items.Keys == db.items.Keys && after.runs.Keys == db.runs.Keys && after.cycles.Keys == db.cycles.Keys
    && (forall k | k in db.jobs :: after.jobs[k] ==
          if db.jobs[k].status in {Waiting, Pending, Running} then db.jobs[k].(status := Superseded, retryAt := None) else db.jobs[k])
    && (forall i | i in db.items :: after.items[i] == if db.items[i].status == ItemPending then db.items[i].(status := ItemSuperseded) else db.items[i])
    && (forall r | r in db.runs :: after.runs[r] == if db.runs[r].status == Processing then db.runs[r].(status := RunSuperseded) else db.runs[r])
    && (forall c | c in db.cycles :: after.cycles[c] ==
          if db.cycles[c].status in {CycleQueued, CycleRunning} then db.cycles[c].(status := CycleSuperseded) else db.cycles[c])
  }

  lemma SuspensionIs(db: Db, c: int)
    ensures var (after, suspended) := SuspendAutomaticCycle(db, c); IsSuspension(db, c, after, suspended)
  {
  }

  lemma InterruptionIs(db: Db, c: int, now: int)
    ensures var (after, continuation) := InterruptBlockedAutomaticCycle(db, c, now); IsInterruption(db, c, now, after, continuation)
  {
  }

  lemma CancelledIs(db: Db)
    ensures IsCancelled(db, CancelAll(db))
  {
  }
}
