/** The invariant of the pipeline tables, and that every transaction keeps it. */
module PipelineInvariant {
  import opened Rows
  import opened PipelineTables

  // ----- the invariant -----

  ghost predicate Linked(db: Db) {
    && (forall i | i in db.items ::
          db.items[i].cycle in db.cycles && db.items[i].run in db.runs && i < db.nextItem)
    && (forall c | c in db.cycles :: c < db.nextCycle)
    && (forall r | r in db.runs :: r < db.nextRun)
  }

  /** Every item has a presentation run of its own. */
  ghost predicate OwnRuns(items: map<int, Item>) {
    forall i, j | i in items && j in items && items[i].run == items[j].run :: i == j
  }

  /** Every item owns exactly one job per registered step. */
  ghost predicate Jobbed(db: Db) {
    && db.stepCount > 0
    && (forall k | k in db.jobs :: k.item in db.items && k.step < db.stepCount)
    && (forall i, s: nat | i in db.items && s < db.stepCount :: JobKey(i, s) in db.jobs)
  }

  ghost predicate CyclesOk(db: Db) {
    && (forall c | c in db.cycles :: db.cycles[c].activeStep < db.stepCount)
    && (forall c, d | c in db.cycles && d in db.cycles && db.cycles[c].status == CycleRunning && db.cycles[d].status == CycleRunning :: c == d)
    && (forall c, d | c in db.cycles && d in db.cycles && QueuedManual(db.cycles[c]) && QueuedManual(db.cycles[d]) &&
                      db.cycles[c].requestKey == db.cycles[d].requestKey :: c == d)
  }

  ghost predicate QueuedManual(cycle: Cycle) {
    cycle.kind == Manual && cycle.status == CycleQueued && cycle.requestKey.Some?
  }

  /** Where a job may be in its life, given its item, its cycle and the steps before it. */
  ghost predicate JobOk(db: Db, k: JobKey)
    requires k in db.jobs && k.item in db.items && db.items[k.item].cycle in db.cycles
  {
    var status, item := db.jobs[k].status, db.items[k.item];
    var cycle := db.cycles[item.cycle];
    && (status == Running ==> cycle.status == CycleRunning && k.step == cycle.activeStep)
    && (k.step < cycle.activeStep ==> !Open(status))
    && (k.step > cycle.activeStep ==> status == Waiting || status == Superseded)
    && (k.step == cycle.activeStep ==> status != Waiting)
    && (Open(status) ==> item.status == ItemPending)
    && (status == Pending || status == Running || status == Succeeded ==>
          forall s: nat | s < k.step :: SucceededAt(db, k.item, s))
  }

  ghost predicate ItemOk(db: Db, i: int)
    requires i in db.items && db.items[i].cycle in db.cycles && db.items[i].run in db.runs && db.stepCount > 0
  {
    var item, run := db.items[i], db.runs[db.items[i].run];
    && (item.status == ItemPending <==> run.status == Processing)
    && (item.status == ItemPending ==> Active(db.cycles[item.cycle].status))
    && (item.status == ItemSucceeded ==> SucceededAt(db, i, db.stepCount - 1))
    && (run.status == Complete <==> SucceededAt(db, i, db.stepCount - 1))
  }

  ghost predicate Shape(db: Db) { Linked(db) && Jobbed(db) }

  ghost predicate JobsOk(db: Db)
    requires Shape(db)
  {
    forall k {:trigger JobOk(db, k)} | k in db.jobs :: JobOk(db, k)
  }

  ghost predicate ItemsOk(db: Db)
    requires Shape(db)
  {
    forall i {:trigger ItemOk(db, i)} | i in db.items :: ItemOk(db, i)
  }

  ghost predicate OneRunningJob(db: Db) {
    forall k, l | k in db.jobs && l in db.jobs && db.jobs[k].status == Running && db.jobs[l].status == Running :: k == l
  }

  ghost predicate Inv(db: Db) {
    Shape(db) && OwnRuns(db.items) && CyclesOk(db) && JobsOk(db) && ItemsOk(db) && OneRunningJob(db)
  }

  ghost predicate NoRunningJob(db: Db) {
    forall k | k in db.jobs :: db.jobs[k].status != Running
  }

  // ----- what no transaction undoes -----

  /** Terminal jobs keep their status, complete runs stay complete and no row disappears. */
  ghost predicate Keeps(a: Db, b: Db) {
    && a.stepCount == b.stepCount
    && (forall k | k in a.jobs :: k in b.jobs && (!Open(a.jobs[k].status) ==> b.jobs[k] == a.jobs[k]))
    && (forall r | r in a.runs :: r in b.runs && (a.runs[r].status == Complete ==> b.runs[r].status == Complete))
    && (forall i | i in a.items :: i in b.items && b.items[i].run == a.items[i].run)
    && (forall c | c in a.cycles :: c in b.cycles && (!Active(a.cycles[c].status) ==> b.cycles[c] == a.cycles[c]))
  }

  lemma KeepsTransitive(a: Db, b: Db, c: Db)
    requires Keeps(a, b) && Keeps(b, c)
    ensures Keeps(a, c)
  {
  }

  lemma Assemble(db: Db)
    requires Shape(db) && OwnRuns(db.items) && CyclesOk(db) && JobsOk(db) && ItemsOk(db) && OneRunningJob(db)
    ensures Inv(db)
  {
  }

  lemma SameRuns(db: Db, s: Db)
    requires OwnRuns(db.items) && s.items.Keys == db.items.Keys
    requires forall i | i in s.items :: s.items[i].run == db.items[i].run
    ensures OwnRuns(s.items)
  {
  }

  lemma SameCyclesOk(db: Db, s: Db)
    requires CyclesOk(db) && s.cycles == db.cycles && s.stepCount == db.stepCount
    ensures CyclesOk(s)
  {
  }

  // ----- superseding items, the common part of sweeping and of both supersede helpers -----

  function Supersede(db: Db, jobRows: set<int>, itemRows: set<int>, runRows: set<int>): Db {
    db.(jobs := SupersedeJobs(db.jobs, jobRows), items := SupersedeItems(db.items, itemRows), runs := SupersedeRuns(db.runs, runRows))
  }

  /** Nothing of the rows is running, every pending row is superseded, and exactly with its run. */
  ghost predicate Supersedable(db: Db, jobRows: set<int>, itemRows: set<int>, runRows: set<int>) {
    && itemRows <= jobRows <= db.items.Keys
    && (forall k | k in db.jobs && k.item in jobRows :: db.jobs[k].status != Running)
    && (forall i | i in jobRows && db.items[i].status == ItemPending :: i in itemRows)
    && (forall i | i in itemRows :: db.items[i].run in runRows)
    && (forall i | i in db.items && db.items[i].run in runRows :: i in itemRows || db.items[i].status == ItemSuperseded)
  }

  lemma SupersedeShape(db: Db, jobRows: set<int>, itemRows: set<int>, runRows: set<int>)
    requires Shape(db)
    ensures Shape(Supersede(db, jobRows, itemRows, runRows))
  {
  }

  lemma SupersedeKeeps(db: Db, jobRows: set<int>, itemRows: set<int>, runRows: set<int>)
    ensures Keeps(db, Supersede(db, jobRows, itemRows, runRows))
    ensures OneRunningJob(db) ==> OneRunningJob(Supersede(db, jobRows, itemRows, runRows))
    ensures NoRunningJob(db) ==> NoRunningJob(Supersede(db, jobRows, itemRows, runRows))
  {
  }

  lemma SupersedeSucceeded(db: Db, jobRows: set<int>, itemRows: set<int>, runRows: set<int>, i: int, n: nat)
    ensures SucceededAt(Supersede(db, jobRows, itemRows, runRows), i, n) <==> SucceededAt(db, i, n)
  {
  }

  lemma SupersedeJob(db: Db, jobRows: set<int>, itemRows: set<int>, runRows: set<int>, k: JobKey)
    requires Shape(db) && Supersedable(db, jobRows, itemRows, runRows) && k in db.jobs && JobOk(db, k)
    ensures Shape(Supersede(db, jobRows, itemRows, runRows)) && JobOk(Supersede(db, jobRows, itemRows, runRows), k)
  {
    SupersedeShape(db, jobRows, itemRows, runRows);
    forall n: nat | n < k.step && SucceededAt(db, k.item, n)
      ensures SucceededAt(Supersede(db, jobRows, itemRows, runRows), k.item, n)
    {
      SupersedeSucceeded(db, jobRows, itemRows, runRows, k.item, n);
    }
  }

  lemma SupersedeItem(db: Db, jobRows: set<int>, itemRows: set<int>, runRows: set<int>, i: int)
    requires Shape(db) && Supersedable(db, jobRows, itemRows, runRows) && i in db.items && ItemOk(db, i)
    ensures Shape(Supersede(db, jobRows, itemRows, runRows)) && ItemOk(Supersede(db, jobRows, itemRows, runRows), i)
  {
    SupersedeShape(db, jobRows, itemRows, runRows);
    SupersedeSucceeded(db, jobRows, itemRows, runRows, i, db.stepCount - 1);
  }

  lemma SupersedeKeepsInv(db: Db, jobRows: set<int>, itemRows: set<int>, runRows: set<int>)
    requires Inv(db) && Supersedable(db, jobRows, itemRows, runRows)
    ensures Inv(Supersede(db, jobRows, itemRows, runRows))
  {
    var s := Supersede(db, jobRows, itemRows, runRows);
    SupersedeShape(db, jobRows, itemRows, runRows);
    SupersedeKeeps(db, jobRows, itemRows, runRows);
    forall k | k in s.jobs ensures JobOk(s, k) { SupersedeJob(db, jobRows, itemRows, runRows, k); }
    forall i | i in s.items ensures ItemOk(s, i) { SupersedeItem(db, jobRows, itemRows, runRows, i); }
    SameCyclesOk(db, s);
    SameRuns(db, s);
    Assemble(s);
  }

  lemma RunOwner(items: map<int, Item>, rows: set<int>, i: int)
    requires rows <= items.Keys && i in items
    requires OwnRuns(items)
    ensures items[i].run in RunsOf(items, rows) <==> i in rows
  {
  }

  lemma SweepKeepsInv(db: Db, cycle: int)
    requires Inv(db) && NoRunningJob(db)
    ensures var s := SweepStale(db, cycle); Inv(s) && NoRunningJob(s) && Keeps(db, s)
  {
    var stale := StaleItems(db, cycle);
    var items := SupersedeItems(db.items, stale);
    var rows := set i | i in items && items[i].cycle == cycle && items[i].status == ItemSuperseded;
    forall i | i in db.items ensures items[i].run in RunsOf(items, rows) <==> i in rows { RunOwner(items, rows, i); }
    SupersedeKeepsInv(db, stale, stale, RunsOf(items, rows));
    SupersedeKeeps(db, stale, stale, RunsOf(items, rows));
  }

  // ----- a change of cycle statuses only -----

  lemma RestatusKeepsInv(db: Db, cycles: map<int, Cycle>)
    requires Inv(db) && cycles.Keys == db.cycles.Keys
    requires forall c | c in cycles :: cycles[c].activeStep == db.cycles[c].activeStep
    requires forall k | RunningJob(db, k) :: cycles[db.items[k.item].cycle].status == CycleRunning
    requires forall i | i in db.items && db.items[i].status == ItemPending :: Active(cycles[db.items[i].cycle].status)
    requires CyclesOk(db.(cycles := cycles))
    ensures Inv(db.(cycles := cycles))
  {
    var s := db.(cycles := cycles);
    assert Shape(s);
    forall k | k in s.jobs ensures JobOk(s, k) { RestatusJob(db, cycles, k); }
    forall i | i in s.items ensures ItemOk(s, i) { RestatusItem(db, cycles, i); }
    SameRuns(db, s);
    Assemble(s);
  }

  lemma RestatusJob(db: Db, cycles: map<int, Cycle>, k: JobKey)
    requires Shape(db) && cycles.Keys == db.cycles.Keys && k in db.jobs && JobOk(db, k)
    requires cycles[db.items[k.item].cycle].activeStep == db.cycles[db.items[k.item].cycle].activeStep
    requires RunningJob(db, k) ==> cycles[db.items[k.item].cycle].status == CycleRunning
    ensures Shape(db.(cycles := cycles)) && JobOk(db.(cycles := cycles), k)
  {
    var s := db.(cycles := cycles);
    forall n: nat | n < k.step && SucceededAt(db, k.item, n) ensures SucceededAt(s, k.item, n) {}
  }

  lemma RestatusItem(db: Db, cycles: map<int, Cycle>, i: int)
    requires Shape(db) && cycles.Keys == db.cycles.Keys && i in db.items && ItemOk(db, i)
    requires db.items[i].status == ItemPending ==> Active(cycles[db.items[i].cycle].status)
    ensures Shape(db.(cycles := cycles)) && ItemOk(db.(cycles := cycles), i)
  {
    var s := db.(cycles := cycles);
    assert SucceededAt(s, i, db.stepCount - 1) <==> SucceededAt(db, i, db.stepCount - 1);
  }

  // ----- ClaimPipelineJob -----

  /** One job changes from an open status to another status, the only change to the tables. */
  function WithJob(db: Db, k: JobKey, job: Job): Db { db.(jobs := db.jobs[k := job]) }

  lemma WithJobShape(db: Db, k: JobKey, job: Job)
    requires Shape(db) && k in db.jobs && Open(db.jobs[k].status)
    ensures Shape(WithJob(db, k, job))
  {
  }

  lemma WithJobKeeps(db: Db, k: JobKey, job: Job)
    requires k in db.jobs && Open(db.jobs[k].status)
    ensures Keeps(db, WithJob(db, k, job))
  {
  }

  lemma WithJobRunning(db: Db, k: JobKey, job: Job)
    requires OneRunningJob(db) && k in db.jobs && (job.status == Running ==> NoRunningJob(db))
    ensures OneRunningJob(WithJob(db, k, job))
    ensures db.jobs[k].status == Running && job.status != Running ==> NoRunningJob(WithJob(db, k, job))
  {
  }

  lemma WithJobOther(db: Db, k: JobKey, job: Job, l: JobKey)
    requires Shape(db) && k in db.jobs && Open(db.jobs[k].status) && l in db.jobs && l != k && JobOk(db, l)
    ensures Shape(WithJob(db, k, job)) && JobOk(WithJob(db, k, job), l)
  {
    WithJobShape(db, k, job);
    forall n: nat | n < l.step && SucceededAt(db, l.item, n) ensures SucceededAt(WithJob(db, k, job), l.item, n) {}
  }

  lemma WithJobSame(db: Db, k: JobKey, job: Job)
    requires Shape(db) && k in db.jobs && Open(db.jobs[k].status) && JobOk(db, k)
    requires db.jobs[k].status != Waiting && job.status != Waiting && (!Open(job.status) || job.status == Pending || job.status == Running)
    requires job.status == Running ==> db.cycles[db.items[k.item].cycle].status == CycleRunning
    requires k.step == db.cycles[db.items[k.item].cycle].activeStep
    ensures Shape(WithJob(db, k, job)) && JobOk(WithJob(db, k, job), k)
  {
    WithJobShape(db, k, job);
    forall n: nat | n < k.step && SucceededAt(db, k.item, n) ensures SucceededAt(WithJob(db, k, job), k.item, n) {}
  }

  lemma WithJobItem(db: Db, k: JobKey, job: Job, i: int)
    requires Shape(db) && k in db.jobs && Open(db.jobs[k].status) && i in db.items && ItemOk(db, i)
    requires job.status == Succeeded ==> JobKey(i, db.stepCount - 1) != k
    ensures Shape(WithJob(db, k, job)) && ItemOk(WithJob(db, k, job), i)
  {
    WithJobShape(db, k, job);
    assert SucceededAt(WithJob(db, k, job), i, db.stepCount - 1) <==> SucceededAt(db, i, db.stepCount - 1);
  }

  /** The transactions that move one claimed or claimable job, other than the last success of an item. */
  lemma WithJobKeepsInv(db: Db, k: JobKey, job: Job)
    requires Inv(db) && k in db.jobs && (db.jobs[k].status == Pending || db.jobs[k].status == Running)
    requires job.status != Waiting && (job.status == Running ==> NoRunningJob(db) && db.cycles[db.items[k.item].cycle].status == CycleRunning)
    requires k.step == db.cycles[db.items[k.item].cycle].activeStep
    requires job.status == Succeeded ==> k.step != db.stepCount - 1
    ensures var s := WithJob(db, k, job); Inv(s) && Keeps(db, s)
    ensures db.jobs[k].status == Running && job.status != Running ==> NoRunningJob(WithJob(db, k, job))
  {
    WithJobJobs(db, k, job);
    WithJobItems(db, k, job);
    WithJobRunning(db, k, job);
    WithJobKeeps(db, k, job);
    SameCyclesOk(db, WithJob(db, k, job));
    SameRuns(db, WithJob(db, k, job));
    Assemble(WithJob(db, k, job));
  }

  lemma WithJobJobs(db: Db, k: JobKey, job: Job)
    requires Shape(db) && JobsOk(db) && k in db.jobs && (db.jobs[k].status == Pending || db.jobs[k].status == Running)
    requires job.status != Waiting && (job.status == Running ==> db.cycles[db.items[k.item].cycle].status == CycleRunning)
    requires k.step == db.cycles[db.items[k.item].cycle].activeStep
    ensures Shape(WithJob(db, k, job)) && JobsOk(WithJob(db, k, job))
  {
    WithJobShape(db, k, job);
    forall l | l in db.jobs ensures JobOk(WithJob(db, k, job), l) {
      if l == k { WithJobSame(db, k, job); } else { WithJobOther(db, k, job, l); }
    }
  }

  lemma WithJobItems(db: Db, k: JobKey, job: Job)
    requires Shape(db) && ItemsOk(db) && k in db.jobs && Open(db.jobs[k].status)
    requires job.status == Succeeded ==> k.step != db.stepCount - 1
    ensures Shape(WithJob(db, k, job)) && ItemsOk(WithJob(db, k, job))
  {
    WithJobShape(db, k, job);
    forall i | i in db.items ensures ItemOk(WithJob(db, k, job), i) { WithJobItem(db, k, job, i); }
  }

  lemma ClaimKeepsInv(db: Db, cycle: int, step: nat, now: int)
    requires Inv(db) && NoRunningJob(db)
    requires cycle in db.cycles && (db.cycles[cycle].status == CycleRunning ==> db.cycles[cycle].activeStep == step)
    ensures var (s, k) := ClaimPipelineJob(db, cycle, step, now);
            && Inv(s) && Keeps(db, s)
            && s.cycles == db.cycles
            && (k.None? ==> NoRunningJob(s))
            && (k.Some? ==> RunningJob(s, k.value) && k.value.step == step && k.value.item in s.items &&
                            s.items[k.value.item].cycle == cycle)
  {
    var swept := SweepStale(db, cycle);
    SweepKeepsInv(db, cycle);
    var (s, k) := ClaimPipelineJob(db, cycle, step, now);
    if k.Some? {
      assert k.value in ClaimableJobs(swept, cycle, step, now);
      WithJobKeepsInv(swept, k.value, MarkRunning(swept.jobs, k.value)[k.value]);
      KeepsTransitive(db, swept, s);
    }
  }

  // ----- CompletePipelineJob, FailPipelineJob and RecoverPipeline -----

  lemma LastStageIsLastStep(db: Db, k: JobKey)
    requires Jobbed(db) && k in db.jobs
    ensures LastStage(db, k) <==> k.step == db.stepCount - 1
  {
    assert JobKey(k.item, db.stepCount - 1) in db.jobs;
  }

  function WithValues(db: Db, values: map<(int, string), string>): Db { db.(values := values) }

  lemma WithValuesKeepsInv(db: Db, values: map<(int, string), string>)
    requires Inv(db)
    ensures Inv(WithValues(db, values)) && Keeps(db, WithValues(db, values))
  {
    var s := WithValues(db, values);
    forall k | k in s.jobs ensures JobOk(s, k) { WithValuesJob(db, values, k); }
    forall i | i in s.items ensures ItemOk(s, i) { WithValuesItem(db, values, i); }
    SameRuns(db, s);
    Assemble(s);
  }

  lemma WithValuesJob(db: Db, values: map<(int, string), string>, k: JobKey)
    requires Shape(db) && k in db.jobs && JobOk(db, k)
    ensures Shape(WithValues(db, values)) && JobOk(WithValues(db, values), k)
  {
    forall n: nat | n < k.step && SucceededAt(db, k.item, n) ensures SucceededAt(WithValues(db, values), k.item, n) {}
  }

  lemma WithValuesItem(db: Db, values: map<(int, string), string>, i: int)
    requires Shape(db) && i in db.items && ItemOk(db, i)
    ensures Shape(WithValues(db, values)) && ItemOk(WithValues(db, values), i)
  {
    assert SucceededAt(WithValues(db, values), i, db.stepCount - 1) <==> SucceededAt(db, i, db.stepCount - 1);
  }

  /** The last success of an item, its publication and the item's own success happen together. */
  function Publish(db: Db, k: JobKey): Db
    requires k in db.jobs && k.item in db.items
  {
    var done := WithJob(db, k, db.jobs[k].(status := Succeeded));
    done.(runs := PublishRun(db.runs, db.items[k.item].run), items := SucceedItem(db.items, k.item))
  }

  lemma PublishShape(db: Db, k: JobKey)
    requires Shape(db) && k in db.jobs && Open(db.jobs[k].status)
    ensures Shape(Publish(db, k))
  {
  }

  lemma PublishKeeps(db: Db, k: JobKey)
    requires k in db.jobs && k.item in db.items && Open(db.jobs[k].status)
    ensures Keeps(db, Publish(db, k))
  {
  }

  lemma PublishJob(db: Db, k: JobKey, l: JobKey)
    requires Shape(db) && k in db.jobs && db.jobs[k].status == Running && k.step == db.stepCount - 1
    requires l in db.jobs && JobOk(db, l) && JobOk(db, k)
    ensures Shape(Publish(db, k)) && JobOk(Publish(db, k), l)
  {
    PublishShape(db, k);
    forall n: nat | n < l.step && SucceededAt(db, l.item, n) ensures SucceededAt(Publish(db, k), l.item, n) {}
    if l.item == k.item && l != k { assert SucceededAt(db, k.item, l.step); }
  }

  lemma PublishItem(db: Db, k: JobKey, i: int)
    requires Shape(db) && k in db.jobs && db.jobs[k].status == Running && k.step == db.stepCount - 1 && JobOk(db, k)
    requires OwnRuns(db.items) && i in db.items && ItemOk(db, i)
    ensures Shape(Publish(db, k)) && ItemOk(Publish(db, k), i)
  {
    PublishShape(db, k);
    if i != k.item {
      assert SucceededAt(Publish(db, k), i, db.stepCount - 1) <==> SucceededAt(db, i, db.stepCount - 1);
    }
  }

  lemma PublishKeepsInv(db: Db, k: JobKey)
    requires Inv(db) && RunningJob(db, k) && k.step == db.stepCount - 1
    ensures Inv(Publish(db, k)) && Keeps(db, Publish(db, k)) && NoRunningJob(Publish(db, k))
  {
    PublishJobs(db, k);
    PublishItems(db, k);
    PublishKeeps(db, k);
    WithJobRunning(db, k, db.jobs[k].(status := Succeeded));
    SameCyclesOk(db, Publish(db, k));
    SameRuns(db, Publish(db, k));
    Assemble(Publish(db, k));
  }

  lemma PublishJobs(db: Db, k: JobKey)
    requires Shape(db) && JobsOk(db) && RunningJob(db, k) && k.step == db.stepCount - 1
    ensures Shape(Publish(db, k)) && JobsOk(Publish(db, k))
  {
    PublishShape(db, k);
    forall l | l in db.jobs ensures JobOk(Publish(db, k), l) { PublishJob(db, k, l); }
  }

  lemma PublishItems(db: Db, k: JobKey)
    requires Shape(db) && OwnRuns(db.items) && JobsOk(db) && ItemsOk(db) && RunningJob(db, k) && k.step == db.stepCount - 1
    ensures Shape(Publish(db, k)) && ItemsOk(Publish(db, k))
  {
    PublishShape(db, k);
    forall i | i in db.items ensures ItemOk(Publish(db, k), i) { PublishItem(db, k, i); }
  }

  lemma CompleteKeepsInv(db: Db, k: JobKey, outputs: map<string, string>)
    requires Inv(db)
    ensures var (s, done) := CompletePipelineJob(db, k, outputs);
            && Inv(s) && Keeps(db, s) && s.cycles == db.cycles
            && (done ==> RunningJob(db, k) && NoRunningJob(s)) && (!done ==> s == db)
  {
    var (s, done) := CompletePipelineJob(db, k, outputs);
    if done {
      var stored := WithValues(db, StoreValues(db.values, db.items[k.item].run, outputs));
      WithValuesKeepsInv(db, stored.values);
      assert JobOk(db, k);
      CompleteByStage(db, k, outputs);
      if k.step == db.stepCount - 1 { PublishKeepsInv(stored, k); } else { WithJobKeepsInv(stored, k, db.jobs[k].(status := Succeeded)); }
      KeepsTransitive(db, stored, s);
    }
  }

  lemma CompleteByStage(db: Db, k: JobKey, outputs: map<string, string>)
    requires Jobbed(db) && CompletePipelineJob(db, k, outputs).1
    ensures var stored := WithValues(db, StoreValues(db.values, db.items[k.item].run, outputs));
            CompletePipelineJob(db, k, outputs).0 ==
              if k.step == db.stepCount - 1 then Publish(stored, k) else WithJob(stored, k, db.jobs[k].(status := Succeeded))
  {
    var stored := WithValues(db, StoreValues(db.values, db.items[k.item].run, outputs));
    LastStageIsLastStep(stored, k);
    var mid := WithJob(stored, k, db.jobs[k].(status := Succeeded));
    assert LastStage(mid, k) <==> LastStage(stored, k);
  }

  lemma FailKeepsInv(db: Db, k: JobKey, status: JobStatus, retryAt: Option<int>)
    requires Inv(db)
    ensures var (s, done) := FailPipelineJob(db, k, status, retryAt);
            && Inv(s) && Keeps(db, s) && s.cycles == db.cycles
            && (done ==> RunningJob(db, k) && NoRunningJob(s)) && (!done ==> s == db)
  {
    var (s, done) := FailPipelineJob(db, k, status, retryAt);
    if done {
      assert JobOk(db, k);
      WithJobKeepsInv(db, k, s.jobs[k]);
    }
  }

  lemma RecoverKeepsInv(db: Db, now: int)
    requires Inv(db)
    ensures var s := RecoverPipeline(db, now); Inv(s) && NoRunningJob(s) && Keeps(db, s)
  {
    var s := RecoverPipeline(db, now);
    if k :| k in db.jobs && db.jobs[k].status == Running {
      assert JobOk(db, k);
      var job := db.jobs[k].(status := Pending, retryAt := Some(now));
      RecoverIsWithJob(db, now, k);
      WithJobKeepsInv(db, k, job);
    } else {
      assert s.jobs == db.jobs;
      assert s == db;
    }
  }

  lemma RecoverIsWithJob(db: Db, now: int, k: JobKey)
    requires OneRunningJob(db) && RunningJob(db, k)
    ensures RecoverPipeline(db, now) == WithJob(db, k, db.jobs[k].(status := Pending, retryAt := Some(now)))
  {
    assert RecoverPipeline(db, now).jobs == WithJob(db, k, db.jobs[k].(status := Pending, retryAt := Some(now))).jobs;
  }

  // ----- AdvancePipelineCycle -----

  /** The worker's copy of a cycle: it runs and stands at the worker's step, or it has ended. */
  ghost predicate Held(db: Db, cycle: int, kind: CycleKind, step: nat) {
    && cycle in db.cycles && db.cycles[cycle].kind == kind && step < db.stepCount
    && db.cycles[cycle].status != CycleQueued
    && (db.cycles[cycle].status == CycleRunning ==> db.cycles[cycle].activeStep == step)
  }

  function Opened(db: Db, cycle: int, step: nat): Db {
    db.(jobs := OpenStage(db, cycle, step), cycles := MoveStage(db.cycles, cycle, step + 1))
  }

  lemma OpenedShape(db: Db, cycle: int, step: nat)
    requires Shape(db)
    ensures Shape(Opened(db, cycle, step))
  {
  }

  lemma OpenedKeeps(db: Db, cycle: int, step: nat)
    requires NoRunningJob(db)
    ensures Keeps(db, Opened(db, cycle, step)) && NoRunningJob(Opened(db, cycle, step))
  {
  }

  lemma OpenedSucceeded(db: Db, cycle: int, step: nat, i: int, n: nat)
    ensures SucceededAt(Opened(db, cycle, step), i, n) <==> SucceededAt(db, i, n)
  {
  }

  lemma OpenedJob(db: Db, cycle: int, kind: CycleKind, step: nat, k: JobKey)
    requires Shape(db) && JobsOk(db) && NoRunningJob(db) && Held(db, cycle, kind, step) && step + 1 < db.stepCount
    requires !StageOpen(db, cycle, step) && k in db.jobs
    requires db.items[k.item].cycle == cycle && !Active(db.cycles[cycle].status) ==> !Open(db.jobs[k].status)
    ensures Shape(Opened(db, cycle, step)) && JobOk(Opened(db, cycle, step), k)
  {
    OpenedShape(db, cycle, step);
    var s := Opened(db, cycle, step);
    var before := JobKey(k.item, step);
    assert JobOk(db, k);
    assert before in db.jobs && JobOk(db, before);
    if InCycle(db, k.item, cycle) && db.cycles[cycle].status == CycleRunning {
      assert before in StageJobs(db, cycle, step);
      assert !Open(db.jobs[before].status);
      if k.step == step { assert k == before; }
    }
    forall n: nat | n < k.step && (s.jobs[k].status == Pending || s.jobs[k].status == Running || s.jobs[k].status == Succeeded)
      ensures SucceededAt(s, k.item, n)
    {
      OpenedSucceeded(db, cycle, step, k.item, n);
      OpenedSucceeded(db, cycle, step, k.item, step);
    }
  }

  lemma OpenedItem(db: Db, cycle: int, step: nat, i: int)
    requires Shape(db) && i in db.items && ItemOk(db, i)
    ensures Shape(Opened(db, cycle, step)) && ItemOk(Opened(db, cycle, step), i)
  {
    OpenedShape(db, cycle, step);
    OpenedSucceeded(db, cycle, step, i, db.stepCount - 1);
  }

  /** A terminal cycle has no open job: its items are settled, and settled items have none. */
  lemma TerminalCycleHasNoOpenJob(db: Db, k: JobKey)
    requires Inv(db) && k in db.jobs && !Active(db.cycles[db.items[k.item].cycle].status)
    ensures !Open(db.jobs[k].status)
  {
    assert JobOk(db, k) && ItemOk(db, k.item);
  }

  lemma OpenedKeepsInv(db: Db, cycle: int, kind: CycleKind, step: nat)
    requires Inv(db) && NoRunningJob(db) && Held(db, cycle, kind, step) && step + 1 < db.stepCount && !StageOpen(db, cycle, step)
    ensures var s := Opened(db, cycle, step); Inv(s) && Held(s, cycle, kind, step + 1)
  {
    var s := Opened(db, cycle, step);
    OpenedShape(db, cycle, step);
    OpenedKeeps(db, cycle, step);
    forall k | k in s.jobs ensures JobOk(s, k) {
      if !Active(db.cycles[db.items[k.item].cycle].status) { TerminalCycleHasNoOpenJob(db, k); }
      OpenedJob(db, cycle, kind, step, k);
    }
    forall i | i in s.items ensures ItemOk(s, i) { OpenedItem(db, cycle, step, i); }
    assert CyclesOk(s);
    SameRuns(db, s);
    Assemble(s);
  }

  function Settle(db: Db, cycle: int): Db
    requires db.stepCount > 0
  {
    var d1 := db.(items := SettleItems(db, cycle, db.stepCount - 1));
    var d2 := d1.(runs := SettleRuns(d1, cycle));
    d2.(cycles := SettleCycle(d2, cycle))
  }

  lemma SettleShape(db: Db, cycle: int)
    requires Shape(db)
    ensures Shape(Settle(db, cycle))
  {
  }

  lemma SettleJob(db: Db, cycle: int, k: JobKey)
    requires Shape(db) && NoRunningJob(db) && k in db.jobs && JobOk(db, k)
    requires InCycle(db, k.item, cycle) ==> !Open(db.jobs[k].status)
    ensures Shape(Settle(db, cycle)) && JobOk(Settle(db, cycle), k)
  {
    SettleShape(db, cycle);
    forall n: nat | n < k.step && SucceededAt(db, k.item, n) ensures SucceededAt(Settle(db, cycle), k.item, n) {}
  }

  lemma SettleRunsAt(db: Db, cycle: int, i: int)
    requires i in db.items && db.items[i].run in db.runs
    requires OwnRuns(db.items)
    ensures var r := db.items[i].run; var before := db.runs[r].status;
            r in SettleRuns(db, cycle) && SettleRuns(db, cycle)[r].status ==
              if db.items[i].cycle != cycle then before
              else if db.items[i].status == ItemSucceeded then Complete
              else if before != RunSuperseded then RunFailed else RunSuperseded
  {
    var all := set j | j in db.items && db.items[j].cycle == cycle;
    RunOwner(db.items, all, i);
    var succeeded := set j | j in all && db.items[j].status == ItemSucceeded;
    RunOwner(db.items, succeeded, i);
  }

  lemma SettledRunStatus(db: Db, cycle: int, i: int)
    requires Shape(db) && OwnRuns(db.items) && i in db.items && ItemOk(db, i)
    ensures var s := Settle(db, cycle); var r := db.items[i].run;
            s.items[i].run == r && r in s.runs &&
            s.runs[r].status ==
              if db.items[i].cycle != cycle then db.runs[r].status
              else if SucceededAt(db, i, db.stepCount - 1) then Complete
              else if db.runs[r].status != RunSuperseded then RunFailed else RunSuperseded
  {
    var d1 := db.(items := SettleItems(db, cycle, db.stepCount - 1));
    forall j | j in d1.items ensures d1.items[j].run == db.items[j].run && d1.items[j].cycle == db.items[j].cycle {}
    SettleRunsAt(d1, cycle, i);
  }

  lemma SettleItem(db: Db, cycle: int, i: int)
    requires Shape(db) && OwnRuns(db.items) && i in db.items && ItemOk(db, i)
    ensures Shape(Settle(db, cycle)) && ItemOk(Settle(db, cycle), i)
    ensures db.runs[db.items[i].run].status == Complete ==> Settle(db, cycle).runs[db.items[i].run].status == Complete
    ensures db.items[i].cycle == cycle ==> Settle(db, cycle).items[i].status != ItemPending
  {
    SettleShape(db, cycle);
    SettledRunStatus(db, cycle, i);
    assert SucceededAt(Settle(db, cycle), i, db.stepCount - 1) <==> SucceededAt(db, i, db.stepCount - 1);
  }

  lemma SettleKeeps(db: Db, cycle: int)
    requires Shape(db) && OwnRuns(db.items) && ItemsOk(db)
    ensures Keeps(db, Settle(db, cycle))
  {
    var s := Settle(db, cycle);
    forall r | r in db.runs ensures r in s.runs && (db.runs[r].status == Complete ==> s.runs[r].status == Complete) {
      if i :| i in db.items && db.items[i].run == r { SettleItem(db, cycle, i); }
    }
  }

  lemma SettleCycles(db: Db, cycle: int)
    requires db.stepCount > 0 && CyclesOk(db)
    ensures CyclesOk(Settle(db, cycle))
    ensures cycle in db.cycles && db.cycles[cycle].status != CycleQueued ==>
              !Active(Settle(db, cycle).cycles[cycle].status)
    ensures forall c | c in db.cycles && c != cycle :: c in Settle(db, cycle).cycles && Settle(db, cycle).cycles[c] == db.cycles[c]
    ensures Settle(db, cycle).cycles.Keys == db.cycles.Keys
  {
  }

  lemma SettleKeepsInv(db: Db, cycle: int, kind: CycleKind)
    requires Inv(db) && NoRunningJob(db) && Held(db, cycle, kind, db.stepCount - 1) && !StageOpen(db, cycle, db.stepCount - 1)
    ensures var s := Settle(db, cycle); Inv(s) && NoRunningJob(s) && Held(s, cycle, kind, db.stepCount - 1)
  {
    var s := Settle(db, cycle);
    SettleShape(db, cycle);
    SettleCycles(db, cycle);
    forall k | k in s.jobs ensures JobOk(s, k) {
      assert JobOk(db, k);
      if InCycle(db, k.item, cycle) { FinishedJob(db, cycle, kind, k); }
      SettleJob(db, cycle, k);
    }
    forall i | i in s.items ensures ItemOk(s, i) { SettleItem(db, cycle, i); }
    SameRuns(db, s);
    Assemble(s);
  }

  lemma FinishedJob(db: Db, cycle: int, kind: CycleKind, k: JobKey)
    requires Inv(db) && NoRunningJob(db) && Held(db, cycle, kind, db.stepCount - 1) && !StageOpen(db, cycle, db.stepCount - 1)
    requires k in db.jobs && InCycle(db, k.item, cycle)
    ensures !Open(db.jobs[k].status)
  {
    assert JobOk(db, k);
    if !Active(db.cycles[cycle].status) {
      TerminalCycleHasNoOpenJob(db, k);
    } else if k.step == db.stepCount - 1 {
      assert k in StageJobs(db, cycle, db.stepCount - 1);
    }
  }

  // ----- the supersede helpers -----

  lemma SupersededRunsOwner(db: Db, items: map<int, Item>, i: int)
    requires OwnRuns(db.items) && items.Keys == db.items.Keys && (forall i | i in items :: items[i].run == db.items[i].run) && i in items
    ensures items[i].run in RunsOf(items, SupersededItems(items)) <==> items[i].status == ItemSuperseded
  {
    RunOwner(items, SupersededItems(items), i);
  }

  lemma CloseCyclesKeepsInv(db: Db, emptied: set<int>)
    requires Inv(db)
    requires forall c | c in emptied && c in db.cycles :: AutomaticKind(db.cycles[c].kind) && Active(db.cycles[c].status)
    requires forall i | i in db.items && db.items[i].status == ItemPending :: db.items[i].cycle !in emptied
    ensures var s := db.(cycles := SupersedeCycles(db.cycles, emptied)); Inv(s) && Keeps(db, s)
  {
    var s := db.(cycles := SupersedeCycles(db.cycles, emptied));
    ClosedCyclesOk(db, emptied);
    forall k | RunningJob(db, k) ensures s.cycles[db.items[k.item].cycle].status == CycleRunning { assert JobOk(db, k); }
    forall i | i in db.items && db.items[i].status == ItemPending ensures Active(s.cycles[db.items[i].cycle].status) { assert ItemOk(db, i); }
    RestatusKeepsInv(db, s.cycles);
  }

  lemma ClosedCyclesOk(db: Db, emptied: set<int>)
    requires CyclesOk(db)
    ensures CyclesOk(db.(cycles := SupersedeCycles(db.cycles, emptied)))
  {
  }

  lemma SupersedeAndCloseKeepsInv(db: Db, jobRows: set<int>, itemRows: set<int>, emptied: set<int>)
    requires Inv(db) && itemRows <= jobRows <= db.items.Keys
    requires forall k | k in db.jobs && k.item in jobRows :: db.jobs[k].status != Running
    requires forall i | i in jobRows && db.items[i].status == ItemPending :: i in itemRows
    requires forall c | c in emptied && c in db.cycles :: AutomaticKind(db.cycles[c].kind) && Active(db.cycles[c].status)
    requires forall i | i in db.items && i !in itemRows && db.items[i].status == ItemPending :: db.items[i].cycle !in emptied
    ensures var s := SupersedeAndClose(db, jobRows, itemRows, emptied);
            Inv(s) && Keeps(db, s) && (NoRunningJob(db) ==> NoRunningJob(s))
  {
    var items := SupersedeItems(db.items, itemRows);
    var runs := RunsOf(items, SupersededItems(items));
    var mid := Supersede(db, jobRows, itemRows, runs);
    SupersedableBySuperseded(db, jobRows, itemRows);
    SupersedeKeepsInv(db, jobRows, itemRows, runs);
    SupersedeKeeps(db, jobRows, itemRows, runs);
    CloseCyclesKeepsInv(mid, emptied);
    KeepsTransitive(db, mid, SupersedeAndClose(db, jobRows, itemRows, emptied));
  }

  lemma SupersedableBySuperseded(db: Db, jobRows: set<int>, itemRows: set<int>)
    requires OwnRuns(db.items) && itemRows <= jobRows <= db.items.Keys
    requires forall k | k in db.jobs && k.item in jobRows :: db.jobs[k].status != Running
    requires forall i | i in jobRows && db.items[i].status == ItemPending :: i in itemRows
    ensures var items := SupersedeItems(db.items, itemRows); Supersedable(db, jobRows, itemRows, RunsOf(items, SupersededItems(items)))
  {
    var items := SupersedeItems(db.items, itemRows);
    forall i | i in items ensures items[i].run in RunsOf(items, SupersededItems(items)) <==> items[i].status == ItemSuperseded {
      SupersededRunsOwner(db, items, i);
    }
    assert forall i | i in itemRows :: items[i].run == db.items[i].run && items[i].status == ItemSuperseded;
  }

  lemma SupersedeCompletedKeepsInv(db: Db, manual: int)
    requires Inv(db) && NoRunningJob(db)
    ensures var s := SupersedeCompletedManualTargets(db, manual); Inv(s) && NoRunningJob(s) && Keeps(db, s)
  {
    var hits := AutomaticItems(db, {CycleQueued, CycleRunning}, FinishedTargets(db, manual));
    var pending := set i | i in hits && db.items[i].status == ItemPending;
    var items := SupersedeItems(db.items, pending);
    assert forall i | i in db.items && i !in pending && db.items[i].status == ItemPending :: items[i].status == ItemPending;
    SupersedeAndCloseKeepsInv(db, hits, pending, CyclesWithoutPending(db, items));
  }

  lemma SupersedeQueuedKeepsInv(db: Db, manual: int)
    requires Inv(db)
    ensures var s := SupersedeQueuedAutomaticTargets(db, manual);
            Inv(s) && Keeps(db, s) && (NoRunningJob(db) ==> NoRunningJob(s))
  {
    var hits := AutomaticItems(db, {CycleQueued}, QueuedTargets(db, manual));
    var items := SupersedeItems(db.items, hits);
    forall k | k in db.jobs && k.item in hits ensures db.jobs[k].status != Running { assert JobOk(db, k); }
    assert forall i | i in db.items && i !in hits && db.items[i].status == ItemPending :: items[i].status != ItemSuperseded;
    SupersedeAndCloseKeepsInv(db, hits, hits, CyclesAllSuperseded(db, items));
  }

  lemma AdvanceKeepsInv(db: Db, cycle: int, kind: CycleKind, step: nat, now: int)
    requires Inv(db) && NoRunningJob(db) && Held(db, cycle, kind, step)
    ensures var (s, result) := AdvancePipelineCycle(db, cycle, kind, step, now);
            && Inv(s) && NoRunningJob(s) && Keeps(db, s)
            && (result.Blocked? ==> s == db)
            && (result.Advanced? ==> Held(s, cycle, kind, step + 1))
  {
    var (s, result) := AdvancePipelineCycle(db, cycle, kind, step, now);
    if result.Advanced? {
      OpenedKeepsInv(db, cycle, kind, step);
      OpenedKeeps(db, cycle, step);
    } else if result.Completed? {
      var settled := Settle(db, cycle);
      SettleKeepsInv(db, cycle, kind);
      SettleKeeps(db, cycle);
      if kind == Manual {
        SupersedeCompletedKeepsInv(settled, cycle);
        KeepsTransitive(db, settled, s);
      }
    }
  }

  // ----- createPipelineCycleTx -----

  /** The targets exist, and the models cover exactly the registered steps. */
  ghost predicate Creatable(db: Db, targets: seq<int>, models: seq<string>) {
    && (forall t | t in targets :: t in db.incidents)
    && |models| == db.stepCount
  }

  /** Rows of one new cycle: pending items, each with a processing run, a pending first job and waiting others. */
  ghost predicate FreshRows(db: Db, items: map<int, Item>, runs: map<int, Run>, jobs: map<JobKey, Job>, count: nat) {
    && (forall i | i in items ::
          db.nextItem <= i < db.nextItem + count && items[i].cycle == db.nextCycle && items[i].status == ItemPending &&
          items[i].run == db.nextRun + i - db.nextItem && items[i].run in runs)
    && (forall r | r in runs :: db.nextRun <= r < db.nextRun + count && runs[r].status == Processing)
    && (forall k: JobKey :: k in jobs <==> k.item in items && k.step < db.stepCount)
    && (forall k | k in jobs :: jobs[k].status == if k.step == 0 then Pending else Waiting)
  }

  lemma NewRowsAreFresh(db: Db, targets: seq<int>, models: seq<string>)
    requires Creatable(db, targets, models)
    ensures FreshRows(db, NewItems(db, targets), NewRuns(db, targets), NewJobs(db.nextItem, |targets|, models), |targets|)
  {
    NewItemsRows(db, targets);
    NewRunsRows(db, targets);
    NewJobsRows(db.nextItem, |targets|, models);
    ListedRowsAreFresh(db, targets, models, NewItems(db, targets), NewRuns(db, targets), NewJobs(db.nextItem, |targets|, models));
  }

  lemma ListedRowsAreFresh(db: Db, targets: seq<int>, models: seq<string>, items: map<int, Item>, runs: map<int, Run>, jobs: map<JobKey, Job>)
    requires Creatable(db, targets, models)
    requires forall i :: i in items <==> db.nextItem <= i < db.nextItem + |targets|
    requires forall i | i in items :: items[i] == NewItem(db, targets[i - db.nextItem], i - db.nextItem)
    requires forall r :: r in runs <==> db.nextRun <= r < db.nextRun + |targets|
    requires forall r | r in runs :: runs[r] == NewRun(db, targets[r - db.nextRun])
    requires forall k: JobKey :: k in jobs <==> db.nextItem <= k.item < db.nextItem + |targets| && k.step < |models|
    requires forall k | k in jobs :: jobs[k] == NewJob(models, k.step)
    ensures FreshRows(db, items, runs, jobs, |targets|)
  {
  }

  ghost predicate Extends(db: Db, s: Db) {
    && s.stepCount == db.stepCount
    && (forall k | k in db.jobs :: k in s.jobs && s.jobs[k] == db.jobs[k])
    && (forall i | i in db.items :: i in s.items && s.items[i] == db.items[i])
    && (forall r | r in db.runs :: r in s.runs && s.runs[r] == db.runs[r])
    && (forall c | c in db.cycles :: c in s.cycles && s.cycles[c] == db.cycles[c])
  }

  lemma AddedRowsExtend(db: Db, cycle: Cycle, items: map<int, Item>, runs: map<int, Run>, jobs: map<JobKey, Job>, count: nat)
    requires Shape(db) && FreshRows(db, items, runs, jobs, count)
    ensures Extends(db, AddRows(db, cycle, items, runs, jobs, count))
  {
  }

  lemma ExtendsKeeps(db: Db, s: Db)
    requires Extends(db, s)
    ensures Keeps(db, s)
  {
  }

  lemma AddedRowsShape(db: Db, cycle: Cycle, items: map<int, Item>, runs: map<int, Run>, jobs: map<JobKey, Job>, count: nat)
    requires Shape(db) && FreshRows(db, items, runs, jobs, count)
    ensures Shape(AddRows(db, cycle, items, runs, jobs, count))
  {
    var s := AddRows(db, cycle, items, runs, jobs, count);
    forall i | i in s.items ensures s.items[i].cycle in s.cycles && s.items[i].run in s.runs && i < s.nextItem {
      if i !in items { assert i in db.items; }
    }
  }

  lemma AddedRowsOwnRuns(db: Db, cycle: Cycle, items: map<int, Item>, runs: map<int, Run>, jobs: map<JobKey, Job>, count: nat)
    requires Shape(db) && OwnRuns(db.items) && FreshRows(db, items, runs, jobs, count)
    ensures OwnRuns(AddRows(db, cycle, items, runs, jobs, count).items)
  {
    var s := AddRows(db, cycle, items, runs, jobs, count);
    forall i, j | i in s.items && j in s.items && s.items[i].run == s.items[j].run ensures i == j {
      if i !in items { assert db.items[i].run < db.nextRun; }
      if j !in items { assert db.items[j].run < db.nextRun; }
    }
  }

  lemma AddedRowsRunning(db: Db, cycle: Cycle, items: map<int, Item>, runs: map<int, Run>, jobs: map<JobKey, Job>, count: nat)
    requires FreshRows(db, items, runs, jobs, count)
    ensures var s := AddRows(db, cycle, items, runs, jobs, count);
            (OneRunningJob(db) ==> OneRunningJob(s)) && (NoRunningJob(db) ==> NoRunningJob(s))
  {
    var s := AddRows(db, cycle, items, runs, jobs, count);
    forall k | RunningJob(s, k) ensures RunningJob(db, k) {}
  }

  lemma ExtendedJob(db: Db, s: Db, k: JobKey)
    requires Shape(db) && Shape(s) && Extends(db, s) && k in db.jobs && JobOk(db, k)
    ensures JobOk(s, k)
  {
    forall n: nat | n < k.step && SucceededAt(db, k.item, n) ensures SucceededAt(s, k.item, n) {}
  }

  lemma ExtendedItem(db: Db, s: Db, i: int)
    requires Shape(db) && Shape(s) && Extends(db, s) && i in db.items && ItemOk(db, i)
    ensures ItemOk(s, i)
  {
    assert JobKey(i, db.stepCount - 1) in db.jobs;
    assert SucceededAt(s, i, db.stepCount - 1) <==> SucceededAt(db, i, db.stepCount - 1);
  }

  lemma AddedJob(db: Db, cycle: Cycle, items: map<int, Item>, runs: map<int, Run>, jobs: map<JobKey, Job>, count: nat, k: JobKey)
    requires Shape(db) && FreshRows(db, items, runs, jobs, count) && cycle.status == CycleQueued && cycle.activeStep == 0 && k in jobs
    ensures var s := AddRows(db, cycle, items, runs, jobs, count); Shape(s) && JobOk(s, k)
  {
    AddedRowsShape(db, cycle, items, runs, jobs, count);
  }

  lemma AddedItem(db: Db, cycle: Cycle, items: map<int, Item>, runs: map<int, Run>, jobs: map<JobKey, Job>, count: nat, i: int)
    requires Shape(db) && FreshRows(db, items, runs, jobs, count) && cycle.status == CycleQueued && i in items
    ensures var s := AddRows(db, cycle, items, runs, jobs, count); Shape(s) && ItemOk(s, i)
  {
    AddedRowsShape(db, cycle, items, runs, jobs, count);
    assert JobKey(i, db.stepCount - 1) in jobs;
  }

  lemma AddedCycleOk(db: Db, s: Db, cycle: Cycle)
    requires Linked(db) && CyclesOk(db) && s.cycles == db.cycles[db.nextCycle := cycle] && s.stepCount == db.stepCount
    requires cycle.status == CycleQueued && cycle.activeStep < db.stepCount
    requires QueuedManual(cycle) ==> forall c :: !QueuedRequest(db, c, cycle.requestKey.value)
    ensures CyclesOk(s)
  {
    forall c | c in db.cycles && QueuedManual(db.cycles[c]) && QueuedManual(cycle) ensures db.cycles[c].requestKey != cycle.requestKey {
      assert !QueuedRequest(db, c, cycle.requestKey.value);
    }
  }

  lemma AddedRowsKeepInv(db: Db, cycle: Cycle, items: map<int, Item>, runs: map<int, Run>, jobs: map<JobKey, Job>, count: nat)
    requires Inv(db) && FreshRows(db, items, runs, jobs, count) && cycle.status == CycleQueued && cycle.activeStep == 0
    requires QueuedManual(cycle) ==> forall c :: !QueuedRequest(db, c, cycle.requestKey.value)
    ensures var s := AddRows(db, cycle, items, runs, jobs, count);
            Inv(s) && Keeps(db, s) && (NoRunningJob(db) ==> NoRunningJob(s))
  {
    var s := AddRows(db, cycle, items, runs, jobs, count);
    AddedRowsShape(db, cycle, items, runs, jobs, count);
    AddedRowsOwnRuns(db, cycle, items, runs, jobs, count);
    AddedRowsRunning(db, cycle, items, runs, jobs, count);
    AddedRowsExtend(db, cycle, items, runs, jobs, count);
    ExtendsKeeps(db, s);
    forall k | k in s.jobs ensures JobOk(s, k) {
      if k in jobs { AddedJob(db, cycle, items, runs, jobs, count, k); } else { ExtendedJob(db, s, k); }
    }
    forall i | i in s.items ensures ItemOk(s, i) {
      if i in items { AddedItem(db, cycle, items, runs, jobs, count, i); } else { ExtendedItem(db, s, i); }
    }
    AddedCycleOk(db, s, cycle);
    Assemble(s);
  }

  lemma CreateKeepsInv(db: Db, kind: CycleKind, key: Option<RequestKey>, targets: seq<int>, models: seq<string>, plans: seq<Plan>, now: int)
    requires Inv(db) && Creatable(db, targets, models)
    requires kind == Manual && key.Some? ==> forall c :: !QueuedRequest(db, c, key.value)
    ensures var s := CreateCycle(db, kind, key, targets, models, plans, now);
            Inv(s) && Keeps(db, s) && (NoRunningJob(db) ==> NoRunningJob(s))
  {
    NewRowsAreFresh(db, targets, models);
    AddedRowsKeepInv(db, Cycle(kind, CycleQueued, 0, now, models, plans, key),
                     NewItems(db, targets), NewRuns(db, targets), NewJobs(db.nextItem, |targets|, models), |targets|);
  }

  // ----- RequestManual, activation, suspension, interruption and cancelling -----

  lemma CreateManualKeepsInv(db: Db, models: seq<string>, plans: seq<Plan>, incident: Option<int>, reprocessAll: bool, now: int)
    requires Inv(db) && |models| == db.stepCount
    ensures var s := CreateManualPipelineCycle(db, models, plans, incident, reprocessAll, now).0;
            Inv(s) && Keeps(db, s) && (NoRunningJob(db) ==> NoRunningJob(s))
  {
    var rows := ManualTargets(db, incident, reprocessAll);
    var key := ManualKey(db, models, plans, rows);
    var queued := QueuedRequests(db, key);
    if queued == {} && rows != {} {
      TargetOrderIsTotal(db, rows);
      forall c ensures !QueuedRequest(db, c, key) { assert c !in queued; }
      RequestKeepsInv(db, key, Sorted(rows, TargetOrder(db)), models, plans, now);
    }
  }

  lemma RequestKeepsInv(db: Db, key: RequestKey, targets: seq<int>, models: seq<string>, plans: seq<Plan>, now: int)
    requires Inv(db) && Creatable(db, targets, models) && forall c :: !QueuedRequest(db, c, key)
    ensures var s := SupersedeQueuedAutomaticTargets(CreateCycle(db, Manual, Some(key), targets, models, plans, now), db.nextCycle);
            Inv(s) && Keeps(db, s) && (NoRunningJob(db) ==> NoRunningJob(s))
  {
    var created := CreateCycle(db, Manual, Some(key), targets, models, plans, now);
    CreateKeepsInv(db, Manual, Some(key), targets, models, plans, now);
    SupersedeQueuedKeepsInv(created, db.nextCycle);
    KeepsTransitive(db, created, SupersedeQueuedAutomaticTargets(created, db.nextCycle));
  }

  lemma SetStatusKeepsInv(db: Db, cycle: int, status: CycleStatus)
    requires Inv(db) && NoRunningJob(db) && cycle in db.cycles && Active(db.cycles[cycle].status) && Active(status)
    requires status == CycleRunning ==> RunningCycles(db.cycles) == {}
    requires status == CycleQueued ==> db.cycles[cycle].kind != Manual
    ensures var s := db.(cycles := SetCycleStatus(db.cycles, cycle, status)); Inv(s) && Keeps(db, s)
  {
    var s := db.(cycles := SetCycleStatus(db.cycles, cycle, status));
    forall c | c in db.cycles && status == CycleRunning ensures db.cycles[c].status != CycleRunning {
      assert c !in RunningCycles(db.cycles);
    }
    SetStatusCyclesOk(db, cycle, status);
    forall i | i in db.items && db.items[i].status == ItemPending ensures Active(s.cycles[db.items[i].cycle].status) { assert ItemOk(db, i); }
    RestatusKeepsInv(db, s.cycles);
  }

  lemma SetStatusCyclesOk(db: Db, cycle: int, status: CycleStatus)
    requires CyclesOk(db) && cycle in db.cycles
    requires status == CycleRunning ==> forall c | c in db.cycles :: db.cycles[c].status != CycleRunning
    requires status == CycleQueued ==> db.cycles[cycle].kind != Manual
    ensures CyclesOk(db.(cycles := SetCycleStatus(db.cycles, cycle, status)))
  {
  }

  lemma OnlyRunningCycle(db: Db, cycle: int)
    requires CyclesOk(db) && cycle in db.cycles && db.cycles[cycle].status == CycleRunning
    ensures RunningCycles(SetCycleStatus(db.cycles, cycle, CycleQueued)) == {}
  {
    var after := SetCycleStatus(db.cycles, cycle, CycleQueued);
    forall c | c in after ensures after[c].status != CycleRunning {}
  }

  lemma ActivateKeepsInv(db: Db, models: seq<string>, allowScheduled: bool, now: int)
    requires Inv(db) && NoRunningJob(db) && |models| == db.stepCount
    ensures var (s, found) := ActivateNextPipelineCycle(db, models, allowScheduled, now);
            && Inv(s) && NoRunningJob(s) && Keeps(db, s)
            && (found.Some? ==> found.value in s.cycles && s.cycles[found.value].status == CycleRunning)
  {
    var running := SelectCycle(db.cycles, RunningCycles(db.cycles));
    if db.processing && !(running.Some? && (db.automatic || db.cycles[running.value].kind == Manual)) {
      var d1 := if running.Some? then db.(cycles := SetCycleStatus(db.cycles, running.value, CycleQueued)) else db;
      if running.Some? { RequeueKeepsInv(db, running.value); }
      ActivateQueuedKeepsInv(d1, models, allowScheduled, now);
      KeepsTransitive(db, d1, ActivateNextPipelineCycle(db, models, allowScheduled, now).0);
    }
  }

  lemma RequeueKeepsInv(db: Db, cycle: int)
    requires Inv(db) && NoRunningJob(db)
    requires cycle in db.cycles && db.cycles[cycle].status == CycleRunning && db.cycles[cycle].kind != Manual
    ensures var d1 := db.(cycles := SetCycleStatus(db.cycles, cycle, CycleQueued));
            Inv(d1) && NoRunningJob(d1) && Keeps(db, d1) && RunningCycles(d1.cycles) == {}
  {
    SetStatusKeepsInv(db, cycle, CycleQueued);
    OnlyRunningCycle(db, cycle);
  }

  lemma ActivateQueuedKeepsInv(d1: Db, models: seq<string>, allowScheduled: bool, now: int)
    requires Inv(d1) && NoRunningJob(d1) && |models| == d1.stepCount && RunningCycles(d1.cycles) == {}
    ensures var (s, found) := ActivateQueued(d1, models, allowScheduled, now);
            && Inv(s) && NoRunningJob(s) && Keeps(d1, s)
            && (found.Some? ==> found.value in s.cycles && s.cycles[found.value].status == CycleRunning)
  {
    var queued := SelectCycle(d1.cycles, QueuedCycles(d1.cycles, d1.automatic));
    var rows := ScheduledTargets(d1);
    if queued.Some? {
      StartKeepsInv(d1, queued.value);
    } else if allowScheduled && d1.automatic && rows != {} {
      TargetOrderIsTotal(d1, rows);
      ScheduleKeepsInv(d1, Sorted(rows, TargetOrder(d1)), models, now);
    }
  }

  lemma StartKeepsInv(d1: Db, cycle: int)
    requires Inv(d1) && NoRunningJob(d1) && RunningCycles(d1.cycles) == {}
    requires cycle in d1.cycles && d1.cycles[cycle].status == CycleQueued
    ensures var s := d1.(cycles := SetCycleStatus(d1.cycles, cycle, CycleRunning));
            Inv(s) && NoRunningJob(s) && Keeps(d1, s) && s.cycles[cycle].status == CycleRunning
  {
    SetStatusKeepsInv(d1, cycle, CycleRunning);
  }

  lemma ScheduleKeepsInv(d1: Db, targets: seq<int>, models: seq<string>, now: int)
    requires Inv(d1) && NoRunningJob(d1) && Creatable(d1, targets, models) && RunningCycles(d1.cycles) == {}
    ensures var d2 := CreateCycle(d1, Scheduled, None, targets, models, [], now);
            var s := d2.(cycles := SetCycleStatus(d2.cycles, d1.nextCycle, CycleRunning));
            && Inv(s) && NoRunningJob(s) && Keeps(d1, s)
            && d1.nextCycle in s.cycles && s.cycles[d1.nextCycle].status == CycleRunning
  {
    CreateKeepsInv(d1, Scheduled, None, targets, models, [], now);
    var d2 := CreateCycle(d1, Scheduled, None, targets, models, [], now);
    NoRunningAfterAdd(d1.cycles, d1.nextCycle, d2.cycles[d1.nextCycle]);
    SetStatusKeepsInv(d2, d1.nextCycle, CycleRunning);
    KeepsTransitive(d1, d2, d2.(cycles := SetCycleStatus(d2.cycles, d1.nextCycle, CycleRunning)));
  }

  lemma NoRunningAfterAdd(cycles: map<int, Cycle>, c: int, cycle: Cycle)
    requires RunningCycles(cycles) == {} && cycle.status != CycleRunning
    ensures RunningCycles(cycles[c := cycle]) == {}
  {
    forall d | d in cycles ensures cycles[d].status != CycleRunning { assert d !in RunningCycles(cycles); }
  }

  lemma SuspendKeepsInv(db: Db, cycle: int)
    requires Inv(db) && NoRunningJob(db)
    ensures var s := SuspendAutomaticCycle(db, cycle).0; Inv(s) && NoRunningJob(s) && Keeps(db, s)
  {
    if RunningAutomatic(db, cycle) { SetStatusKeepsInv(db, cycle, CycleQueued); }
  }

  lemma ContinueShape(db: Db, cycle: int, now: int)
    requires Shape(db) && cycle in db.cycles
    ensures Shape(Continue(db, cycle, now))
  {
  }

  lemma ContinueKeeps(db: Db, cycle: int, now: int)
    requires Linked(db) && cycle in db.cycles && Active(db.cycles[cycle].status)
    ensures Keeps(db, Continue(db, cycle, now))
  {
  }

  lemma ContinueJob(db: Db, cycle: int, now: int, k: JobKey)
    requires Shape(db) && NoRunningJob(db) && cycle in db.cycles && k in db.jobs && JobOk(db, k)
    ensures Shape(Continue(db, cycle, now)) && JobOk(Continue(db, cycle, now), k)
  {
    ContinueShape(db, cycle, now);
    forall n: nat | n < k.step && SucceededAt(db, k.item, n) ensures SucceededAt(Continue(db, cycle, now), k.item, n) {}
  }

  lemma ContinueItem(db: Db, cycle: int, now: int, i: int)
    requires Shape(db) && cycle in db.cycles && i in db.items && ItemOk(db, i)
    ensures Shape(Continue(db, cycle, now)) && ItemOk(Continue(db, cycle, now), i)
  {
    ContinueShape(db, cycle, now);
    assert SucceededAt(Continue(db, cycle, now), i, db.stepCount - 1) <==> SucceededAt(db, i, db.stepCount - 1);
  }

  lemma ContinueCyclesOk(db: Db, cycle: int, now: int)
    requires Linked(db) && CyclesOk(db) && cycle in db.cycles
    ensures CyclesOk(Continue(db, cycle, now))
  {
  }

  lemma ContinueKeepsInv(db: Db, cycle: int, now: int)
    requires Inv(db) && NoRunningJob(db) && RunningAutomatic(db, cycle)
    ensures var s := Continue(db, cycle, now); Inv(s) && NoRunningJob(s) && Keeps(db, s)
  {
    var s := Continue(db, cycle, now);
    ContinueShape(db, cycle, now);
    ContinueKeeps(db, cycle, now);
    ContinueCyclesOk(db, cycle, now);
    forall k | k in s.jobs ensures JobOk(s, k) { ContinueJob(db, cycle, now, k); }
    forall i | i in s.items ensures ItemOk(s, i) { ContinueItem(db, cycle, now, i); }
    SameRuns(db, s);
    Assemble(s);
  }

  lemma InterruptKeepsInv(db: Db, cycle: int, now: int)
    requires Inv(db) && NoRunningJob(db)
    ensures var s := InterruptBlockedAutomaticCycle(db, cycle, now).0; Inv(s) && NoRunningJob(s) && Keeps(db, s)
  {
    if RunningAutomatic(db, cycle) {
      if db.cycles[cycle].kind == Continuation {
        SetStatusKeepsInv(db, cycle, CycleQueued);
      } else {
        ContinueKeepsInv(db, cycle, now);
      }
    }
  }

  /** Nothing unfinished is left anywhere. */
  ghost predicate AllSettled(db: Db) {
    && (forall k | k in db.jobs :: !Open(db.jobs[k].status))
    && (forall i | i in db.items :: db.items[i].status != ItemPending)
    && (forall r | r in db.runs :: db.runs[r].status != Processing)
    && (forall c | c in db.cycles :: !Active(db.cycles[c].status))
  }

  lemma CancelSettles(db: Db)
    ensures AllSettled(CancelAll(db)) && Keeps(db, CancelAll(db)) && !CancelAll(db).automatic
    ensures NoRunningJob(CancelAll(db))
  {
  }

  lemma CancelShape(db: Db)
    requires Shape(db)
    ensures Shape(CancelAll(db))
  {
  }

  lemma CancelJob(db: Db, k: JobKey)
    requires Shape(db) && k in db.jobs && JobOk(db, k)
    ensures Shape(CancelAll(db)) && JobOk(CancelAll(db), k)
  {
    CancelShape(db);
    forall n: nat | n < k.step && SucceededAt(db, k.item, n) ensures SucceededAt(CancelAll(db), k.item, n) {}
  }

  lemma CancelItem(db: Db, i: int)
    requires Shape(db) && i in db.items && ItemOk(db, i)
    ensures Shape(CancelAll(db)) && ItemOk(CancelAll(db), i)
  {
    CancelShape(db);
    assert SucceededAt(CancelAll(db), i, db.stepCount - 1) <==> SucceededAt(db, i, db.stepCount - 1);
  }

  lemma CancelCyclesOk(db: Db)
    requires CyclesOk(db)
    ensures CyclesOk(CancelAll(db))
  {
  }

  lemma CancelKeepsInv(db: Db)
    requires Inv(db)
    ensures Inv(CancelAll(db))
  {
    var s := CancelAll(db);
    CancelShape(db);
    CancelSettles(db);
    CancelCyclesOk(db);
    forall k | k in s.jobs ensures JobOk(s, k) { CancelJob(db, k); }
    forall i | i in s.items ensures ItemOk(s, i) { CancelItem(db, i); }
    SameRuns(db, s);
    Assemble(s);
  }

  // ----- switches and source replacement: no row of the pipeline changes -----

  /** The tables differ at most in the switches and in the incidents. */
  ghost predicate SameRows(db: Db, s: Db) {
    s.stepCount == db.stepCount && s.cycles == db.cycles && s.items == db.items && s.jobs == db.jobs && s.runs == db.runs &&
    s.values == db.values && s.nextCycle == db.nextCycle && s.nextItem == db.nextItem && s.nextRun == db.nextRun
  }

  lemma SameRowsKeepInv(db: Db, s: Db)
    requires Inv(db) && SameRows(db, s)
    ensures Inv(s) && Keeps(db, s) && (NoRunningJob(db) ==> NoRunningJob(s))
  {
    assert Shape(s);
    forall k | k in s.jobs ensures JobOk(s, k) {
      assert JobOk(db, k);
      forall n: nat | n < k.step && SucceededAt(db, k.item, n) ensures SucceededAt(s, k.item, n) {}
    }
    forall i | i in s.items ensures ItemOk(s, i) {
      assert ItemOk(db, i);
      assert SucceededAt(s, i, db.stepCount - 1) <==> SucceededAt(db, i, db.stepCount - 1);
    }
    SameCyclesOk(db, s);
    SameRuns(db, s);
    Assemble(s);
  }
}
