/** The pipeline's transactions as methods that change the tables in place.

Each method runs the statements of one transaction in the source's order and is proved to have
exactly the effect of the function of the same name; an early return before the commit is the
source's rollback. */
module PipelineStore {
  import opened Rows
  import opened Text
  import opened PipelineTables
  import PipelineEffects
  import PipelineRequests

  class Store {
    var automatic: bool
    var processing: bool
    const stepCount: nat
    const cutover: int
    var incidents: map<int, Incident>
    var cycles: map<int, Cycle>
    var items: map<int, Item>
    var jobs: map<JobKey, Job>
    var runs: map<int, Run>
    var values: map<(int, string), string>
    var nextCycle: int
    var nextItem: int
    var nextRun: int

    function Tables(): Db
      reads this
    {
      Db(automatic, processing, stepCount, cutover, incidents, cycles, items, jobs, runs, values, nextCycle, nextItem, nextRun)
    }

    constructor (stepCount: nat, cutover: int)
      ensures Tables() == Db(true, true, stepCount, cutover, map[], map[], map[], map[], map[], map[], 1, 1, 1)
    {
      this.stepCount, this.cutover := stepCount, cutover;
      automatic, processing := true, true;
      incidents, cycles, items, jobs, runs, values := map[], map[], map[], map[], map[], map[];
      nextCycle, nextItem, nextRun := 1, 1, 1;
    }

    method SweepStale(cycle: int)
      modifies this`jobs, this`items, this`runs
      ensures Tables() == PipelineTables.SweepStale(old(Tables()), cycle)
    {
      var stale := StaleItems(Tables(), cycle);
      jobs := SupersedeJobs(jobs, stale);
      items := SupersedeItems(items, stale);
      var rows := set i | i in items && items[i].cycle == cycle && items[i].status == ItemSuperseded;
      runs := SupersedeRuns(runs, RunsOf(items, rows));
    }

    method ClaimPipelineJob(cycle: int, step: nat, now: int) returns (claimed: Option<JobKey>)
      modifies this
      ensures (Tables(), claimed) == PipelineTables.ClaimPipelineJob(old(Tables()), cycle, step, now)
      ensures PipelineEffects.IsClaimOf(old(Tables()), cycle, step, now, Tables(), claimed)
    {
      PipelineEffects.SweptIs(Tables(), cycle);
      SweepStale(cycle);
      PipelineEffects.TakenIs(Tables(), cycle, step, now);
      claimed := SelectJob(Tables(), cycle, step, now);
      if claimed.Some? {
        jobs := MarkRunning(jobs, claimed.value);
      }
    }

    /** The upsert loop over the outputs; a blank kind or value rolls everything back. */
    static method StoreOutputs(values: map<(int, string), string>, run: int, outputs: map<string, string>)
      returns (stored: map<(int, string), string>, valid: bool)
      ensures valid == !HasBlank(outputs)
      ensures valid ==> stored == StoreValues(values, run, outputs)
    {
      stored := values;
      var rest := outputs;
      while rest != map[]
        invariant HasBlank(rest) == HasBlank(outputs)
        invariant StoreValues(stored, run, rest) == StoreValues(values, run, outputs)
        decreases rest.Keys
      {
        var kind :| kind in rest;
        if Blank(kind) || Blank(rest[kind]) {
          return stored, false;
        }
        StoreShrinks(stored, run, rest, kind);
        BlankShrinks(rest, kind);
        stored := stored[(run, kind) := rest[kind]];
        rest := rest - {kind};
      }
      StoreNothing(stored, run);
      valid := true;
    }

    method PublishAfterLast(k: JobKey)
      requires k.item in items
      modifies this`runs, this`items
      ensures Tables() == PipelineTables.PublishAfterLast(old(Tables()), k)
    {
      if LastStage(Tables(), k) {
        runs := PublishRun(runs, items[k.item].run);
        items := SucceedItem(items, k.item);
      }
    }

    method CompletePipelineJob(k: JobKey, outputs: map<string, string>) returns (stored: bool)
      modifies this
      ensures (Tables(), stored) == PipelineTables.CompletePipelineJob(old(Tables()), k, outputs)
      ensures PipelineEffects.IsCompletion(old(Tables()), k, outputs, Tables(), stored)
    {
      stored := StoreResult(k, outputs);
      PipelineEffects.CompletionIs(old(Tables()), k, outputs);
    }

    method StoreResult(k: JobKey, outputs: map<string, string>) returns (stored: bool)
      modifies this
      ensures (Tables(), stored) == PipelineTables.CompletePipelineJob(old(Tables()), k, outputs)
    {
      if k.item !in items {
        return false;
      }
      var run := items[k.item].run;
      var upserted, valid := StoreOutputs(values, run, outputs);
      if !valid {
        return false;
      }
      if k !in jobs || jobs[k].status != Running {
        return false;
      }
      values := upserted;
      jobs := jobs[k := jobs[k].(status := Succeeded)];
      PublishAfterLast(k);
      stored := true;
    }

    method FailPipelineJob(k: JobKey, status: JobStatus, retryAt: Option<int>) returns (stored: bool)
      modifies this`jobs
      ensures (Tables(), stored) == PipelineTables.FailPipelineJob(old(Tables()), k, status, retryAt)
      ensures PipelineEffects.IsFailure(old(Tables()), k, status, retryAt, Tables(), stored)
    {
      PipelineEffects.FailureIs(Tables(), k, status, retryAt);
      if status != Pending && status != NeedsReview && status != Failed {
        return false;
      }
      if k !in jobs || jobs[k].status != Running {
        return false;
      }
      jobs := jobs[k := jobs[k].(status := status, retryAt := retryAt)];
      stored := true;
    }

    method RecoverPipeline(now: int)
      modifies this`jobs
      ensures Tables() == PipelineTables.RecoverPipeline(old(Tables()), now)
      ensures PipelineEffects.IsRecovery(old(Tables()), now, Tables())
    {
      jobs := map k | k in jobs ::
        if jobs[k].status == Running then jobs[k].(status := Pending, retryAt := Some(now)) else jobs[k];
      PipelineEffects.RecoveryIs(old(Tables()), now);
    }

    method SupersedeCompletedManualTargets(manual: int)
      modifies this
      ensures Tables() == PipelineTables.SupersedeCompletedManualTargets(old(Tables()), manual)
    {
      var hits := AutomaticItems(Tables(), {CycleQueued, CycleRunning}, FinishedTargets(Tables(), manual));
      var pending := set i | i in hits && items[i].status == ItemPending;
      jobs := SupersedeJobs(jobs, hits);
      items := SupersedeItems(items, pending);
      runs := SupersedeRuns(runs, RunsOf(items, SupersededItems(items)));
      cycles := SupersedeCycles(cycles, CyclesWithoutPending(Tables(), items));
    }

    method SupersedeQueuedAutomaticTargets(manual: int)
      modifies this
      ensures Tables() == PipelineTables.SupersedeQueuedAutomaticTargets(old(Tables()), manual)
    {
      var hits := AutomaticItems(Tables(), {CycleQueued}, QueuedTargets(Tables(), manual));
      jobs := SupersedeJobs(jobs, hits);
      items := SupersedeItems(items, hits);
      runs := SupersedeRuns(runs, RunsOf(items, SupersededItems(items)));
      cycles := SupersedeCycles(cycles, CyclesAllSuperseded(Tables(), items));
    }

    method SettleCycle(cycle: int)
      modifies this`items, this`runs, this`cycles
      ensures Tables() == PipelineTables.FinishCycle(old(Tables()), cycle, Scheduled)
    {
      items := SettleItems(Tables(), cycle, if stepCount > 0 then stepCount - 1 else 0);
      runs := SettleRuns(Tables(), cycle);
      cycles := PipelineTables.SettleCycle(Tables(), cycle);
    }

    method AdvancePipelineCycle(cycle: int, kind: CycleKind, step: nat, now: int) returns (result: AdvanceResult)
      modifies this
      ensures (Tables(), result) == PipelineTables.AdvancePipelineCycle(old(Tables()), cycle, kind, step, now)
      ensures PipelineEffects.IsAdvance(old(Tables()), cycle, kind, step, now, Tables(), result)
    {
      PipelineEffects.AdvanceIs(Tables(), cycle, kind, step, now);
      if StageOpen(Tables(), cycle, step) {
        return Blocked(StageWaiting(Tables(), cycle, step, now));
      }
      if step + 1 < stepCount {
        jobs := OpenStage(Tables(), cycle, step);
        cycles := MoveStage(cycles, cycle, step + 1);
        return Advanced;
      }
      SettleCycle(cycle);
      if kind == Manual {
        SupersedeCompletedManualTargets(cycle);
      }
      result := Completed;
    }

    method InsertJobs(item: int, models: seq<string>)
      modifies this`jobs
      ensures jobs == old(jobs) + JobsOf(item, models, |models|)
    {
      for step := 0 to |models|
        invariant jobs == old(jobs) + JobsOf(item, models, step)
      {
        MergeBuild(old(jobs), JobsOf(item, models, step), JobKey(item, step), NewJob(models, step));
        jobs := jobs[JobKey(item, step) := NewJob(models, step)];
      }
    }

    method InsertTarget(cycle: int, target: int, models: seq<string>)
      requires target in incidents
      modifies this`runs, this`items, this`jobs, this`nextRun, this`nextItem
      ensures Tables() == PipelineTables.InsertTarget(old(Tables()), cycle, target, models)
    {
      runs := runs[nextRun := NewRun(Tables(), target)];
      items := items[nextItem := Item(cycle, target, incidents[target].hash, nextRun, ItemPending)];
      InsertJobs(nextItem, models);
      nextItem, nextRun := nextItem + 1, nextRun + 1;
    }

    /** The insert loops of createPipelineCycleTx: one run, one item and all step jobs per target. */
    method CreateCycle(kind: CycleKind, key: Option<RequestKey>, targets: seq<int>, models: seq<string>, plans: seq<Plan>, now: int)
      returns (cycle: int)
      requires forall t | t in targets :: t in incidents
      modifies this
      ensures cycle == old(nextCycle)
      ensures Tables() == PipelineTables.CreateCycle(old(Tables()), kind, key, targets, models, plans, now)
    {
      cycle := nextCycle;
      cycles := cycles[cycle := Cycle(kind, CycleQueued, 0, now, models, plans, key)];
      nextCycle := nextCycle + 1;
      CreateNothing(old(Tables()), kind, key, models, plans, now);
      for t := 0 to |targets|
        invariant incidents == old(incidents)
        invariant Tables() == PipelineTables.CreateCycle(old(Tables()), kind, key, targets[..t], models, plans, now)
      {
        CreateGrows(old(Tables()), kind, key, targets, t, models, plans, now);
        InsertTarget(cycle, targets[t], models);
      }
      assert targets[..|targets|] == targets;
    }

    method CreateManualPipelineCycle(models: seq<string>, plans: seq<Plan>, incident: Option<int>, reprocessAll: bool, now: int)
      returns (result: RequestResult)
      modifies this
      ensures (Tables(), result) == PipelineTables.CreateManualPipelineCycle(old(Tables()), models, plans, incident, reprocessAll, now)
      ensures PipelineRequests.IsRequest(old(Tables()), models, plans, incident, reprocessAll, now, Tables(), result)
    {
      PipelineRequests.RequestIs(Tables(), models, plans, incident, reprocessAll, now);
      var rows := ManualTargets(Tables(), incident, reprocessAll);
      var queued := QueuedRequests(Tables(), ManualKey(Tables(), models, plans, rows));
      if queued != {} {
        return Coalesced(First(queued, (a: int, b: int) => a < b), |rows|);
      }
      if rows == {} {
        return if incident.Some? then NotFound else NothingToDo;
      }
      TargetOrderIsTotal(Tables(), rows);
      var cycle := CreateCycle(Manual, Some(ManualKey(Tables(), models, plans, rows)), Sorted(rows, TargetOrder(Tables())), models, plans, now);
      SupersedeQueuedAutomaticTargets(cycle);
      result := Created(cycle, |rows|);
    }

    method ActivateNextPipelineCycle(models: seq<string>, allowScheduled: bool, now: int) returns (active: Option<int>)
      modifies this
      ensures (Tables(), active) == PipelineTables.ActivateNextPipelineCycle(old(Tables()), models, allowScheduled, now)
      ensures PipelineRequests.IsActivation(old(Tables()), models, allowScheduled, now, Tables(), active)
    {
      active := SelectOrCreate(models, allowScheduled, now);
      PipelineRequests.ActivationIs(old(Tables()), models, allowScheduled, now);
    }

    method SelectOrCreate(models: seq<string>, allowScheduled: bool, now: int) returns (active: Option<int>)
      modifies this
      ensures (Tables(), active) == PipelineTables.ActivateNextPipelineCycle(old(Tables()), models, allowScheduled, now)
    {
      if !processing {
        return None;
      }
      var running := SelectCycle(cycles, RunningCycles(cycles));
      if running.Some? {
        if automatic || cycles[running.value].kind == Manual {
          return running;
        }
        cycles := SetCycleStatus(cycles, running.value, CycleQueued);
      }
      active := SelectCycle(cycles, QueuedCycles(cycles, automatic));
      if active.None? && allowScheduled && automatic {
        var rows := ScheduledTargets(Tables());
        if rows != {} {
          TargetOrderIsTotal(Tables(), rows);
          var cycle := CreateCycle(Scheduled, None, Sorted(rows, TargetOrder(Tables())), models, [], now);
          active := Some(cycle);
        }
      }
      if active.Some? {
        cycles := SetCycleStatus(cycles, active.value, CycleRunning);
      }
    }

    method SuspendAutomaticCycle(cycle: int) returns (suspended: bool)
      modifies this`cycles
      ensures (Tables(), suspended) == PipelineTables.SuspendAutomaticCycle(old(Tables()), cycle)
      ensures PipelineRequests.IsSuspension(old(Tables()), cycle, Tables(), suspended)
    {
      PipelineRequests.SuspensionIs(Tables(), cycle);
      suspended := RunningAutomatic(Tables(), cycle);
      if suspended {
        cycles := SetCycleStatus(cycles, cycle, CycleQueued);
      }
    }

    method InterruptBlockedAutomaticCycle(cycle: int, now: int) returns (continuation: Option<int>)
      modifies this
      ensures (Tables(), continuation) == PipelineTables.InterruptBlockedAutomaticCycle(old(Tables()), cycle, now)
      ensures PipelineRequests.IsInterruption(old(Tables()), cycle, now, Tables(), continuation)
    {
      continuation := QueueOrContinue(cycle, now);
      PipelineRequests.InterruptionIs(old(Tables()), cycle, now);
    }

    method QueueOrContinue(cycle: int, now: int) returns (continuation: Option<int>)
      modifies this
      ensures (Tables(), continuation) == PipelineTables.InterruptBlockedAutomaticCycle(old(Tables()), cycle, now)
    {
      if !RunningAutomatic(Tables(), cycle) {
        return None;
      }
      var from := cycles[cycle];
      if from.kind == Continuation {
        cycles := SetCycleStatus(cycles, cycle, CycleQueued);
        return Some(cycle);
      }
      var next := nextCycle;
      cycles := cycles[next := Cycle(Continuation, CycleQueued, from.activeStep, now, from.models, from.plans, None)];
      nextCycle := nextCycle + 1;
      items := MoveItems(items, cycle, next);
      cycles := SetCycleStatus(cycles, cycle, CycleFailed);
      continuation := Some(next);
    }

    method CancelAll()
      modifies this
      ensures Tables() == PipelineTables.CancelAll(old(Tables()))
      ensures PipelineRequests.IsCancelled(old(Tables()), Tables())
    {
      PipelineRequests.CancelledIs(Tables());
      automatic := false;
      jobs := CancelJobs(jobs);
      items := CancelItems(items);
      runs := SupersedeRuns(runs, runs.Keys);
      cycles := CancelCycles(cycles);
    }
  }
}
