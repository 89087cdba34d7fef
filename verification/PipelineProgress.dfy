/** How work moves on: stages open, failed, suspended and yielded jobs come back, replaced texts are dropped. */
module PipelineProgress {
  import opened Rows
  import opened PipelineTables
  import opened PipelineInvariant
  import opened PipelineSystem

  // ----- stages -----

  /** The step that the cycle moves to is open for exactly the items that succeeded at every step before it. */
  lemma StageOpensExactly(s: System, now: int)
    requires Reachable(s) && s.worker.Holding? && s.worker.cycle in s.db.cycles && s.db.cycles[s.worker.cycle].status == CycleRunning
    requires AdvancePipelineCycle(s.db, s.worker.cycle, s.worker.kind, s.worker.step, now).1.Advanced?
    ensures OpenedFor(s.db, Apply(s, Advance(now)).db, s.worker.cycle, s.worker.step + 1)
    ensures Apply(s, Advance(now)).worker == Holding(s.worker.cycle, s.worker.kind, s.worker.step + 1)
  {
    ReachableIsOk(s);
    var (cycle, step) := (s.worker.cycle, s.worker.step);
    assert Apply(s, Advance(now)).db == Opened(s.db, cycle, step);
    forall i: int | InCycle(s.db, i, cycle) ensures OpenedItemAt(s.db, Opened(s.db, cycle, step), i, step + 1) {
      NextJobOpens(s.db, cycle, s.worker.kind, step, i);
    }
    assert forall k | k in s.db.jobs && !(k.step == step + 1 && InCycle(s.db, k.item, cycle)) :: Opened(s.db, cycle, step).jobs[k] == s.db.jobs[k];
  }

  /** The job of the newly active step: what it was before says whether it still waited. */
  ghost predicate OpenedItemAt(db: Db, after: Db, i: int, step: nat) {
    var k := JobKey(i, step);
    && k in db.jobs && k in after.jobs
    && (after.jobs[k].status == Pending <==> db.jobs[k].status != Superseded && forall n: nat | n < step :: SucceededAt(db, i, n))
    && (after.jobs[k].status == Skipped <==> db.jobs[k].status != Superseded && exists n: nat | n < step :: !SucceededAt(db, i, n))
    && (after.jobs[k].status == Superseded <==> db.jobs[k].status == Superseded)
  }

  ghost predicate OpenedFor(db: Db, after: Db, cycle: int, step: nat) {
    && cycle in after.cycles && after.cycles[cycle].activeStep == step && after.cycles[cycle].status == CycleRunning
    && after.jobs.Keys == db.jobs.Keys
    && (forall i | InCycle(db, i, cycle) :: OpenedItemAt(db, after, i, step))
    && (forall k | k in db.jobs && !(k.step == step && InCycle(db, k.item, cycle)) :: after.jobs[k] == db.jobs[k])
  }

  lemma NextJobOpens(db: Db, cycle: int, kind: CycleKind, step: nat, i: int)
    requires Inv(db) && Held(db, cycle, kind, step) && db.cycles[cycle].status == CycleRunning && step + 1 < db.stepCount && InCycle(db, i, cycle)
    ensures OpenedItemAt(db, Opened(db, cycle, step), i, step + 1)
  {
    var k, before := JobKey(i, step + 1), JobKey(i, step);
    assert k in db.jobs && JobOk(db, k) && before in db.jobs && JobOk(db, before);
    assert SucceededAt(db, i, step) ==> forall n: nat | n < step + 1 :: SucceededAt(db, i, n);
  }

  // ----- failures -----

  predicate MayRun(db: Db, cycle: int) {
    cycle in db.cycles && db.cycles[cycle].status == CycleRunning && db.processing && (db.cycles[cycle].kind == Manual || db.automatic)
  }

  predicate HasCurrentText(db: Db, i: int) {
    i in db.items && db.items[i].incident in db.incidents && db.incidents[db.items[i].incident].hash == db.items[i].hash
  }

  /** A failed job can be claimed again exactly if its failure allows a retry that is due, its cycle may run and its
  text is still the report's ... */
  lemma FailureDecidesReturn(s: System, status: JobStatus, retryAt: Option<int>, leave: bool, at: int)
    requires Reachable(s) && s.worker.InFlight? && !s.worker.cancelled && status in {Pending, NeedsReview, Failed}
    ensures s.worker.job in ClaimableJobs(Apply(s, FailJob(status, retryAt, leave)).db, s.worker.cycle, s.worker.step, at) <==>
              status == Pending && Due(retryAt, at) && MayRun(s.db, s.worker.cycle) && HasCurrentText(s.db, s.worker.job.item)
  {
    ReachableIsOk(s);
    var failed := Apply(s, FailJob(status, retryAt, leave)).db;
    assert failed == FailPipelineJob(s.db, s.worker.job, status, retryAt).0;
    assert failed == s.db.(jobs := s.db.jobs[s.worker.job := s.db.jobs[s.worker.job].(status := status, retryAt := retryAt)]);
  }

  /** ... and a failure that allows none is final, whatever happens afterwards. */
  lemma FinalFailureStays(s: System, status: JobStatus, retryAt: Option<int>, leave: bool, more: seq<Op>)
    requires Reachable(s) && s.worker.InFlight? && !s.worker.cancelled && status in {NeedsReview, Failed}
    ensures var later := PipelineSystem.Run(Apply(s, FailJob(status, retryAt, leave)), more).db;
            s.worker.job in later.jobs && later.jobs[s.worker.job].status == status
  {
    ReachableIsOk(s);
    StepKeepsSysInv(s, FailJob(status, retryAt, leave));
    FailedStatus(s.db, s.worker.job, status, retryAt);
    assert Apply(s, FailJob(status, retryAt, leave)).db == FailPipelineJob(s.db, s.worker.job, status, retryAt).0;
    ClosedJobStays(Apply(s, FailJob(status, retryAt, leave)), more, s.worker.job);
  }

  lemma FailedStatus(db: Db, k: JobKey, status: JobStatus, retryAt: Option<int>)
    requires RunningJob(db, k) && status in {NeedsReview, Failed}
    ensures var after := FailPipelineJob(db, k, status, retryAt).0; k in after.jobs && after.jobs[k].status == status
  {
  }

  // ----- replaced texts -----

  /** After a claim no item of the cycle has anything left to do for a text that has been replaced, now or in any
  continuation; the jobs of the other items are as they were, but for the claimed one. */
  lemma ReplacedTextIsDropped(s: System, now: int, more: seq<Op>)
    requires Reachable(s) && s.worker.Holding?
    ensures var (after, stale) := (Apply(s, Claim(now)), StaleItems(s.db, s.worker.cycle));
            && after.db.jobs.Keys == s.db.jobs.Keys
            && (forall k | k in s.db.jobs && k.item in stale :: !Open(after.db.jobs[k].status) && SameJobLater(after, more, k))
            && (forall k | k in s.db.jobs && k.item !in stale :: after.db.jobs[k] != s.db.jobs[k] ==> RunningJob(after.db, k) && after.worker.InFlight?)
  {
    ReachableIsOk(s);
    StepKeepsSysInv(s, Claim(now));
    ClaimDropsStale(s.db, s.worker.cycle, s.worker.step, now);
    forall k | k in s.db.jobs && k.item in StaleItems(s.db, s.worker.cycle) ensures SameJobLater(Apply(s, Claim(now)), more, k) {
      ClosedJobStays(Apply(s, Claim(now)), more, k);
    }
  }

  lemma ClosedJobStays(s: System, more: seq<Op>, k: JobKey)
    requires SysInv(s) && k in s.db.jobs && !Open(s.db.jobs[k].status)
    ensures SameJobLater(s, more, k)
  {
    RunKeepsSysInv(s, more);
  }

  lemma ClaimDropsStale(db: Db, cycle: int, step: nat, now: int)
    requires NoRunningJob(db)
    ensures var (after, stale) := (ClaimPipelineJob(db, cycle, step, now).0, StaleItems(db, cycle));
            && after.jobs.Keys == db.jobs.Keys
            && (forall k | k in db.jobs && k.item in stale :: !Open(after.jobs[k].status))
            && (forall k | k in db.jobs && k.item !in stale :: after.jobs[k] != db.jobs[k] ==>
                  RunningJob(after, k) && ClaimPipelineJob(db, cycle, step, now).1 == Some(k))
  {
    SweepDropsStale(db, cycle);
    var swept := SweepStale(db, cycle);
    var selected := SelectJob(swept, cycle, step, now);
    assert selected.Some? ==> selected.value in swept.jobs && swept.jobs[selected.value].status == Pending;
    assert selected.Some? ==> ClaimPipelineJob(db, cycle, step, now).0.jobs == MarkRunning(swept.jobs, selected.value);
  }

  lemma SweepDropsStale(db: Db, cycle: int)
    requires NoRunningJob(db)
    ensures var (jobs, stale) := (SweepStale(db, cycle).jobs, StaleItems(db, cycle));
            && jobs.Keys == db.jobs.Keys
            && (forall k | k in db.jobs && k.item in stale :: !Open(jobs[k].status))
            && (forall k | k in db.jobs && k.item !in stale :: jobs[k] == db.jobs[k])
  {
  }

  ghost predicate SameJobLater(s: System, more: seq<Op>, k: JobKey) {
    k in s.db.jobs && k in PipelineSystem.Run(s, more).db.jobs && PipelineSystem.Run(s, more).db.jobs[k] == s.db.jobs[k]
  }

  // ----- suspended and yielded cycles -----

  /** Suspending a cycle and activating again restores the state exactly if the switches are on and no queued cycle
  goes before it. */
  lemma SuspendedCycleIsResumed(s: System, models: seq<string>, allowScheduled: bool, now: int)
    requires Reachable(s) && s.worker.Holding? && RunningAutomatic(s.db, s.worker.cycle) && |models| == s.db.stepCount
    ensures PipelineSystem.Run(s, [Suspend, Activate(models, allowScheduled, now)]) == s <==>
              s.db.processing && s.db.automatic && GoesFirst(s.db, s.worker.cycle)
  {
    ReachableIsOk(s);
    var c := s.worker.cycle;
    var freed := s.db.(cycles := SetCycleStatus(s.db.cycles, c, CycleQueued));
    TwoSteps(s, Suspend, Activate(models, allowScheduled, now));
    assert Apply(s, Suspend) == System(freed, Idle);
    assert Apply(System(freed, Idle), Activate(models, allowScheduled, now)) == ActivateStep(freed, models, allowScheduled, now);
    NoOtherRuns(s.db, c);
    Reactivated(s.db, freed, c, models, allowScheduled, now);
  }

  lemma TwoSteps(s: System, first: Op, second: Op)
    ensures PipelineSystem.Run(s, [first, second]) == Apply(Apply(s, first), second)
  {
    assert [first, second][1..] == [second] && [second][1..] == [];
    assert PipelineSystem.Run(s, [first, second]) == PipelineSystem.Run(Apply(s, first), [second]);
    assert PipelineSystem.Run(Apply(s, first), [second]) == PipelineSystem.Run(Apply(Apply(s, first), second), []);
  }

  lemma Reactivated(db: Db, freed: Db, c: int, models: seq<string>, allowScheduled: bool, now: int)
    requires RunningAutomatic(db, c) && |models| == db.stepCount
    requires freed == db.(cycles := SetCycleStatus(db.cycles, c, CycleQueued)) && RunningCycles(freed.cycles) == {}
    ensures ActivateStep(freed, models, allowScheduled, now) == System(db, Holding(c, db.cycles[c].kind, db.cycles[c].activeStep)) <==>
              db.processing && db.automatic && GoesFirst(db, c)
  {
    var (after, active) := ActivateNextPipelineCycle(freed, models, allowScheduled, now);
    if !db.processing {
      assert after == freed && active == None;
    } else {
      assert (after, active) == ActivateQueued(freed, models, allowScheduled, now);
      if db.automatic {
        ActivatesFirst(db, freed, c);
      } else {
        StaysQueued(freed, c, models, allowScheduled, now);
      }
    }
  }

  /** No queued cycle goes before this one. */
  predicate GoesFirst(db: Db, c: int) {
    forall d | d in db.cycles && db.cycles[d].status == CycleQueued :: CycleOrder(db.cycles)(c, d)
  }

  lemma NoOtherRuns(db: Db, c: int)
    requires CyclesOk(db) && c in db.cycles && db.cycles[c].status == CycleRunning
    ensures RunningCycles(SetCycleStatus(db.cycles, c, CycleQueued)) == {}
  {
    forall d ensures d !in RunningCycles(SetCycleStatus(db.cycles, c, CycleQueued)) {}
  }

  lemma ActivatesFirst(db: Db, freed: Db, c: int)
    requires c in db.cycles && db.cycles[c].status == CycleRunning && freed == db.(cycles := SetCycleStatus(db.cycles, c, CycleQueued))
    ensures var first := SelectCycle(freed.cycles, QueuedCycles(freed.cycles, true));
            && first.Some? && (first.value == c <==> GoesFirst(db, c))
            && (first.value == c ==> SetCycleStatus(freed.cycles, c, CycleRunning) == db.cycles)
            && (first.value != c ==> SetCycleStatus(freed.cycles, first.value, CycleRunning)[c].status == CycleQueued)
  {
    var queued := QueuedCycles(freed.cycles, true);
    assert c in queued;
    QueuedWith(db, freed, c);
    CycleOrderIsTotal(freed.cycles, queued);
    var first := SelectCycle(freed.cycles, queued).value;
    if GoesFirst(db, c) {
      FirstIsUnique(queued, CycleOrder(freed.cycles), first, c);
    }
  }

  lemma QueuedWith(db: Db, freed: Db, c: int)
    requires c in db.cycles && db.cycles[c].status == CycleRunning && freed == db.(cycles := SetCycleStatus(db.cycles, c, CycleQueued))
    ensures IsFirst(QueuedCycles(freed.cycles, true), CycleOrder(freed.cycles), c) <==> GoesFirst(db, c)
  {
    var queued := QueuedCycles(freed.cycles, true);
    if GoesFirst(db, c) {
      forall d | d in queued && d != c ensures CycleOrder(freed.cycles)(c, d) {
        assert d in db.cycles && db.cycles[d].status == CycleQueued;
      }
    }
    if IsFirst(queued, CycleOrder(freed.cycles), c) {
      forall d | d in db.cycles && db.cycles[d].status == CycleQueued ensures CycleOrder(db.cycles)(c, d) {
        assert d in queued && d != c;
      }
    }
  }

  /** With automatic work off an automatic cycle is not activated. */
  lemma StaysQueued(db: Db, c: int, models: seq<string>, allowScheduled: bool, now: int)
    requires c in db.cycles && db.cycles[c].status == CycleQueued && AutomaticKind(db.cycles[c].kind) && !db.automatic
    ensures var after := ActivateQueued(db, models, allowScheduled, now).0; c in after.cycles && after.cycles[c].status == CycleQueued
  {
  }

  function Started(db: Db, c: int): Db
    requires c in db.cycles
  {
    db.(cycles := SetCycleStatus(db.cycles, c, CycleRunning))
  }

  /** What could be claimed of a cycle before it yielded can be claimed of its continuation once that runs, no more
  and no less, at the same step and at every moment. */
  lemma YieldedWorkIsClaimable(s: System, now: int, at: int)
    requires Reachable(s) && s.worker.Holding? && HasQueuedManualCycle(s.db) && RunningAutomatic(s.db, s.worker.cycle)
    ensures var (after, to) := InterruptBlockedAutomaticCycle(s.db, s.worker.cycle, now);
            && Apply(s, Yield(now)).db == after && to.Some? && to.value in after.cycles
            && AutomaticKind(after.cycles[to.value].kind) && after.cycles[to.value].activeStep == s.worker.step
            && ClaimableJobs(Started(after, to.value), to.value, s.worker.step, at) == ClaimableJobs(s.db, s.worker.cycle, s.worker.step, at)
  {
    ReachableIsOk(s);
    var c := s.worker.cycle;
    if s.worker.kind == Scheduled { ContinuedWorkIsClaimable(s.db, c, s.worker.step, now, at); }
  }

  lemma ContinuedWorkIsClaimable(db: Db, c: int, step: nat, now: int, at: int)
    requires Inv(db) && RunningAutomatic(db, c)
    ensures ClaimableJobs(Started(Continue(db, c, now), db.nextCycle), db.nextCycle, step, at) == ClaimableJobs(db, c, step, at)
  {
    assert db.nextCycle !in db.cycles;
    forall k | k in db.jobs && db.jobs[k].status == Pending ensures db.items[k.item].status == ItemPending { assert JobOk(db, k); }
    assert forall i | i in db.items :: db.items[i].cycle in db.cycles;
  }
}
