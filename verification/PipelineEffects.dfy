/** What each transaction of the pipeline does to the tables, said row by row. */
module PipelineEffects {
  import opened Rows
  import Text
  import opened PipelineTables

  ghost predicate HasText(text: string) { exists k :: 0 <= k < |text| && text[k] !in {' ', '\t', '\n', '\r'} }

  /** The item's report is there, and has another text now. */
  ghost predicate IsOutdated(db: Db, i: int) {
    i in db.items && db.items[i].incident in db.incidents && db.incidents[db.items[i].incident].hash != db.items[i].hash
  }

  /** The item's report is there and has the item's text. */
  ghost predicate IsUpToDate(db: Db, i: int) {
    i in db.items && db.items[i].incident in db.incidents && db.incidents[db.items[i].incident].hash == db.items[i].hash
  }

  // ----- claiming -----

  /** Pending at the step, due, for a current text, in a running cycle that the switches allow. */
  ghost predicate MayBeClaimed(db: Db, cycle: int, step: nat, now: int, k: JobKey) {
    && db.processing && cycle in db.cycles && db.cycles[cycle].status == CycleRunning && (db.cycles[cycle].kind != Manual ==> db.automatic)
    && k in db.jobs && k.step == step && db.jobs[k].status == Pending && (db.jobs[k].retryAt.Some? ==> db.jobs[k].retryAt.value <= now)
    && IsUpToDate(db, k.item) && db.items[k.item].cycle == cycle
  }

  /** The later publication first, then the earlier position, then the older item. */
  ghost predicate ReportGoesBefore(a: Incident, i: int, b: Incident, j: int) {
    if a.publishedAt != b.publishedAt then a.publishedAt > b.publishedAt
    else if a.position != b.position then a.position < b.position else i < j
  }

  ghost predicate ItemGoesBefore(db: Db, i: int, j: int)
    requires IsUpToDate(db, i) && IsUpToDate(db, j)
  {
    ReportGoesBefore(db.incidents[db.items[i].incident], i, db.incidents[db.items[j].incident], j)
  }

  /** Work on replaced texts is dropped. */
  ghost predicate IsSwept(db: Db, cycle: int, after: Db) {
    && after == db.(jobs := after.jobs, items := after.items, runs := after.runs)
    && after.jobs.Keys == db.jobs.Keys && after.items.Keys == db.items.Keys && after.runs.Keys == db.runs.Keys
    && (forall i | i in db.items ::
          after.items[i] == if db.items[i].cycle == cycle && IsOutdated(db, i) then db.items[i].(status := ItemSuperseded) else db.items[i])
    && (forall k | k in db.jobs ::
          after.jobs[k] == if k.item in db.items && db.items[k.item].cycle == cycle && IsOutdated(db, k.item) && db.jobs[k].status in {Waiting, Pending}
                           then db.jobs[k].(status := Superseded) else db.jobs[k])
    && (forall r | r in db.runs ::
          after.runs[r] == if db.runs[r].status == Processing && IsRunOfSuperseded(after, cycle, r) then db.runs[r].(status := RunSuperseded) else db.runs[r])
  }

  ghost predicate IsRunOfSuperseded(db: Db, cycle: int, r: int) {
    exists i :: i in db.items && db.items[i].cycle == cycle && db.items[i].run == r && db.items[i].status == ItemSuperseded
  }

  /** The first claimable job runs, with one more attempt; none only if there is none. */
  ghost predicate IsTaken(db: Db, cycle: int, step: nat, now: int, after: Db, claimed: Option<JobKey>) {
    match claimed
    case None => after == db && forall k :: !MayBeClaimed(db, cycle, step, now, k)
    case Some(k) =>
      && MayBeClaimed(db, cycle, step, now, k)
      && (forall other | MayBeClaimed(db, cycle, step, now, other) && other != k :: ItemGoesBefore(db, k.item, other.item))
      && after == db.(jobs := db.jobs[k := db.jobs[k].(status := Running, attempts := db.jobs[k].attempts + 1, retryAt := None)])
  }

  ghost predicate IsClaimOf(db: Db, cycle: int, step: nat, now: int, after: Db, claimed: Option<JobKey>) {
    exists swept :: IsSwept(db, cycle, swept) && IsTaken(swept, cycle, step, now, after, claimed)
  }

  lemma SweptIs(db: Db, cycle: int)
    ensures IsSwept(db, cycle, SweepStale(db, cycle))
  {
    var after := SweepStale(db, cycle);
    forall i | i in db.items ensures i in StaleItems(db, cycle) <==> db.items[i].cycle == cycle && IsOutdated(db, i) {}
    var items := SupersedeItems(db.items, StaleItems(db, cycle));
    var rows := set i | i in items && items[i].cycle == cycle && items[i].status == ItemSuperseded;
    forall r | r in db.runs ensures r in RunsOf(items, rows) <==> IsRunOfSuperseded(after, cycle, r) {
      if r in RunsOf(items, rows) {
        var i :| i in rows && items[i].run == r;
        assert i in after.items;
      }
      if IsRunOfSuperseded(after, cycle, r) {
        var i :| i in after.items && after.items[i].cycle == cycle && after.items[i].run == r && after.items[i].status == ItemSuperseded;
        assert i in rows;
      }
    }
  }

  lemma TakenIs(db: Db, cycle: int, step: nat, now: int)
    ensures var selected := SelectJob(db, cycle, step, now);
            IsTaken(db, cycle, step, now, if selected.None? then db else db.(jobs := MarkRunning(db.jobs, selected.value)), selected)
  {
    var selected := SelectJob(db, cycle, step, now);
    forall k ensures k in ClaimableJobs(db, cycle, step, now) <==> MayBeClaimed(db, cycle, step, now, k) {}
    if selected.Some? {
      forall other | MayBeClaimed(db, cycle, step, now, other) && other != selected.value ensures ItemGoesBefore(db, selected.value.item, other.item) {
        assert ClaimOrder(db)(selected.value, other);
      }
    }
  }

  lemma ClaimIs(db: Db, cycle: int, step: nat, now: int)
    ensures var (after, claimed) := ClaimPipelineJob(db, cycle, step, now); IsClaimOf(db, cycle, step, now, after, claimed)
  {
    SweptIs(db, cycle);
    TakenIs(SweepStale(db, cycle), cycle, step, now);
  }

  // ----- completing, failing, recovering -----

  ghost predicate IsRunningJob(db: Db, k: JobKey) { k in db.jobs && db.jobs[k].status == Running }

  ghost predicate IsLastOfItem(db: Db, k: JobKey) { !exists later :: later in db.jobs && later.item == k.item && later.step > k.step }

  /** The run's fields are the outputs where there are some, and all other fields are as they were. */
  ghost predicate AreStored(before: map<(int, string), string>, run: int, outputs: map<string, string>, after: map<(int, string), string>) {
    && (forall kind | kind in outputs :: (run, kind) in after && after[(run, kind)] == outputs[kind])
    && (forall row | row in before && !(row.0 == run && row.1 in outputs) :: row in after && after[row] == before[row])
    && (forall row | row in after :: row in before || (row.0 == run && row.1 in outputs))
  }

  /** A result of a running job without blanks is stored; after the last step it publishes the run and finishes the item.
  Everything else is refused and changes nothing. */
  ghost predicate IsCompletion(db: Db, k: JobKey, outputs: map<string, string>, after: Db, stored: bool) {
    && (stored <==> k.item in db.items && IsRunningJob(db, k) && forall kind | kind in outputs :: HasText(kind) && HasText(outputs[kind]))
    && (!stored ==> after == db)
    && (stored ==>
          && after == db.(jobs := after.jobs, items := after.items, runs := after.runs, values := after.values)
          && AreStored(db.values, db.items[k.item].run, outputs, after.values)
          && after.jobs == db.jobs[k := db.jobs[k].(status := Succeeded)]
          && IsPublished(db, k, after))
  }

  ghost predicate IsPublished(db: Db, k: JobKey, after: Db)
    requires k.item in db.items
  {
    && after.items.Keys == db.items.Keys && after.runs.Keys == db.runs.Keys
    && (forall i | i in db.items :: after.items[i] ==
          if i == k.item && IsLastOfItem(db, k) && db.items[i].status == ItemPending then db.items[i].(status := ItemSucceeded) else db.items[i])
    && (forall r | r in db.runs :: after.runs[r] ==
          if r == db.items[k.item].run && IsLastOfItem(db, k) && db.runs[r].status == Processing then db.runs[r].(status := Complete) else db.runs[r])
  }

  ghost predicate IsFailure(db: Db, k: JobKey, status: JobStatus, retryAt: Option<int>, after: Db, stored: bool) {
    && (stored <==> IsRunningJob(db, k) && status in {Pending, NeedsReview, Failed})
    && after == if stored then db.(jobs := db.jobs[k := db.jobs[k].(status := status, retryAt := retryAt)]) else db
  }

  ghost predicate IsRecovery(db: Db, now: int, after: Db) {
    && after == db.(jobs := after.jobs) && after.jobs.Keys == db.jobs.Keys
    && forall k | k in db.jobs ::
         after.jobs[k] == if db.jobs[k].status == Running then db.jobs[k].(status := Pending, retryAt := Some(now)) else db.jobs[k]
  }

  lemma BlankHasNoText(text: string)
    ensures Text.Blank(text) <==> !HasText(text)
  {
  }

  lemma CompletionIs(db: Db, k: JobKey, outputs: map<string, string>)
    ensures var (after, stored) := CompletePipelineJob(db, k, outputs); IsCompletion(db, k, outputs, after, stored)
  {
    forall text ensures Text.Blank(text) <==> !HasText(text) { BlankHasNoText(text); }
    if CompletePipelineJob(db, k, outputs).1 {
      var done := db.(values := StoreValues(db.values, db.items[k.item].run, outputs), jobs := db.jobs[k := db.jobs[k].(status := Succeeded)]);
      StoredAre(db.values, db.items[k.item].run, outputs);
      PublishedIs(db, done, k);
    }
  }

  lemma StoredAre(values: map<(int, string), string>, run: int, outputs: map<string, string>)
    ensures AreStored(values, run, outputs, StoreValues(values, run, outputs))
  {
  }

  lemma PublishedIs(db: Db, done: Db, k: JobKey)
    requires k.item in db.items && IsRunningJob(db, k) && done == db.(values := done.values, jobs := db.jobs[k := db.jobs[k].(status := Succeeded)])
    ensures var after := PublishAfterLast(done, k);
            && IsPublished(db, k, after) && after.jobs == done.jobs && after.values == done.values
            && after == db.(jobs := after.jobs, items := after.items, runs := after.runs, values := after.values)
  {
    assert LastStage(done, k) <==> IsLastOfItem(db, k);
  }

  lemma FailureIs(db: Db, k: JobKey, status: JobStatus, retryAt: Option<int>)
    ensures var (after, stored) := FailPipelineJob(db, k, status, retryAt); IsFailure(db, k, status, retryAt, after, stored)
  {
  }

  lemma RecoveryIs(db: Db, now: int)
    ensures IsRecovery(db, now, RecoverPipeline(db, now))
  {
  }

  // ----- advancing -----

  ghost predicate IsOfStage(db: Db, cycle: int, step: nat, k: JobKey) {
    k in db.jobs && k.step == step && k.item in db.items && db.items[k.item].cycle == cycle
  }

  ghost predicate DidSucceed(db: Db, i: int, step: nat) {
    JobKey(i, step) in db.jobs && db.jobs[JobKey(i, step)].status == Succeeded
  }

  /** While a job of the step is open nothing moves; the answer says whether all of them only wait for later retries. */
  ghost predicate IsBlocked(db: Db, cycle: int, step: nat, now: int, result: AdvanceResult) {
    && (exists k :: IsOfStage(db, cycle, step, k) && db.jobs[k].status in {Pending, Running})
    && (result == Blocked(true) <==> forall k | IsOfStage(db, cycle, step, k) && db.jobs[k].status in {Pending, Running} ::
          db.jobs[k].status == Pending && db.jobs[k].retryAt.Some? && db.jobs[k].retryAt.value > now)
  }

  /** The waiting jobs of the next step open where this step succeeded and are skipped elsewhere. */
  ghost predicate IsNextStage(db: Db, cycle: int, step: nat, after: Db) {
    && after == db.(jobs := after.jobs, cycles := after.cycles) && after.jobs.Keys == db.jobs.Keys && after.cycles.Keys == db.cycles.Keys
    && (forall k | k in db.jobs :: after.jobs[k] ==
          if IsOfStage(db, cycle, step + 1, k) && db.jobs[k].status == Waiting
          then db.jobs[k].(status := if DidSucceed(db, k.item, step) then Pending else Skipped) else db.jobs[k])
    && (forall c | c in db.cycles :: after.cycles[c] ==
          if c == cycle && db.cycles[c].status == CycleRunning then db.cycles[c].(activeStep := step + 1) else db.cycles[c])
  }

  /** Every item of the cycle is decided by the last step, its run by the item, and the running cycle by its items. */
  ghost predicate IsSettled(db: Db, cycle: int, last: nat, after: Db) {
    && after == db.(items := after.items, runs := after.runs, cycles := after.cycles)
    && after.items.Keys == db.items.Keys && after.runs.Keys == db.runs.Keys && after.cycles.Keys == db.cycles.Keys
    && (forall i | i in db.items :: after.items[i] == if db.items[i].cycle == cycle then db.items[i].(status := DecidedStatus(db, i, last)) else db.items[i])
    && (forall r | r in db.runs :: after.runs[r] ==
          if IsRunWith(after, cycle, r, {ItemSucceeded}) then db.runs[r].(status := Complete)
          else if IsRunWith(after, cycle, r, {ItemPending, ItemFailed, ItemSuperseded}) && db.runs[r].status != RunSuperseded
          then db.runs[r].(status := RunFailed) else db.runs[r])
    && (forall c | c in db.cycles :: after.cycles[c] ==
          if c == cycle && db.cycles[c].status == CycleRunning
          then db.cycles[c].(status := if exists i :: i in after.items && after.items[i].cycle == cycle && after.items[i].status == ItemFailed
                                       then CycleFailed else CycleSucceeded)
          else db.cycles[c])
  }

  ghost function DecidedStatus(db: Db, i: int, last: nat): ItemStatus
    requires i in db.items
  {
    if DidSucceed(db, i, last) then ItemSucceeded else if db.items[i].status == ItemSuperseded then ItemSuperseded else ItemFailed
  }

  ghost predicate IsRunWith(db: Db, cycle: int, r: int, statuses: set<ItemStatus>) {
    exists i :: i in db.items && db.items[i].cycle == cycle && db.items[i].run == r && db.items[i].status in statuses
  }

  /** An item of an automatic cycle for a text that an item of the manual cycle has, with one of the statuses. */
  ghost predicate IsRepeated(db: Db, manual: int, cycles: set<CycleStatus>, statuses: set<ItemStatus>, j: int) {
    && j in db.items && db.items[j].cycle in db.cycles && db.cycles[db.items[j].cycle].kind in {Scheduled, Continuation}
    && db.cycles[db.items[j].cycle].status in cycles
    && exists i :: i in db.items && db.items[i].cycle == manual && db.items[i].status in statuses &&
         db.items[i].incident == db.items[j].incident && db.items[i].hash == db.items[j].hash
  }

  /** The repeated items that are `open` and the unclaimed jobs of all repeated ones are superseded, with the runs of
  superseded items; a cycle closes if it has nothing to do any more. */
  ghost predicate IsTakenOver(db: Db, repeated: iset<int>, open: set<ItemStatus>, closed: set<CycleStatus>, idle: set<ItemStatus>, after: Db) {
    && after == db.(jobs := after.jobs, items := after.items, runs := after.runs, cycles := after.cycles)
    && after.jobs.Keys == db.jobs.Keys && after.items.Keys == db.items.Keys && after.runs.Keys == db.runs.Keys && after.cycles.Keys == db.cycles.Keys
    && (forall i | i in db.items :: after.items[i] ==
          if i in repeated && db.items[i].status in open then db.items[i].(status := ItemSuperseded) else db.items[i])
    && (forall k | k in db.jobs :: after.jobs[k] ==
          if k.item in repeated && db.jobs[k].status in {Waiting, Pending} then db.jobs[k].(status := Superseded) else db.jobs[k])
    && (forall r | r in db.runs :: after.runs[r] ==
          if db.runs[r].status == Processing && exists i :: i in after.items && after.items[i].run == r && after.items[i].status == ItemSuperseded
          then db.runs[r].(status := RunSuperseded) else db.runs[r])
    && (forall c | c in db.cycles :: after.cycles[c] ==
          if db.cycles[c].kind in {Scheduled, Continuation} && db.cycles[c].status in closed &&
             forall i | i in after.items && after.items[i].cycle == c :: after.items[i].status in idle
          then db.cycles[c].(status := CycleSuperseded) else db.cycles[c])
  }

  /** A finished manual cycle takes over the pending items that it succeeded on. */
  ghost predicate IsFinishedTakeover(db: Db, manual: int, after: Db) {
    IsTakenOver(db, (iset j | IsRepeated(db, manual, {CycleQueued, CycleRunning}, {ItemSucceeded}, j)), {ItemPending}, {CycleQueued, CycleRunning},
                {ItemSucceeded, ItemFailed, ItemSuperseded}, after)
  }

  /** A new manual cycle takes over all its texts from the queued automatic cycles. */
  ghost predicate IsRequestTakeover(db: Db, manual: int, after: Db) {
    IsTakenOver(db, (iset j | IsRepeated(db, manual, {CycleQueued}, {ItemPending, ItemSucceeded, ItemFailed, ItemSuperseded}, j)),
                {ItemPending, ItemSucceeded, ItemFailed, ItemSuperseded}, {CycleQueued}, {ItemSuperseded}, after)
  }

  ghost predicate IsAdvance(db: Db, cycle: int, kind: CycleKind, step: nat, now: int, after: Db, result: AdvanceResult) {
    match result
    case Blocked(_) => after == db && IsBlocked(db, cycle, step, now, result)
    case Advanced => step + 1 < db.stepCount && IsNextStage(db, cycle, step, after) && IsOver(db, cycle, step)
    case Completed =>
      && step + 1 >= db.stepCount && IsOver(db, cycle, step)
      && exists settled :: IsSettled(db, cycle, if db.stepCount > 0 then db.stepCount - 1 else 0, settled) &&
           if kind == Manual then IsFinishedTakeover(settled, cycle, after) else after == settled
  }

  ghost predicate IsOver(db: Db, cycle: int, step: nat) {
    forall k | IsOfStage(db, cycle, step, k) :: db.jobs[k].status !in {Pending, Running}
  }

  lemma StageIs(db: Db, cycle: int, step: nat, now: int)
    ensures StageOpen(db, cycle, step) ==> IsBlocked(db, cycle, step, now, Blocked(StageWaiting(db, cycle, step, now)))
    ensures !StageOpen(db, cycle, step) ==> IsOver(db, cycle, step)
  {
    forall k ensures IsOfStage(db, cycle, step, k) <==> k in StageJobs(db, cycle, step) {}
    if StageOpen(db, cycle, step) {
      var k :| k in StageJobs(db, cycle, step) && (db.jobs[k].status == Pending || db.jobs[k].status == Running);
      assert IsOfStage(db, cycle, step, k);
    }
  }

  lemma NextStageIs(db: Db, cycle: int, step: nat)
    ensures IsNextStage(db, cycle, step, db.(jobs := OpenStage(db, cycle, step), cycles := MoveStage(db.cycles, cycle, step + 1)))
  {
  }

  lemma SettledItemsAre(db: Db, cycle: int, last: nat)
    ensures var items := SettleItems(db, cycle, last);
            && items.Keys == db.items.Keys
            && forall i | i in db.items :: items[i] ==
                 if db.items[i].cycle == cycle then db.items[i].(status := DecidedStatus(db, i, last)) else db.items[i]
  {
  }

  lemma SettledRunsAre(db: Db, cycle: int)
    ensures var runs := SettleRuns(db, cycle);
            && runs.Keys == db.runs.Keys
            && forall r | r in db.runs :: runs[r] ==
                 if IsRunWith(db, cycle, r, {ItemSucceeded}) then db.runs[r].(status := Complete)
                 else if IsRunWith(db, cycle, r, {ItemPending, ItemFailed, ItemSuperseded}) && db.runs[r].status != RunSuperseded
                 then db.runs[r].(status := RunFailed) else db.runs[r]
  {
    var all := set i | i in db.items && db.items[i].cycle == cycle;
    var succeeded := set i | i in all && db.items[i].status == ItemSucceeded;
    forall r ensures r in RunsOf(db.items, succeeded) <==> IsRunWith(db, cycle, r, {ItemSucceeded}) {
      if IsRunWith(db, cycle, r, {ItemSucceeded}) {
        var i :| i in db.items && db.items[i].cycle == cycle && db.items[i].run == r && db.items[i].status in {ItemSucceeded};
        assert i in succeeded;
      }
    }
    forall r ensures r in RunsOf(db.items, all) <==>
                       IsRunWith(db, cycle, r, {ItemSucceeded}) || IsRunWith(db, cycle, r, {ItemPending, ItemFailed, ItemSuperseded}) {
      if r in RunsOf(db.items, all) {
        var i :| i in all && db.items[i].run == r;
        assert db.items[i].status in {ItemSucceeded} || db.items[i].status in {ItemPending, ItemFailed, ItemSuperseded};
      }
      if IsRunWith(db, cycle, r, {ItemSucceeded}) || IsRunWith(db, cycle, r, {ItemPending, ItemFailed, ItemSuperseded}) {
        var i :| i in db.items && db.items[i].cycle == cycle && db.items[i].run == r;
        assert i in all;
      }
    }
  }

  lemma SettledIs(db: Db, cycle: int)
    ensures IsSettled(db, cycle, if db.stepCount > 0 then db.stepCount - 1 else 0, FinishCycle(db, cycle, Scheduled))
  {
    var last := if db.stepCount > 0 then db.stepCount - 1 else 0;
    SettledItemsAre(db, cycle, last);
    var d1 := db.(items := SettleItems(db, cycle, last));
    SettledRunsAre(d1, cycle);
    SettledIsOne(db, d1, cycle, last);
  }

  lemma SettledIsOne(db: Db, d1: Db, cycle: int, last: nat)
    requires d1 == db.(items := d1.items) && d1.items.Keys == db.items.Keys
    requires forall i | i in db.items :: d1.items[i] ==
               if db.items[i].cycle == cycle then db.items[i].(status := DecidedStatus(db, i, last)) else db.items[i]
    requires var runs := SettleRuns(d1, cycle);
             && runs.Keys == db.runs.Keys
             && forall r | r in db.runs :: runs[r] ==
                  if IsRunWith(d1, cycle, r, {ItemSucceeded}) then db.runs[r].(status := Complete)
                  else if IsRunWith(d1, cycle, r, {ItemPending, ItemFailed, ItemSuperseded}) && db.runs[r].status != RunSuperseded
                  then db.runs[r].(status := RunFailed) else db.runs[r]
    ensures var d2 := d1.(runs := SettleRuns(d1, cycle)); IsSettled(db, cycle, last, d2.(cycles := SettleCycle(d2, cycle)))
  {
    var d2 := d1.(runs := SettleRuns(d1, cycle));
    var after := d2.(cycles := SettleCycle(d2, cycle));
    forall r, statuses ensures IsRunWith(after, cycle, r, statuses) <==> IsRunWith(d1, cycle, r, statuses) {}
  }

  lemma TakenOverIs(db: Db, hits: set<int>, pending: set<int>, emptied: set<int>, repeated: iset<int>, open: set<ItemStatus>,
                    closed: set<CycleStatus>, idle: set<ItemStatus>)
    requires forall j :: j in hits <==> j in repeated && j in db.items
    requires forall j :: j in repeated ==> j in db.items
    requires forall j :: j in pending <==> j in hits && db.items[j].status in open
    requires forall c :: c in emptied <==>
               c in db.cycles && db.cycles[c].kind in {Scheduled, Continuation} && db.cycles[c].status in closed &&
               forall i | i in db.items && db.items[i].cycle == c :: SupersedeItems(db.items, pending)[i].status in idle
    ensures IsTakenOver(db, repeated, open, closed, idle, SupersedeAndClose(db, hits, pending, emptied))
  {
    var after := SupersedeAndClose(db, hits, pending, emptied);
    var items := SupersedeItems(db.items, pending);
    forall r ensures r in RunsOf(items, SupersededItems(items)) <==>
                       exists i :: i in after.items && after.items[i].run == r && after.items[i].status == ItemSuperseded {
      if i :| i in after.items && after.items[i].run == r && after.items[i].status == ItemSuperseded {
        assert i in SupersededItems(items);
      }
    }
    assert after.cycles.Keys == db.cycles.Keys;
  }

  lemma RepeatedAre(db: Db, manual: int, cycles: set<CycleStatus>, statuses: set<ItemStatus>, rows: set<int>, j: int)
    requires rows <= db.items.Keys && forall i :: i in rows <==> i in db.items && db.items[i].cycle == manual && db.items[i].status in statuses
    ensures j in AutomaticItems(db, cycles, SourcesOf(db, rows)) <==> IsRepeated(db, manual, cycles, statuses, j)
  {
    if j in db.items {
      assert (db.items[j].incident, db.items[j].hash) in SourcesOf(db, rows) <==>
             exists i :: i in rows && db.items[i].incident == db.items[j].incident && db.items[i].hash == db.items[j].hash;
    }
  }

  lemma FinishedTakeoverIs(db: Db, manual: int)
    ensures IsFinishedTakeover(db, manual, SupersedeCompletedManualTargets(db, manual))
  {
    var rows := set i | i in db.items && db.items[i].cycle == manual && db.items[i].status == ItemSucceeded;
    var hits := AutomaticItems(db, {CycleQueued, CycleRunning}, SourcesOf(db, rows));
    var pending := set i | i in hits && db.items[i].status == ItemPending;
    forall j ensures j in hits <==> IsRepeated(db, manual, {CycleQueued, CycleRunning}, {ItemSucceeded}, j) {
      RepeatedAre(db, manual, {CycleQueued, CycleRunning}, {ItemSucceeded}, rows, j);
    }
    IdleAre(db, pending);
    TakenOverIs(db, hits, pending, CyclesWithoutPending(db, SupersedeItems(db.items, pending)),
                (iset j | IsRepeated(db, manual, {CycleQueued, CycleRunning}, {ItemSucceeded}, j)), {ItemPending}, {CycleQueued, CycleRunning},
                {ItemSucceeded, ItemFailed, ItemSuperseded});
  }

  lemma IdleAre(db: Db, pending: set<int>)
    ensures forall c :: c in CyclesWithoutPending(db, SupersedeItems(db.items, pending)) <==>
              c in db.cycles && db.cycles[c].kind in {Scheduled, Continuation} && db.cycles[c].status in {CycleQueued, CycleRunning} &&
              forall i | i in db.items && db.items[i].cycle == c :: SupersedeItems(db.items, pending)[i].status in {ItemSucceeded, ItemFailed, ItemSuperseded}
  {
    var items := SupersedeItems(db.items, pending);
    forall c | c in db.cycles
      ensures (exists i | i in items :: items[i].cycle == c && items[i].status == ItemPending) <==>
              !forall i | i in db.items && db.items[i].cycle == c :: items[i].status in {ItemSucceeded, ItemFailed, ItemSuperseded}
    {
    }
  }

  lemma RequestTakeoverIs(db: Db, manual: int)
    ensures IsRequestTakeover(db, manual, SupersedeQueuedAutomaticTargets(db, manual))
  {
    var all := {ItemPending, ItemSucceeded, ItemFailed, ItemSuperseded};
    var rows := set i | i in db.items && db.items[i].cycle == manual;
    forall i | i in db.items ensures db.items[i].status in all { EveryStatus(db.items[i].status); }
    var hits := AutomaticItems(db, {CycleQueued}, SourcesOf(db, rows));
    forall j ensures j in hits <==> IsRepeated(db, manual, {CycleQueued}, all, j) { RepeatedAre(db, manual, {CycleQueued}, all, rows, j); }
    EmptiedAre(db, hits);
    TakenOverIs(db, hits, hits, CyclesAllSuperseded(db, SupersedeItems(db.items, hits)),
                (iset j | IsRepeated(db, manual, {CycleQueued}, all, j)), all, {CycleQueued}, {ItemSuperseded});
  }

  lemma EveryStatus(status: ItemStatus)
    ensures status in {ItemPending, ItemSucceeded, ItemFailed, ItemSuperseded}
  {
    match status
    case ItemPending =>
    case ItemSucceeded =>
    case ItemFailed =>
    case ItemSuperseded =>
  }

  lemma EmptiedAre(db: Db, hits: set<int>)
    ensures forall c :: c in CyclesAllSuperseded(db, SupersedeItems(db.items, hits)) <==>
              c in db.cycles && db.cycles[c].kind in {Scheduled, Continuation} && db.cycles[c].status in {CycleQueued} &&
              forall i | i in db.items && db.items[i].cycle == c :: SupersedeItems(db.items, hits)[i].status in {ItemSuperseded}
  {
    var items := SupersedeItems(db.items, hits);
    forall c | c in db.cycles
      ensures (exists i | i in items :: items[i].cycle == c && items[i].status != ItemSuperseded) <==>
              !forall i | i in db.items && db.items[i].cycle == c :: items[i].status in {ItemSuperseded}
    {
    }
  }

  lemma AdvanceIs(db: Db, cycle: int, kind: CycleKind, step: nat, now: int)
    ensures var (after, result) := AdvancePipelineCycle(db, cycle, kind, step, now); IsAdvance(db, cycle, kind, step, now, after, result)
  {
    StageIs(db, cycle, step, now);
    NextStageIs(db, cycle, step);
    if !StageOpen(db, cycle, step) && step + 1 >= db.stepCount { FinishIs(db, cycle, kind, step, now); }
  }

  lemma FinishIs(db: Db, cycle: int, kind: CycleKind, step: nat, now: int)
    requires step + 1 >= db.stepCount && IsOver(db, cycle, step)
    ensures IsAdvance(db, cycle, kind, step, now, FinishCycle(db, cycle, kind), Completed)
  {
    var settled := FinishCycle(db, cycle, Scheduled);
    SettledIs(db, cycle);
    FinishedTakeoverIs(settled, cycle);
    assert FinishCycle(db, cycle, kind) == if kind == Manual then SupersedeCompletedManualTargets(settled, cycle) else settled;
  }
}
