/** What a run of the pipeline leaves behind: results, finished cycles, requests, and no stalls. */
module PipelineOutcomes {
  import opened Rows
  import opened Text
  import opened PipelineTables
  import opened PipelineInvariant
  import opened PipelineSystem
  import PipelineEffects
  import PipelineRequests

  lemma ReachableShape(s: System)
    requires Reachable(s)
    ensures Shape(s.db) && OwnRuns(s.db.items)
  {
    ReachableIsOk(s);
  }

  // ----- results -----

  /** A field of an item's presentation. */
  function Value(db: Db, i: int, kind: string): Option<string>
    requires i in db.items
  {
    if (db.items[i].run, kind) in db.values then Some(db.values[(db.items[i].run, kind)]) else None
  }

  /** A result fills the fields of its own report's presentation and no other report's. */
  lemma ResultsStayWithTheirReport(s: System, outputs: map<string, string>, leave: bool)
    requires Reachable(s) && s.worker.InFlight? && !s.worker.cancelled && !HasBlank(outputs)
    ensures var (after, k) := (Apply(s, CompleteJob(outputs, leave)).db, s.worker.job);
            && k.item in s.db.items && after.items.Keys == s.db.items.Keys
            && SucceededAt(after, k.item, k.step)
            && (forall kind :: Value(after, k.item, kind) == if kind in outputs then Some(outputs[kind]) else Value(s.db, k.item, kind))
            && (forall i, kind | i in s.db.items && i != k.item :: Value(after, i, kind) == Value(s.db, i, kind))
  {
    ReachableIsOk(s);
    CompleteStores(s.db, s.worker.job, outputs);
    assert Apply(s, CompleteJob(outputs, leave)).db == CompletePipelineJob(s.db, s.worker.job, outputs).0;
  }

  lemma CompleteStores(db: Db, k: JobKey, outputs: map<string, string>)
    requires RunningJob(db, k) && k.item in db.items && OwnRuns(db.items) && !HasBlank(outputs)
    ensures var after := CompletePipelineJob(db, k, outputs).0;
            && after.items.Keys == db.items.Keys && SucceededAt(after, k.item, k.step)
            && (forall kind :: Value(after, k.item, kind) == if kind in outputs then Some(outputs[kind]) else Value(db, k.item, kind))
            && (forall i, kind | i in db.items && i != k.item :: Value(after, i, kind) == Value(db, i, kind))
  {
    var after := CompletePipelineJob(db, k, outputs).0;
    CompleteTables(db, k, outputs);
    StoredValues(db.values, db.items[k.item].run, outputs);
    forall i, kind: string | i in db.items && i != k.item ensures Value(after, i, kind) == Value(db, i, kind) {
      assert (db.items[i].run, kind) in after.values <==> (db.items[i].run, kind) in db.values;
    }
    forall kind: string ensures Value(after, k.item, kind) == if kind in outputs then Some(outputs[kind]) else Value(db, k.item, kind) {
      assert (db.items[k.item].run, kind) in after.values <==> kind in outputs || (db.items[k.item].run, kind) in db.values;
    }
  }

  lemma CompleteTables(db: Db, k: JobKey, outputs: map<string, string>)
    requires RunningJob(db, k) && k.item in db.items && !HasBlank(outputs)
    ensures var after := CompletePipelineJob(db, k, outputs).0;
            && after.items.Keys == db.items.Keys && SucceededAt(after, k.item, k.step)
            && after.values == StoreValues(db.values, db.items[k.item].run, outputs)
            && forall i | i in db.items :: after.items[i].run == db.items[i].run
  {
  }

  lemma StoredValues(values: map<(int, string), string>, run: int, outputs: map<string, string>)
    ensures var after := StoreValues(values, run, outputs);
            && (forall r, kind :: (r, kind) in after <==> (r, kind) in values || (r == run && kind in outputs))
            && (forall r, kind | (r, kind) in after :: after[(r, kind)] == if r == run && kind in outputs then outputs[kind] else values[(r, kind)])
  {
  }

  // ----- finished cycles -----

  /** A finished cycle has decided every item: succeeded exactly if all its steps did. The cycle
  failed exactly if one of its items did. */
  lemma FinishedCycleAccounts(s: System, now: int)
    requires Reachable(s) && s.worker.Holding?
    requires AdvancePipelineCycle(s.db, s.worker.cycle, s.worker.kind, s.worker.step, now).1.Completed?
    ensures Accounted(s.db, Apply(s, Advance(now)).db, s.worker.cycle)
  {
    ReachableIsOk(s);
    StepKeepsSysInv(s, Advance(now));
    assert Apply(s, Advance(now)).db == FinishCycle(s.db, s.worker.cycle, s.worker.kind);
    FinishAccounts(s.db, s.worker.cycle, s.worker.kind);
  }

  ghost predicate Accounted(db: Db, after: Db, c: int) {
    && c in db.cycles && c in after.cycles && !Active(after.cycles[c].status)
    && (forall i | i in after.items && after.items[i].cycle == c ::
          && after.items[i].status != ItemPending
          && (after.items[i].status == ItemSucceeded <==> forall n: nat | n < after.stepCount :: SucceededAt(after, i, n)))
    && (db.cycles[c].status == CycleRunning ==>
          after.cycles[c].status == if HasFailedItem(after, c) then CycleFailed else CycleSucceeded)
  }

  lemma FinishAccounts(db: Db, c: int, kind: CycleKind)
    requires db.stepCount > 0 && CyclesOk(db) && c in db.cycles && db.cycles[c].status != CycleQueued
    requires Inv(FinishCycle(db, c, kind))
    ensures Accounted(db, FinishCycle(db, c, kind), c)
  {
    var after := FinishCycle(db, c, kind);
    FinishItself(db, c, kind);
    FinishDecides(db, c, kind);
    if db.cycles[c].status == CycleRunning { FinishStatus(db, c, kind); }
    DecidedItems(after, c);
  }

  lemma DecidedItems(db: Db, c: int)
    requires Inv(db)
    requires forall i | i in db.items && db.items[i].cycle == c ::
               SucceededAt(db, i, db.stepCount - 1) ==> db.items[i].status == ItemSucceeded
    ensures forall i | i in db.items && db.items[i].cycle == c ::
              db.items[i].status == ItemSucceeded <==> forall n: nat | n < db.stepCount :: SucceededAt(db, i, n)
  {
    forall i | i in db.items && db.items[i].cycle == c
      ensures db.items[i].status == ItemSucceeded <==> forall n: nat | n < db.stepCount :: SucceededAt(db, i, n)
    {
      LastStepDecides(db, i);
    }
  }

  lemma FinishItself(db: Db, c: int, kind: CycleKind)
    requires db.stepCount > 0 && CyclesOk(db) && c in db.cycles && db.cycles[c].status != CycleQueued
    ensures var (settled, after) := (Settle(db, c), FinishCycle(db, c, kind));
            && c in after.cycles && after.cycles[c] == settled.cycles[c] && !Active(after.cycles[c].status)
            && after.items.Keys == settled.items.Keys && after.stepCount == db.stepCount
            && (forall i | i in settled.items :: after.items[i].cycle == settled.items[i].cycle &&
                                                 (settled.items[i].cycle == c ==> after.items[i] == settled.items[i]))
  {
    SettleCycles(db, c);
    FinishingLeavesItsCycle(Settle(db, c), c);
    assert FinishCycle(db, c, kind) == if kind == Manual then SupersedeCompletedManualTargets(Settle(db, c), c) else Settle(db, c);
  }

  lemma FinishDecides(db: Db, c: int, kind: CycleKind)
    requires db.stepCount > 0 && CyclesOk(db) && c in db.cycles && db.cycles[c].status != CycleQueued
    ensures var after := FinishCycle(db, c, kind);
            forall i | i in after.items && after.items[i].cycle == c ::
              after.items[i].status != ItemPending && (SucceededAt(after, i, db.stepCount - 1) ==> after.items[i].status == ItemSucceeded)
  {
    var after := FinishCycle(db, c, kind);
    FinishItself(db, c, kind);
    forall i | i in after.items && after.items[i].cycle == c
      ensures after.items[i].status != ItemPending && (SucceededAt(after, i, db.stepCount - 1) ==> after.items[i].status == ItemSucceeded)
    {
      assert i in db.items;
      FinishedItem(db, c, i);
      FinishSucceeds(db, c, kind, i);
    }
  }

  lemma FinishSucceeds(db: Db, c: int, kind: CycleKind, i: int)
    requires db.stepCount > 0
    ensures SucceededAt(FinishCycle(db, c, kind), i, db.stepCount - 1) ==> SucceededAt(db, i, db.stepCount - 1)
  {
    assert Settle(db, c).jobs == db.jobs;
    assert FinishCycle(db, c, kind) == if kind == Manual then SupersedeCompletedManualTargets(Settle(db, c), c) else Settle(db, c);
  }

  lemma FinishStatus(db: Db, c: int, kind: CycleKind)
    requires db.stepCount > 0 && CyclesOk(db) && c in db.cycles && db.cycles[c].status == CycleRunning
    ensures var after := FinishCycle(db, c, kind);
            c in after.cycles && after.cycles[c].status == if HasFailedItem(after, c) then CycleFailed else CycleSucceeded
  {
    FinishItself(db, c, kind);
    var (settled, after) := (Settle(db, c), FinishCycle(db, c, kind));
    assert HasFailedItem(after, c) <==> HasFailedItem(settled, c);
  }

  predicate HasFailedItem(db: Db, c: int) {
    exists i | i in db.items :: db.items[i].cycle == c && db.items[i].status == ItemFailed
  }

  lemma LastStepDecides(db: Db, i: int)
    requires Inv(db) && i in db.items
    requires SucceededAt(db, i, db.stepCount - 1) ==> db.items[i].status == ItemSucceeded
    ensures db.items[i].status == ItemSucceeded <==> forall n: nat | n < db.stepCount :: SucceededAt(db, i, n)
  {
    assert ItemOk(db, i) && JobKey(i, db.stepCount - 1) in db.jobs && JobOk(db, JobKey(i, db.stepCount - 1));
  }

  lemma FinishedItem(db: Db, c: int, i: int)
    requires db.stepCount > 0 && i in db.items && db.items[i].cycle == c
    ensures i in Settle(db, c).items && Settle(db, c).items[i].cycle == c && Settle(db, c).items[i].status != ItemPending
    ensures SucceededAt(db, i, db.stepCount - 1) ==> Settle(db, c).items[i].status == ItemSucceeded
  {
  }

  lemma FinishingLeavesItsCycle(db: Db, c: int)
    requires c in db.cycles && !Active(db.cycles[c].status)
    ensures var after := SupersedeCompletedManualTargets(db, c);
            && after.items.Keys == db.items.Keys
            && after.cycles.Keys == db.cycles.Keys && after.cycles[c] == db.cycles[c]
            && forall i | i in db.items :: after.items[i].cycle == db.items[i].cycle && (db.items[i].cycle == c ==> after.items[i] == db.items[i])
  {
  }

  /** When a manual cycle finishes, no unfinished automatic cycle still has a text to do that it succeeded on. */
  lemma FinishedRequestTakesOver(s: System, now: int, i: int, j: int)
    requires Reachable(s) && s.worker.Holding? && s.worker.kind == Manual
    requires AdvancePipelineCycle(s.db, s.worker.cycle, Manual, s.worker.step, now).1.Completed?
    requires var after := Apply(s, Advance(now)).db;
             && i in after.items && after.items[i].cycle == s.worker.cycle && after.items[i].status == ItemSucceeded
             && j in after.items && after.items[j].incident == after.items[i].incident && after.items[j].hash == after.items[i].hash
             && after.items[j].cycle in after.cycles && AutomaticKind(after.cycles[after.items[j].cycle].kind)
             && Active(after.cycles[after.items[j].cycle].status)
    ensures Apply(s, Advance(now)).db.items[j].status != ItemPending
  {
    ReachableIsOk(s);
    var settled, c := Settle(s.db, s.worker.cycle), s.worker.cycle;
    SettleCycles(s.db, c);
    FinishingLeavesItsCycle(settled, c);
    assert Apply(s, Advance(now)).db == SupersedeCompletedManualTargets(settled, c);
    assert settled.items[i].status == ItemSucceeded;
    assert (settled.items[i].incident, settled.items[i].hash) in FinishedTargets(settled, c);
    assert j in AutomaticItems(settled, {CycleQueued, CycleRunning}, FinishedTargets(settled, c));
  }

  // ----- manual requests -----

  function ItemsOf(items: map<int, Item>, c: int): set<int> {
    set i | i in items && items[i].cycle == c
  }

  /** A request makes exactly one pending item for every report it selects, at the report's current text. */
  lemma RequestCoversItsTargets(s: System, models: seq<string>, plans: seq<Plan>, incident: Option<int>, all: bool, now: int, rows: set<int>)
    requires Reachable(s) && CreateManualPipelineCycle(s.db, models, plans, incident, all, now).1.Created?
    requires forall t :: t in rows <==> PipelineRequests.IsRequested(s.db, incident, all, t)
    ensures var (after, result) := CreateManualPipelineCycle(s.db, models, plans, incident, all, now);
            CoversExactly(s.db, after.items, result.cycle, rows)
  {
    ReachableShape(s);
    RequestedRows(s.db, incident, all, rows);
    TargetOrderIsTotal(s.db, rows);
    RequestResult(s.db, models, plans, incident, all, now);
    RequestItems(s.db, ManualKey(s.db, models, plans, rows), Sorted(rows, TargetOrder(s.db)), rows, models, plans, now);
  }

  lemma RequestedRows(db: Db, incident: Option<int>, all: bool, rows: set<int>)
    requires forall t :: t in rows <==> PipelineRequests.IsRequested(db, incident, all, t)
    ensures rows == ManualTargets(db, incident, all)
  {
    forall t ensures t in rows <==> t in ManualTargets(db, incident, all) { PipelineRequests.RequestedAre(db, incident, all, t); }
  }

  /** The items of a cycle are one pending item for each of the reports, at its current text. */
  ghost predicate CoversExactly(db: Db, items: map<int, Item>, c: int, rows: set<int>) {
    && (forall t :: t in rows <==> exists i :: i in ItemsOf(items, c) && items[i].incident == t)
    && (forall i, j | i in ItemsOf(items, c) && j in ItemsOf(items, c) && items[i].incident == items[j].incident :: i == j)
    && (forall i | i in ItemsOf(items, c) :: items[i].incident in db.incidents &&
          items[i].hash == db.incidents[items[i].incident].hash && items[i].status == ItemPending)
  }

  function Requested(db: Db, key: RequestKey, targets: seq<int>, models: seq<string>, plans: seq<Plan>, now: int): Db
    requires forall t | t in targets :: t in db.incidents
  {
    SupersedeQueuedAutomaticTargets(CreateCycle(db, Manual, Some(key), targets, models, plans, now), db.nextCycle)
  }

  lemma RequestResult(db: Db, models: seq<string>, plans: seq<Plan>, incident: Option<int>, all: bool, now: int)
    requires CreateManualPipelineCycle(db, models, plans, incident, all, now).1.Created?
    ensures var rows := ManualTargets(db, incident, all);
            var key := ManualKey(db, models, plans, rows);
            && StrictOrder(rows, TargetOrder(db)) && QueuedRequests(db, key) == {}
            && CreateManualPipelineCycle(db, models, plans, incident, all, now) ==
                 (Requested(db, key, Sorted(rows, TargetOrder(db)), models, plans, now), Created(db.nextCycle, |rows|))
  {
    TargetOrderIsTotal(db, ManualTargets(db, incident, all));
  }

  lemma RequestItems(db: Db, key: RequestKey, targets: seq<int>, rows: set<int>, models: seq<string>, plans: seq<Plan>, now: int)
    requires Shape(db) && (forall t | t in targets :: t in db.incidents) && (forall m, n | 0 <= m < n < |targets| :: targets[m] != targets[n])
    requires forall t :: t in targets <==> t in rows
    ensures CoversExactly(db, Requested(db, key, targets, models, plans, now).items, db.nextCycle, rows)
  {
    var created := CreateCycle(db, Manual, Some(key), targets, models, plans, now);
    SupersedingLeavesItsRequest(created, db.nextCycle);
    CreatedItems(db, targets, models);
    assert created.items == db.items + NewItems(db, targets);
    ItemsCover(db, created.items, targets, rows);
    SameItemsCover(db, created.items, Requested(db, key, targets, models, plans, now).items, db.nextCycle, rows);
  }

  lemma SameItemsCover(db: Db, items: map<int, Item>, after: map<int, Item>, c: int, rows: set<int>)
    requires CoversExactly(db, items, c, rows) && after.Keys == items.Keys
    requires forall i | i in items :: after[i].cycle == items[i].cycle && (items[i].cycle == c ==> after[i] == items[i])
    ensures CoversExactly(db, after, c, rows)
  {
    forall i ensures i in ItemsOf(after, c) <==> i in ItemsOf(items, c) {}
    assert ItemsOf(after, c) == ItemsOf(items, c);
  }

  lemma ItemsCover(db: Db, items: map<int, Item>, targets: seq<int>, rows: set<int>)
    requires (forall t | t in targets :: t in db.incidents) && (forall m, n | 0 <= m < n < |targets| :: targets[m] != targets[n])
    requires forall t :: t in targets <==> t in rows
    requires forall i | i in items && items[i].cycle == db.nextCycle :: db.nextItem <= i < db.nextItem + |targets|
    requires forall i | db.nextItem <= i < db.nextItem + |targets| ::
               i in items && items[i] == NewItem(db, targets[i - db.nextItem], i - db.nextItem)
    ensures CoversExactly(db, items, db.nextCycle, rows)
  {
    var own := ItemsOf(items, db.nextCycle);
    forall i ensures i in own <==> db.nextItem <= i < db.nextItem + |targets| {}
    TargetsAreCovered(db, items, targets, own);
    forall i, j | i in own && j in own && items[i].incident == items[j].incident ensures i == j {
      assert targets[i - db.nextItem] == targets[j - db.nextItem];
    }
  }

  lemma TargetsAreCovered(db: Db, items: map<int, Item>, targets: seq<int>, own: set<int>)
    requires forall t | t in targets :: t in db.incidents
    requires forall i :: i in own <==> db.nextItem <= i < db.nextItem + |targets|
    requires forall i | i in own :: i in items && items[i] == NewItem(db, targets[i - db.nextItem], i - db.nextItem)
    ensures forall t :: t in targets <==> exists i :: i in own && items[i].incident == t
  {
    forall t | t in targets ensures exists i :: i in own && items[i].incident == t {
      var n :| 0 <= n < |targets| && targets[n] == t;
      assert db.nextItem + n in own;
    }
    forall i | i in own ensures items[i].incident in targets { assert items[i].incident == targets[i - db.nextItem]; }
  }

  lemma CreatedItems(db: Db, targets: seq<int>, models: seq<string>)
    requires Shape(db) && forall t | t in targets :: t in db.incidents
    ensures var items := db.items + NewItems(db, targets);
            && (forall i | i in items && items[i].cycle == db.nextCycle :: db.nextItem <= i < db.nextItem + |targets|)
            && (forall i | db.nextItem <= i < db.nextItem + |targets| ::
                  i in items && items[i] == NewItem(db, targets[i - db.nextItem], i - db.nextItem))
  {
    NewItemsRows(db, targets);
  }

  lemma SupersedingLeavesItsRequest(db: Db, c: int)
    requires c in db.cycles && db.cycles[c].kind == Manual
    ensures var after := SupersedeQueuedAutomaticTargets(db, c);
            && after.items.Keys == db.items.Keys && after.cycles.Keys == db.cycles.Keys && after.runs.Keys == db.runs.Keys
            && (forall i | i in db.items :: after.items[i].cycle == db.items[i].cycle && (db.items[i].cycle == c ==> after.items[i] == db.items[i]))
            && (forall d | d in db.cycles && db.cycles[d].kind == Manual :: after.cycles[d] == db.cycles[d])
            && (forall d | d in db.cycles :: after.cycles[d].kind == db.cycles[d].kind)
            && (forall r | r in db.runs :: after.runs[r].(status := Processing) == db.runs[r].(status := Processing) &&
                                           (after.runs[r].status == Complete <==> db.runs[r].status == Complete))
  {
  }

  /** A request repeated while it is still queued adds nothing: it is answered with the queued cycle. */
  lemma RepeatedRequestIsCoalesced(s: System, models: seq<string>, plans: seq<Plan>, incident: Option<int>, all: bool, now: int, later: int)
    requires Reachable(s) && CreateManualPipelineCycle(s.db, models, plans, incident, all, now).1.Created?
    ensures var (after, result) := CreateManualPipelineCycle(s.db, models, plans, incident, all, now);
            CreateManualPipelineCycle(after, models, plans, incident, all, later) == (after, Coalesced(result.cycle, result.requested))
  {
    ReachableShape(s);
    var rows := ManualTargets(s.db, incident, all);
    var key := ManualKey(s.db, models, plans, rows);
    RequestResult(s.db, models, plans, incident, all, now);
    var targets := Sorted(rows, TargetOrder(s.db));
    var after := Requested(s.db, key, targets, models, plans, now);
    RequestIsQueued(s.db, key, targets, models, plans, now);
    SameTargets(s.db, after, incident, all);
    QueuedIsCoalesced(s.db, after, models, plans, incident, all, later);
  }

  lemma QueuedIsCoalesced(db: Db, after: Db, models: seq<string>, plans: seq<Plan>, incident: Option<int>, all: bool, later: int)
    requires ManualTargets(after, incident, all) == ManualTargets(db, incident, all) && after.incidents == db.incidents
    requires QueuedRequests(after, ManualKey(db, models, plans, ManualTargets(db, incident, all))) == {db.nextCycle}
    ensures CreateManualPipelineCycle(after, models, plans, incident, all, later) ==
              (after, Coalesced(db.nextCycle, |ManualTargets(db, incident, all)|))
  {
  }

  lemma RequestIsQueued(db: Db, key: RequestKey, targets: seq<int>, models: seq<string>, plans: seq<Plan>, now: int)
    requires Shape(db) && (forall t | t in targets :: t in db.incidents) && QueuedRequests(db, key) == {}
    ensures var after := Requested(db, key, targets, models, plans, now);
            QueuedRequests(after, key) == {db.nextCycle} && SameCompleteRuns(db, after) && after.incidents == db.incidents
  {
    var created := CreateCycle(db, Manual, Some(key), targets, models, plans, now);
    var after := Requested(db, key, targets, models, plans, now);
    SupersedingLeavesItsRequest(created, db.nextCycle);
    CreatedRuns(db, targets);
    assert created.runs == db.runs + NewRuns(db, targets);
    CompletedRunsStay(db, created, after);
    assert created.cycles == db.cycles[db.nextCycle := Cycle(Manual, CycleQueued, 0, now, models, plans, Some(key))];
    OneMoreRequest(db, after, key, created.cycles[db.nextCycle]);
  }

  lemma CreatedRuns(db: Db, targets: seq<int>)
    requires Shape(db) && forall t | t in targets :: t in db.incidents
    ensures var runs := db.runs + NewRuns(db, targets);
            && (forall r | r in db.runs :: r in runs && runs[r] == db.runs[r])
            && (forall r | r in runs && r !in db.runs :: runs[r].status == Processing)
  {
    NewRunsRows(db, targets);
  }

  lemma OneMoreRequest(db: Db, after: Db, key: RequestKey, cycle: Cycle)
    requires QueuedRequests(db, key) == {} && after.cycles.Keys == db.cycles.Keys + {db.nextCycle}
    requires cycle.kind == Manual && cycle.status == CycleQueued && cycle.requestKey == Some(key)
    requires after.cycles[db.nextCycle] == cycle
    requires forall c | c in db.cycles && c != db.nextCycle ::
               after.cycles[c].kind == db.cycles[c].kind && (db.cycles[c].kind == Manual ==> after.cycles[c] == db.cycles[c])
    ensures QueuedRequests(after, key) == {db.nextCycle}
  {
    forall c ensures !QueuedRequest(db, c, key) { assert c !in QueuedRequests(db, key); }
    forall c ensures QueuedRequest(after, c, key) <==> c == db.nextCycle {}
  }

  ghost predicate SameCompleteRuns(db: Db, after: Db) {
    && (forall r | r in db.runs && db.runs[r].status == Complete :: r in after.runs && after.runs[r] == db.runs[r])
    && (forall r | r in after.runs && after.runs[r].status == Complete :: r in db.runs && after.runs[r] == db.runs[r])
  }

  lemma CompletedRunsStay(db: Db, created: Db, after: Db)
    requires Shape(db) && created.runs.Keys == after.runs.Keys
    requires forall r | r in db.runs :: r in created.runs && created.runs[r] == db.runs[r]
    requires forall r | r in created.runs && r !in db.runs :: created.runs[r].status == Processing
    requires forall r | r in created.runs :: after.runs[r].(status := Processing) == created.runs[r].(status := Processing) &&
                                             (after.runs[r].status == Complete <==> created.runs[r].status == Complete)
    ensures SameCompleteRuns(db, after)
  {
  }

  lemma SameTargets(db: Db, after: Db, incident: Option<int>, all: bool)
    requires after.incidents == db.incidents && SameCompleteRuns(db, after)
    ensures ManualTargets(after, incident, all) == ManualTargets(db, incident, all)
  {
  }

  // ----- schedules -----

  /** A report that came in after the cutover, and for whose text no current presentation is complete or has failed. */
  ghost predicate IsNewReport(db: Db, t: int) {
    && t in db.incidents && db.incidents[t].hasBody && db.incidents[t].createdAt > db.cutover
    && !exists r :: r in db.runs && db.runs[r].current && db.runs[r].status in {Complete, RunFailed} &&
                    db.runs[r].incident == t && db.runs[r].hash == db.incidents[t].hash
  }

  /** When nothing else is to do, a schedule starts exactly if there is a new report, and then it has exactly one pending
  item for each new report, at its current text. */
  lemma NewReportsAreScheduled(s: System, models: seq<string>, now: int)
    requires Reachable(s) && s.db.processing && s.db.automatic
    requires forall c | c in s.db.cycles :: s.db.cycles[c].status !in {CycleQueued, CycleRunning}
    ensures var (after, active) := ActivateNextPipelineCycle(s.db, models, true, now);
            && (active.Some? <==> exists t :: IsNewReport(s.db, t))
            && (active.Some? ==> active.value in after.cycles && after.cycles[active.value].status == CycleRunning &&
                                 IsScheduleOf(s.db, after.items, active.value))
  {
    ReachableIsOk(s);
    var (after, active) := ActivateNextPipelineCycle(s.db, models, true, now);
    PipelineRequests.ActivationIs(s.db, models, true, now);
    assert PipelineRequests.IsNone(PipelineRequests.RunningNow(s.db)) && PipelineRequests.IsNone(PipelineRequests.Startable(s.db));
    StartIsSchedule(s.db, models, now, after, active);
  }

  lemma StartIsSchedule(db: Db, models: seq<string>, now: int, after: Db, active: Option<int>)
    requires Linked(db) && db.automatic && PipelineRequests.IsNone(PipelineRequests.Startable(db))
    requires PipelineRequests.IsStart(db, models, true, now, after, active)
    ensures active.Some? <==> exists t :: IsNewReport(db, t)
    ensures active.Some? ==> active.value in after.cycles && after.cycles[active.value].status == CycleRunning && IsScheduleOf(db, after.items, active.value)
  {
    NewReportsAreDue(db);
    if active.Some? {
      var created :| PipelineRequests.HasStatus(created, db.nextCycle, CycleRunning, after) &&
        PipelineRequests.IsCreated(db, Scheduled, None, PipelineRequests.DueReports(db), models, [], now, created);
      CreatedIsSchedule(db, created, models, now);
    }
  }

  ghost predicate IsScheduleOf(db: Db, items: map<int, Item>, c: int) {
    && (forall t :: IsNewReport(db, t) <==> exists i :: i in items && items[i].cycle == c && items[i].incident == t)
    && (forall i, j | i in items && j in items && items[i].cycle == c && items[j].cycle == c && items[i].incident == items[j].incident :: i == j)
    && (forall i | i in items && items[i].cycle == c ::
          items[i].incident in db.incidents && items[i].hash == db.incidents[items[i].incident].hash && items[i].status == ItemPending)
  }

  lemma NewReportsAreDue(db: Db)
    ensures forall t :: IsNewReport(db, t) <==> t in PipelineRequests.DueReports(db)
  {
  }

  lemma CreatedIsSchedule(db: Db, created: Db, models: seq<string>, now: int)
    requires Linked(db) && PipelineRequests.IsCreated(db, Scheduled, None, PipelineRequests.DueReports(db), models, [], now, created)
    ensures IsScheduleOf(db, created.items, db.nextCycle)
  {
    NewReportsAreDue(db);
    var order :| PipelineRequests.IsOrderOf(db, PipelineRequests.DueReports(db), order) &&
      PipelineRequests.HasCreated(db, Scheduled, None, order, models, [], now, created);
    ScheduledItems(db, created, order, models);
    OrderIsSchedule(db, created, order);
  }

  lemma OrderIsSchedule(db: Db, created: Db, order: seq<int>)
    requires (forall t :: t in order <==> IsNewReport(db, t)) && (forall n | 0 <= n < |order| :: order[n] in db.incidents)
    requires forall m, n | 0 <= m < n < |order| ::
               PipelineEffects.ReportGoesBefore(db.incidents[order[m]], order[m], db.incidents[order[n]], order[n])
    requires forall i | i in created.items && created.items[i].cycle == db.nextCycle :: IsScheduledItem(db, created.items, order, i)
    requires forall i | db.nextItem <= i < db.nextItem + |order| :: IsScheduledItem(db, created.items, order, i)
    ensures IsScheduleOf(db, created.items, db.nextCycle)
  {
    ScheduledOnce(db, created.items, order);
    forall t ensures IsNewReport(db, t) <==> exists i :: i in created.items && created.items[i].cycle == db.nextCycle && created.items[i].incident == t {
      if IsNewReport(db, t) {
        var n :| 0 <= n < |order| && order[n] == t;
        assert IsScheduledItem(db, created.items, order, db.nextItem + n);
      }
      if i :| i in created.items && created.items[i].cycle == db.nextCycle && created.items[i].incident == t {
        assert IsScheduledItem(db, created.items, order, i);
        assert order[i - db.nextItem] in order;
      }
    }
  }

  ghost predicate IsScheduledItem(db: Db, items: map<int, Item>, order: seq<int>, i: int) {
    && i in items && items[i].cycle == db.nextCycle && 0 <= i - db.nextItem < |order| && items[i].incident == order[i - db.nextItem]
    && items[i].incident in db.incidents && items[i].hash == db.incidents[items[i].incident].hash && items[i].status == ItemPending
  }

  lemma ScheduledOnce(db: Db, items: map<int, Item>, order: seq<int>)
    requires (forall n | 0 <= n < |order| :: order[n] in db.incidents)
    requires forall m, n | 0 <= m < n < |order| ::
               PipelineEffects.ReportGoesBefore(db.incidents[order[m]], order[m], db.incidents[order[n]], order[n])
    requires forall i | i in items && items[i].cycle == db.nextCycle :: IsScheduledItem(db, items, order, i)
    ensures forall i, j | i in items && j in items && items[i].cycle == db.nextCycle && items[j].cycle == db.nextCycle &&
                          items[i].incident == items[j].incident :: i == j
  {
    forall i, j | i in items && j in items && items[i].cycle == db.nextCycle && items[j].cycle == db.nextCycle && items[i].incident == items[j].incident
      ensures i == j
    {
      assert IsScheduledItem(db, items, order, i) && IsScheduledItem(db, items, order, j);
    }
  }

  lemma ScheduledItems(db: Db, created: Db, order: seq<int>, models: seq<string>)
    requires Linked(db) && (forall n | 0 <= n < |order| :: order[n] in db.incidents)
    requires (forall n: nat | n < |order| :: PipelineRequests.HasNewRows(db, created, n, order[n], models)) &&
             PipelineRequests.OnlyAdds(db, |order|, |models|, created)
    ensures forall i | i in created.items && created.items[i].cycle == db.nextCycle :: IsScheduledItem(db, created.items, order, i)
    ensures forall i | db.nextItem <= i < db.nextItem + |order| :: IsScheduledItem(db, created.items, order, i)
  {
    forall i | db.nextItem <= i < db.nextItem + |order| ensures IsScheduledItem(db, created.items, order, i) {
      var n: nat := i - db.nextItem;
      assert PipelineRequests.HasNewRows(db, created, n, order[n], models);
    }
    assert forall i | i in created.items && !(db.nextItem <= i < db.nextItem + |order|) :: i in db.items && created.items[i] == db.items[i];
    forall i | i in created.items && created.items[i].cycle == db.nextCycle ensures IsScheduledItem(db, created.items, order, i) {
    }
  }

  // ----- crashes -----

  /** A crash during a provider call costs nothing but the call: after the restart its job is due again. */
  lemma InterruptedJobIsClaimable(s: System, now: int)
    requires Reachable(s) && s.worker.InFlight? && !s.worker.cancelled && s.db.processing
    requires s.worker.job.item in s.db.items && (s.worker.kind == Manual || s.db.automatic)
    requires var item := s.db.items[s.worker.job.item];
             item.incident in s.db.incidents && s.db.incidents[item.incident].hash == item.hash
    ensures var after := PipelineSystem.Run(s, [Crash, Restart(now)]);
            && after.worker == Idle && NoRunningJob(after.db)
            && s.worker.job in ClaimableJobs(after.db, s.worker.cycle, s.worker.step, now)
            && after.db.(jobs := s.db.jobs) == s.db
  {
    ReachableIsOk(s);
    var k := s.worker.job;
    assert JobOk(s.db, k);
    assert PipelineSystem.Run(s, [Crash, Restart(now)]) == PipelineSystem.Run(Apply(s, Crash), [Restart(now)]);
    assert PipelineSystem.Run(Apply(s, Crash), [Restart(now)]) == PipelineSystem.Run(Apply(Apply(s, Crash), Restart(now)), []);
  }

  // ----- no stalls -----

  /** Every item's report exists. */
  ghost predicate TextsExist(db: Db) {
    forall i | i in db.items :: db.items[i].incident in db.incidents
  }

  /** Reports and items stay, and items stay with their reports. */
  ghost predicate SameTexts(db: Db, s: Db) {
    && db.incidents.Keys <= s.incidents.Keys
    && s.items.Keys == db.items.Keys && forall i | i in db.items :: s.items[i].incident == db.items[i].incident
  }

  lemma CreateKeepsTexts(db: Db, kind: CycleKind, key: Option<RequestKey>, targets: seq<int>, models: seq<string>, plans: seq<Plan>, now: int)
    requires TextsExist(db) && forall t | t in targets :: t in db.incidents
    ensures TextsExist(CreateCycle(db, kind, key, targets, models, plans, now))
  {
    NewItemsRows(db, targets);
  }

  lemma ActivateKeepsTexts(db: Db, models: seq<string>, allowScheduled: bool, now: int)
    requires TextsExist(db)
    ensures TextsExist(ActivateNextPipelineCycle(db, models, allowScheduled, now).0)
  {
    var running := SelectCycle(db.cycles, RunningCycles(db.cycles));
    var freed := if running.Some? then db.(cycles := SetCycleStatus(db.cycles, running.value, CycleQueued)) else db;
    assert TextsExist(freed);
    QueuedKeepsTexts(freed, models, allowScheduled, now);
  }

  lemma QueuedKeepsTexts(db: Db, models: seq<string>, allowScheduled: bool, now: int)
    requires TextsExist(db)
    ensures TextsExist(ActivateQueued(db, models, allowScheduled, now).0)
  {
    var rows := ScheduledTargets(db);
    if SelectCycle(db.cycles, QueuedCycles(db.cycles, db.automatic)).None? && rows != {} {
      TargetOrderIsTotal(db, rows);
      CreateKeepsTexts(db, Scheduled, None, Sorted(rows, TargetOrder(db)), models, [], now);
    }
  }

  lemma RequestKeepsTexts(db: Db, models: seq<string>, plans: seq<Plan>, incident: Option<int>, all: bool, now: int)
    requires TextsExist(db)
    ensures TextsExist(CreateManualPipelineCycle(db, models, plans, incident, all, now).0)
  {
    var rows := ManualTargets(db, incident, all);
    var key := ManualKey(db, models, plans, rows);
    if QueuedRequests(db, key) == {} && rows != {} {
      TargetOrderIsTotal(db, rows);
      var targets := Sorted(rows, TargetOrder(db));
      CreateKeepsTexts(db, Manual, Some(key), targets, models, plans, now);
      SupersedeKeepsTexts(CreateCycle(db, Manual, Some(key), targets, models, plans, now), db.nextCycle);
    }
  }

  lemma SupersedeKeepsTexts(db: Db, c: int)
    ensures SameTexts(db, SupersedeQueuedAutomaticTargets(db, c))
  {
  }

  lemma SettleKeepsTexts(db: Db, cycle: int)
    requires db.stepCount > 0
    ensures SameTexts(db, Settle(db, cycle))
  {
  }

  lemma FinishKeepsTexts(db: Db, cycle: int, kind: CycleKind)
    requires db.stepCount > 0
    ensures SameTexts(db, FinishCycle(db, cycle, kind))
  {
    SettleKeepsTexts(db, cycle);
    var settled := Settle(db, cycle);
    assert FinishCycle(db, cycle, kind) == if kind == Manual then SupersedeCompletedManualTargets(settled, cycle) else settled;
    SupersedeCompletedKeepsTexts(settled, cycle);
  }

  lemma SupersedeCompletedKeepsTexts(db: Db, c: int)
    ensures SameTexts(db, SupersedeCompletedManualTargets(db, c))
  {
  }

  lemma AdvanceKeepsTexts(db: Db, cycle: int, kind: CycleKind, step: nat, now: int)
    requires db.stepCount > 0
    ensures SameTexts(db, AdvancePipelineCycle(db, cycle, kind, step, now).0)
  {
    FinishKeepsTexts(db, cycle, kind);
  }

  lemma ClaimKeepsTexts(db: Db, cycle: int, step: nat, now: int)
    ensures SameTexts(db, ClaimPipelineJob(db, cycle, step, now).0)
  {
  }

  lemma YieldKeepsTexts(db: Db, cycle: int, now: int)
    ensures SameTexts(db, InterruptBlockedAutomaticCycle(db, cycle, now).0)
  {
  }

  lemma HoldingKeepsTexts(db: Db, worker: Worker, op: Op)
    requires worker.Holding? && db.stepCount > 0
    ensures SameTexts(db, HoldingStep(db, worker, op).db)
  {
    if op.Advance? { AdvanceKeepsTexts(db, worker.cycle, worker.kind, worker.step, op.now); }
    else if op.Claim? { ClaimKeepsTexts(db, worker.cycle, worker.step, op.now); }
    else if op.Yield? { YieldKeepsTexts(db, worker.cycle, op.now); }
  }

  lemma CompleteKeepsTexts(db: Db, k: JobKey, outputs: map<string, string>)
    ensures SameTexts(db, CompletePipelineJob(db, k, outputs).0)
  {
    if CompletePipelineJob(db, k, outputs).1 {
      var done := db.(values := StoreValues(db.values, db.items[k.item].run, outputs), jobs := db.jobs[k := db.jobs[k].(status := Succeeded)]);
      PublishKeepsTexts(done, k);
    }
  }

  lemma PublishKeepsTexts(db: Db, k: JobKey)
    requires k.item in db.items
    ensures SameTexts(db, PublishAfterLast(db, k))
  {
  }

  lemma InFlightKeepsTexts(db: Db, worker: Worker, op: Op)
    requires worker.InFlight?
    ensures SameTexts(db, InFlightStep(db, worker, op).db)
  {
    if op.CompleteJob? { CompleteKeepsTexts(db, worker.job, op.outputs); }
  }

  lemma WorkerKeepsTexts(s: System, op: Op)
    requires TextsExist(s.db) && s.db.stepCount > 0
    ensures TextsExist(WorkerStep(s, op).db)
  {
    if op == Crash || s.worker.Down? {
    } else if s.worker.Idle? {
      if op.Activate? { ActivateKeepsTexts(s.db, op.models, op.allowScheduled, op.now); }
    } else if s.worker.Holding? {
      HoldingKeepsTexts(s.db, s.worker, op);
    } else {
      InFlightKeepsTexts(s.db, s.worker, op);
    }
  }

  lemma OperatorKeepsTexts(s: System, op: Op)
    requires op.SetAutomatic? || op.SetProcessing? || op.Cancel? || op.ReplaceSource?
    ensures SameTexts(s.db, Apply(s, op).db)
  {
  }

  lemma StepKeepsTexts(s: System, op: Op)
    requires TextsExist(s.db) && s.db.stepCount > 0
    ensures TextsExist(Apply(s, op).db)
  {
    if op.RequestManual? {
      RequestKeepsTexts(s.db, op.models, op.plans, op.incident, op.reprocessAll, op.now);
    } else if op.SetAutomatic? || op.SetProcessing? || op.Cancel? || op.ReplaceSource? {
      OperatorKeepsTexts(s, op);
    } else {
      assert Apply(s, op) == WorkerStep(s, op);
      WorkerKeepsTexts(s, op);
    }
  }

  lemma {:induction false} RunKeepsTexts(s: System, ops: seq<Op>)
    requires SysInv(s) && TextsExist(s.db)
    ensures TextsExist(PipelineSystem.Run(s, ops).db)
    decreases |ops|
  {
    if ops != [] {
      StepKeepsSysInv(s, ops[0]);
      StepKeepsTexts(s, ops[0]);
      RunKeepsTexts(Apply(s, ops[0]), ops[1..]);
    }
  }

  lemma ReachableTextsExist(s: System)
    requires Reachable(s)
    ensures TextsExist(s.db)
  {
    var stepCount: nat, cutover, ops :| stepCount > 0 && s == PipelineSystem.Run(Empty(stepCount, cutover), ops);
    EmptyIsOk(stepCount, cutover);
    RunKeepsTexts(Empty(stepCount, cutover), ops);
  }

  /** The worker cannot get stuck: when its cycle may run and a claim finds nothing, the stage is
  either over and the cycle moves on, or it only waits for retries that are not due yet. */
  lemma AnEmptyClaimNeverStalls(s: System, now: int)
    requires Reachable(s) && s.worker.Holding? && s.db.processing
    requires s.worker.cycle in s.db.cycles && s.db.cycles[s.worker.cycle].status == CycleRunning
    requires s.worker.kind == Manual || s.db.automatic
    requires ClaimPipelineJob(s.db, s.worker.cycle, s.worker.step, now).1.None?
    ensures var swept := Apply(s, Claim(now)).db;
            AdvancePipelineCycle(swept, s.worker.cycle, s.worker.kind, s.worker.step, now).1 != Blocked(false)
  {
    ReachableIsOk(s);
    ReachableTextsExist(s);
    var cycle, step := s.worker.cycle, s.worker.step;
    var swept := SweepStale(s.db, cycle);
    forall k | k in StageJobs(swept, cycle, step)
      ensures swept.jobs[k].status != Running && !(swept.jobs[k].status == Pending && Due(swept.jobs[k].retryAt, now))
    {
      assert k !in ClaimableJobs(swept, cycle, step, now);
      assert s.db.jobs[k].status != Running;
      if k.item !in StaleItems(s.db, cycle) { assert swept.items[k.item] == s.db.items[k.item]; }
    }
  }
}
