/** The post-processing queue as mutable tables: the claim loop and the read-only peek loop. */
module PostProcessingStore {
  import opened Rows
  import Text
  import opened PostProcessingTables
  import opened PostProcessingEffects

  class Store {
    var world: World
    var jobs: map<int, Job>
    var outputs: map<(int, string), string>
    var next: int

    function Tables(): Queue
      reads this
    {
      Queue(world, jobs, outputs, next)
    }

    constructor (world: World)
      ensures Tables() == Queue(world, map[], map[], 1)
    {
      this.world := world;
      jobs, outputs, next := map[], map[], 1;
    }

    /** Walks the ordered candidates without changing any job. */
    method PeekPostProcessingJob(processor: string, contracts: map<string, Contract>, o: Options, now: int) returns (result: Option<int>)
      ensures IsPeek(Tables(), processor, contracts, o, now, result)
      ensures IsPeekOf(Tables(), processor, contracts, o, now, result)
    {
      var rows := Candidates(Tables(), processor, o, now);
      OrderIsTotal(jobs, o, rows);
      var ordered := Sorted(rows, Order(jobs, o));
      for i := 0 to |ordered|
        invariant forall k | 0 <= k < i :: !Runnable(world, contracts, jobs[ordered[k]])
      {
        if Runnable(world, contracts, jobs[ordered[i]]) {
          FirstRunnable(Tables(), processor, contracts, o, now, ordered, i);
          PeekIs(Tables(), processor, contracts, o, now, Some(ordered[i]));
          return Some(ordered[i]);
        }
      }
      result := None;
      PeekIs(Tables(), processor, contracts, o, now, result);
    }

    method SweepForClaim(processor: string)
      modifies this`jobs
      ensures Tables() == Sweep(old(Tables()), processor)
    {
      jobs := SupersedeStale(world, jobs);
      jobs := SkipDisabledScopes(world, processor, jobs);
      jobs := SkipDisabledProcessor(world, processor, jobs);
    }

    /** Skips and fails candidates in their order until one ends the loop: it can run, or its contract is
    malformed. Each round settles one pending job, so the loop ends. */
    method SettleUntilStop(processor: string, contracts: map<string, Contract>, o: Options, now: int)
      returns (selected: Option<int>, ghost done: set<int>)
      modifies this`jobs
      ensures Tables() == Settle(old(Tables()), contracts, done)
      ensures Stopped(old(Tables()), processor, contracts, o, now, done, selected)
    {
      ghost var swept := Tables();
      done := {};
      SettleNothing(swept, contracts);
      while true
        invariant world == swept.world && Tables() == Settle(swept, contracts, done)
        invariant Passed(swept, contracts, o, Candidates(swept, processor, o, now), done)
        decreases |Candidates(swept, processor, o, now) - done|
      {
        selected := Select(Tables(), processor, o, now);
        Round(swept, processor, contracts, o, now, done, selected);
        if selected.None? || Ends(world, contracts, jobs[selected.value]) {
          return;
        }
        jobs := jobs[selected.value := SettledJob(world, contracts, jobs[selected.value])];
        done := done + {selected.value};
      }
    }

    /** An error rolls the whole claim back. */
    method ClaimPostProcessingJob(processor: string, contracts: map<string, Contract>, o: Options, now: int) returns (result: ClaimResult)
      modifies this`jobs
      ensures IsClaim(old(Tables()), processor, contracts, o, now, Tables(), result)
      ensures IsClaimOf(old(Tables()), processor, contracts, o, now, Tables(), result)
    {
      var saved := jobs;
      SweepForClaim(processor);
      var selected, done := SettleUntilStop(processor, contracts, o, now);
      if selected.None? {
        NothingLeft(old(Tables()), processor, contracts, o, now, done);
        result := NothingEligible;
      } else if Judge(world, contracts, jobs[selected.value]).Malformed? {
        jobs := saved;
        EndsMalformed(old(Tables()), processor, contracts, o, now, done, selected.value);
        result := MalformedContract;
      } else {
        var j := selected.value;
        jobs := jobs[j := StartedJob(world, contracts, jobs[j])];
        EndsClaimed(old(Tables()), processor, contracts, o, now, done, j);
        result := Claimed(j);
      }
      ClaimIs(old(Tables()), processor, contracts, o, now, Tables(), result);
    }

    method QueuePostProcessing(run: int, plan: Plan, kind: Kind, force: bool, now: int) returns (queued: bool)
      modifies this`jobs, this`next
      ensures (Tables(), queued) == PostProcessingTables.QueuePostProcessing(old(Tables()), run, plan, kind, force, now)
      ensures IsQueued(old(Tables()), run, plan, kind, force, now, Tables(), queued)
    {
      QueuedIs(Tables(), run, plan, kind, force, now);
      if !ValidPlan(plan) {
        return false;
      }
      if NeedsSource(plan) && !Matches(world, run) {
        return false;
      }
      jobs := SupersedeOlder(Tables(), run, plan.processor, plan.scope);
      queued := InsertUnlessSatisfied(run, plan, kind, force, now);
    }

    method InsertUnlessSatisfied(run: int, plan: Plan, kind: Kind, force: bool, now: int) returns (queued: bool)
      modifies this`jobs, this`next
      ensures (Tables(), queued) == PostProcessingTables.InsertUnlessSatisfied(old(Tables()), run, plan, kind, force, now)
    {
      var input, missing := PlanInput(world, run, plan), Unavailable(world, run, plan.inputs);
      if Satisfied(jobs, run, plan, input, force) {
        return false;
      }
      jobs := jobs[next := NewJob(run, plan, kind, input, missing, now)];
      next := next + 1;
      queued := missing.None?;
    }

    /** The insert loop: a job that is not there or a row that is there already rolls everything back. */
    static method InsertValues(stored: map<(int, string), string>, known: bool, id: int, values: seq<(string, string)>)
      returns (inserted: map<(int, string), string>, valid: bool)
      requires forall i, j | 0 <= i < j < |values| :: values[i].0 != values[j].0
      ensures valid <==> (known || values == []) && forall v | v in values :: (id, v.0) !in stored
      ensures valid ==> inserted == StoreOutputs(stored, id, values)
    {
      inserted := stored;
      for i := 0 to |values|
        invariant StoreOutputs(inserted, id, values[i..]) == StoreOutputs(stored, id, values)
        invariant forall k | 0 <= k < i :: (id, values[k].0) !in stored && known
        invariant forall row | row in inserted :: row in stored || (row.0 == id && exists k | 0 <= k < i :: values[k].0 == row.1)
        invariant stored.Keys <= inserted.Keys
      {
        if !known || (id, values[i].0) in inserted {
          assert values[i] in values;
          return inserted, false;
        }
        inserted := inserted[(id, values[i].0) := values[i].1];
        assert values[i..][1..] == values[i + 1..];
      }
      assert values[|values|..] == [];
      valid := true;
    }

    method CompletePostProcessingJob(c: Carried, values: seq<(string, string)>, model: string, input: Input) returns (outcome: Outcome)
      modifies this`jobs, this`outputs
      ensures (Tables(), outcome) == PostProcessingTables.CompletePostProcessingJob(old(Tables()), c, values, model, input)
      ensures IsCompletion(old(Tables()), c, values, model, input, Tables(), outcome)
    {
      outcome := StoreResult(c, values, model, input);
      CompletionIs(old(Tables()), c, values, model, input);
    }

    /** Every error leaves all rows as they were. */
    method StoreResult(c: Carried, values: seq<(string, string)>, model: string, input: Input) returns (outcome: Outcome)
      modifies this`jobs, this`outputs
      ensures (Tables(), outcome) == PostProcessingTables.CompletePostProcessingJob(old(Tables()), c, values, model, input)
    {
      if !ValidOutputs(values, c.outputs) || Text.Blank(model) || input != c.input {
        return Rejected;
      }
      if c.processor == "location_verification" && LocationOutdated(world, c) {
        if c.id in jobs && jobs[c.id].status == Running {
          jobs := jobs[c.id := jobs[c.id].(status := Superseded)];
        }
        return NotRunning;
      }
      var inserted, valid := InsertValues(outputs, c.id in jobs, c.id, values);
      if !valid {
        return Rejected;
      }
      if c.id !in jobs || jobs[c.id].status != Running {
        return NotRunning;
      }
      outputs := inserted;
      jobs := jobs[c.id := jobs[c.id].(status := Succeeded, model := model, input := input)];
      outcome := Stored;
    }

    method FailPostProcessingJob(id: int, status: Status, retryAt: Option<int>) returns (stored: bool)
      modifies this`jobs
      ensures (Tables(), stored) == PostProcessingTables.FailPostProcessingJob(old(Tables()), id, status, retryAt)
      ensures IsFailure(old(Tables()), id, status, retryAt, Tables(), stored)
    {
      FailureIs(Tables(), id, status, retryAt);
      if status != Pending && status != NeedsReview && status != Failed {
        return false;
      }
      if id !in jobs || jobs[id].status != Running {
        return false;
      }
      jobs := jobs[id := jobs[id].(status := status, retryAt := retryAt)];
      stored := true;
    }

    method RecoverPostProcessing(now: int)
      modifies this`jobs
      ensures Tables() == PostProcessingTables.RecoverPostProcessing(old(Tables()), now)
      ensures IsRecovery(old(Tables()), now, Tables())
    {
      RecoveryIs(Tables(), now);
      jobs := map j | j in jobs ::
        if jobs[j].status == Running then jobs[j].(status := Pending, retryAt := Some(now)) else jobs[j];
    }

    method CancelPostProcessing()
      modifies this`jobs, this`world
      ensures Tables() == PostProcessingTables.CancelPostProcessing(old(Tables()))
      ensures IsCancelled(old(Tables()), Tables())
    {
      CancelledIs(Tables());
      world := world.(automatic := false);
      jobs := map j | j in jobs ::
        if Active(jobs[j].status) then jobs[j].(status := Superseded, reason := OperatorCanceled, retryAt := None) else jobs[j];
    }
  }

  // ----- the peek loop -----

  lemma FirstRunnable(q: Queue, processor: string, contracts: map<string, Contract>, o: Options, now: int, ordered: seq<int>, i: nat)
    requires i < |ordered|
    requires forall k | 0 <= k < |ordered| :: ordered[k] in q.jobs
    requires forall row :: row in ordered <==> row in Candidates(q, processor, o, now)
    requires forall a, b | 0 <= a < b < |ordered| :: Order(q.jobs, o)(ordered[a], ordered[b])
    requires Runnable(q.world, contracts, q.jobs[ordered[i]])
    requires forall k | 0 <= k < i :: !Runnable(q.world, contracts, q.jobs[ordered[k]])
    ensures IsPeek(q, processor, contracts, o, now, Some(ordered[i]))
  {
    var rows := RunnableRows(q, processor, contracts, o, now);
    forall other | other in rows && other != ordered[i] ensures Order(q.jobs, o)(ordered[i], other) {
      var k :| 0 <= k < |ordered| && ordered[k] == other;
    }
  }

  // ----- the claim loop -----

  /** `done` are candidates at which the loop does not end, and they come before all others. */
  ghost predicate Passed(q: Queue, contracts: map<string, Contract>, o: Options, rows: set<int>, done: set<int>)
  {
    && done <= rows <= q.jobs.Keys
    && (forall j | j in done :: Judge(q.world, contracts, q.jobs[j]).Obsolete? || Judge(q.world, contracts, q.jobs[j]).Lacks?)
    && (forall j, k | j in done && k in rows && k !in done :: Order(q.jobs, o)(j, k))
  }

  lemma SettleNothing(q: Queue, contracts: map<string, Contract>)
    ensures Settle(q, contracts, {}) == q
  {
    assert Settle(q, contracts, {}).jobs == q.jobs;
  }

  lemma SettleOneMore(q: Queue, contracts: map<string, Contract>, done: set<int>, j: int)
    requires j in q.jobs && j !in done
    ensures Settle(q, contracts, done + {j}).jobs == Settle(q, contracts, done).jobs[j := SettledJob(q.world, contracts, q.jobs[j])]
  {
  }

  /** Settling candidates takes exactly them out of the selection. */
  lemma CandidatesLeft(q: Queue, processor: string, contracts: map<string, Contract>, o: Options, now: int, done: set<int>)
    requires Passed(q, contracts, o, Candidates(q, processor, o, now), done)
    ensures Candidates(Settle(q, contracts, done), processor, o, now) == Candidates(q, processor, o, now) - done
  {
    var after := Settle(q, contracts, done);
    forall j | j in q.jobs
      ensures Selectable(q.world, after.jobs[j], processor, o, now) <==> Selectable(q.world, q.jobs[j], processor, o, now) && j !in done
    {
    }
  }

  /** The first of the remaining candidates comes directly after the settled ones. */
  lemma FirstLeft(q: Queue, contracts: map<string, Contract>, o: Options, rows: set<int>, done: set<int>, j: int)
    requires Passed(q, contracts, o, rows, done)
    requires IsFirst(rows - done, Order(Settle(q, contracts, done).jobs, o), j)
    ensures IsFirst(rows - done, Order(q.jobs, o), j)
    ensures Settle(q, contracts, done).jobs[j] == q.jobs[j]
    ensures done == RowsBefore(rows, Order(q.jobs, o), j)
    ensures j in StopRows(q, contracts, rows) ==> IsFirst(StopRows(q, contracts, rows), Order(q.jobs, o), j)
    ensures j !in StopRows(q, contracts, rows) ==> Passed(q, contracts, o, rows, done + {j})
  {
    OrderIsTotal(q.jobs, o, rows);
    forall k | k in rows && k !in done && k != j ensures Order(q.jobs, o)(j, k) && !Order(q.jobs, o)(k, j) {
      assert Order(Settle(q, contracts, done).jobs, o)(j, k);
    }
  }

  /** How the loop may end: no candidate is left, or the first one left ends it. */
  ghost predicate Stopped(q: Queue, processor: string, contracts: map<string, Contract>, o: Options, now: int, done: set<int>, selected: Option<int>) {
    var rows, jobs := Candidates(q, processor, o, now), Settle(q, contracts, done).jobs;
    && Passed(q, contracts, o, rows, done)
    && (selected.None? ==> rows - done == {})
    && (selected.Some? ==> selected.value in q.jobs && IsFirst(rows - done, Order(jobs, o), selected.value) &&
                           jobs[selected.value] == q.jobs[selected.value] && Ends(q.world, contracts, q.jobs[selected.value]))
  }

  lemma Round(q: Queue, processor: string, contracts: map<string, Contract>, o: Options, now: int, done: set<int>, selected: Option<int>)
    requires Passed(q, contracts, o, Candidates(q, processor, o, now), done)
    requires var current := Candidates(Settle(q, contracts, done), processor, o, now);
             && (selected.None? <==> current == {})
             && (selected.Some? ==> IsFirst(current, Order(Settle(q, contracts, done).jobs, o), selected.value))
    ensures selected.Some? ==> selected.value in q.jobs && Settle(q, contracts, done).jobs[selected.value] == q.jobs[selected.value]
    ensures selected.None? || Ends(q.world, contracts, q.jobs[selected.value]) ==>
              Stopped(q, processor, contracts, o, now, done, selected)
    ensures selected.Some? && !Ends(q.world, contracts, q.jobs[selected.value]) ==>
              var after := done + {selected.value};
              && Settle(q, contracts, after) == Settle(q, contracts, done).(jobs :=
                   Settle(q, contracts, done).jobs[selected.value := SettledJob(q.world, contracts, q.jobs[selected.value])])
              && Passed(q, contracts, o, Candidates(q, processor, o, now), after)
              && |Candidates(q, processor, o, now) - after| < |Candidates(q, processor, o, now) - done|
  {
    CandidatesLeft(q, processor, contracts, o, now, done);
    if selected.Some? {
      var rows := Candidates(q, processor, o, now);
      FirstLeft(q, contracts, o, rows, done, selected.value);
      SettleOneMore(q, contracts, done, selected.value);
      assert rows - (done + {selected.value}) == (rows - done) - {selected.value};
    }
  }

  lemma NothingLeft(q: Queue, processor: string, contracts: map<string, Contract>, o: Options, now: int, done: set<int>)
    requires Passed(Sweep(q, processor), contracts, o, Candidates(Sweep(q, processor), processor, o, now), done)
    requires Candidates(Sweep(q, processor), processor, o, now) - done == {}
    ensures IsClaim(q, processor, contracts, o, now, Settle(Sweep(q, processor), contracts, done), NothingEligible)
  {
    var s := Sweep(q, processor);
    var rows := Candidates(s, processor, o, now);
    forall j | j in rows ensures j in done { assert j !in rows - done; }
    assert done == rows;
    assert forall j | j in rows :: j !in StopRows(s, contracts, rows);
    assert StopRows(s, contracts, rows) == {};
  }

  lemma EndsMalformed(q: Queue, processor: string, contracts: map<string, Contract>, o: Options, now: int, done: set<int>, j: int)
    requires var s := Sweep(q, processor);
             var rows := Candidates(s, processor, o, now);
             && Passed(s, contracts, o, rows, done) && IsFirst(rows - done, Order(Settle(s, contracts, done).jobs, o), j)
             && j in s.jobs && Judge(s.world, contracts, s.jobs[j]).Malformed?
    ensures IsClaim(q, processor, contracts, o, now, q, MalformedContract)
  {
    var s := Sweep(q, processor);
    FirstLeft(s, contracts, o, Candidates(s, processor, o, now), done, j);
  }

  lemma EndsClaimed(q: Queue, processor: string, contracts: map<string, Contract>, o: Options, now: int, done: set<int>, j: int)
    requires var s := Sweep(q, processor);
             var rows := Candidates(s, processor, o, now);
             && Passed(s, contracts, o, rows, done) && IsFirst(rows - done, Order(Settle(s, contracts, done).jobs, o), j)
             && j in s.jobs && Judge(s.world, contracts, s.jobs[j]).Ready?
    ensures IsClaim(q, processor, contracts, o, now, Start(Settle(Sweep(q, processor), contracts, done), contracts, j), Claimed(j))
  {
    var s := Sweep(q, processor);
    FirstLeft(s, contracts, o, Candidates(s, processor, o, now), done, j);
  }
}
