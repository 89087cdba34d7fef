/** One manager refreshing the gazetteer, failing and being interrupted anywhere. */
module GazetteerSystem {
  import opened Rows
  import opened GazetteerTables

  /** A refresh works through its sources one after another; `fetching` is the one in progress. */
  datatype Manager = Down | Idle | Refreshing(run: int, todo: set<string>, fetching: Option<string>)

  datatype System = System(t: Tables, manager: Manager)

  datatype Op =
    | Begin(sources: set<string>)
    | Start(key: string)
    | Complete(notModified: bool)
    | Fail
    | Activate(hash: nat)
    | Crash
    | Restart

  function Apply(s: System, op: Op): System {
    match s.manager
    case Down =>
      if op.Restart? then System(RecoverInterruptedRefreshes(s.t), Idle) else s
    case Idle =>
      if op.Begin? then var (t, run) := BeginRefresh(s.t, op.sources); System(t, Refreshing(run, op.sources, None))
      else if op.Crash? then System(s.t, Down) else s
    case Refreshing(run, todo, fetching) =>
      if op.Crash? then System(s.t, Down)
      else if op.Fail? then System(FailRefresh(s.t, run, fetching).0, Idle)
      else if op.Start? && fetching.None? && op.key in todo then
        var (t, started) := StartRefreshSource(s.t, run, op.key);
        System(t, if started then Refreshing(run, todo - {op.key}, Some(op.key)) else s.manager)
      else if op.Complete? && fetching.Some? then
        var (t, completed) := CompleteRefreshSource(s.t, run, fetching.value, op.notModified);
        System(t, if completed then Refreshing(run, todo, None) else s.manager)
      else if op.Activate? && fetching.None? && todo == {} then
        System(ActivateRefresh(s.t, run, op.hash).0, Idle)
      else s
  }

  function RunOps(s: System, ops: seq<Op>): System
    decreases |ops|
  {
    if ops == [] then s else RunOps(Apply(s, ops[0]), ops[1..])
  }

  const EMPTY := System(Tables(map[], 1, None, map[], 1), Down)

  // ----- the invariant -----

  /** The state row names the newest generation, which is the only active one; at most one more is kept. */
  ghost predicate GenerationsOk(t: Tables) {
    && (forall g | g in t.generations :: g < t.nextGeneration && t.generations[g].status != Candidate)
    && |t.generations| <= 2
    && (t.active.Some? ==> t.active.value in t.generations && forall g | g in t.generations :: g <= t.active.value)
    && (forall g | g in t.generations :: t.generations[g].status == Active <==> t.active == Some(g))
    && (t.active.None? ==> t.generations == map[])
  }

  predicate Open(status: SourceStatus) { status == Pending || status == Fetching }

  /** Only the latest run may be running; finished ones have no open source, and not too many of them are kept. */
  ghost predicate HistoryOk(t: Tables) {
    && (forall r | r in t.runs :: r < t.nextRun && (t.runs[r].status == Running ==> r == t.nextRun - 1))
    && (forall r, key | r in t.runs && t.runs[r].status != Running && key in t.runs[r].sources :: !Open(t.runs[r].sources[key]))
    && |Finished(t.runs)| <= HISTORY_LIMIT
  }

  /** The run of the manager is the only one running, and its open sources are those it still works on. */
  ghost predicate ManagerOk(s: System) {
    match s.manager
    case Down => true
    case Idle => forall r | r in s.t.runs :: s.t.runs[r].status != Running
    case Refreshing(run, todo, fetching) =>
      && run in s.t.runs && (forall r | r in s.t.runs :: s.t.runs[r].status == Running <==> r == run)
      && (forall key | key in todo :: key in s.t.runs[run].sources && s.t.runs[run].sources[key] == Pending)
      && (fetching.Some? ==> fetching.value !in todo && SourceIs(s.t, run, fetching.value, Fetching))
      && (forall key | key in s.t.runs[run].sources && Open(s.t.runs[run].sources[key]) :: key in todo || fetching == Some(key))
  }

  ghost predicate Inv(s: System) { GenerationsOk(s.t) && HistoryOk(s.t) && ManagerOk(s) }

  lemma PrunedHistory(t: Tables, runs: map<int, Run>)
    requires forall r | r in runs :: r < t.nextRun && (runs[r].status == Running ==> r == t.nextRun - 1)
    requires forall r, key | r in runs && runs[r].status != Running && key in runs[r].sources :: !Open(runs[r].sources[key])
    ensures HistoryOk(t.(runs := PruneHistory(runs)))
    ensures forall r | r in PruneHistory(runs) :: r in runs && PruneHistory(runs)[r] == runs[r]
  {
    var pruned := PruneHistory(runs);
    NewestAreFew(Finished(runs), HISTORY_LIMIT);
    assert Finished(pruned) == Newest(Finished(runs), HISTORY_LIMIT);
  }

  lemma FailOk(s: System)
    requires Inv(s) && s.manager.Refreshing?
    ensures Inv(Apply(s, Fail)) && Apply(s, Fail).t.generations == s.t.generations && Apply(s, Fail).t.active == s.t.active
  {
    var run := s.manager.run;
    PrunedHistory(s.t, s.t.runs[run := FailedRun(s.t.runs[run], s.manager.fetching)]);
  }

  lemma RestartOk(s: System)
    requires Inv(s) && s.manager.Down?
    ensures Inv(Apply(s, Restart)) && Apply(s, Restart).t.generations == s.t.generations && Apply(s, Restart).t.active == s.t.active
  {
    PrunedHistory(s.t, map r | r in s.t.runs :: RecoveredRun(s.t.runs[r]));
  }

  lemma BeginOk(s: System, sources: set<string>)
    requires Inv(s) && s.manager.Idle?
    ensures Inv(Apply(s, Begin(sources)))
  {
    assert Finished(Apply(s, Begin(sources)).t.runs) == Finished(s.t.runs);
  }

  lemma SetSourceOk(s: System, key: string, status: SourceStatus, manager: Manager)
    requires Inv(s) && s.manager.Refreshing? && key in s.t.runs[s.manager.run].sources && manager.Refreshing? && manager.run == s.manager.run
    requires ManagerOk(System(SetSource(s.t, s.manager.run, key, status), manager))
    ensures Inv(System(SetSource(s.t, s.manager.run, key, status), manager))
  {
    assert Finished(SetSource(s.t, s.manager.run, key, status).runs) == Finished(s.t.runs);
  }

  /** The new active generation and the superseded one before it. */
  function WithPrevious(t: Tables, hash: nat): map<int, Generation> {
    if t.active.Some? && t.active.value in t.generations
    then map[t.active.value := Generation(Superseded, t.generations[t.active.value].hash), t.nextGeneration := Generation(Active, hash)]
    else map[t.nextGeneration := Generation(Active, hash)]
  }

  lemma KeepsPrevious(t: Tables, hash: nat)
    requires GenerationsOk(t)
    ensures NewGeneration(t, hash).generations == WithPrevious(t, hash)
  {
    var all := AllGenerations(t, hash);
    NewestOfAll(t);
    PrunedRows(all, if t.active.Some? then {t.active.value, t.nextGeneration} else {t.nextGeneration});
    SameRows(t, hash, PruneGenerations(all), all);
  }

  lemma SameRows(t: Tables, hash: nat, pruned: map<int, Generation>, all: map<int, Generation>)
    requires t.active.Some? ==> t.active.value in t.generations && t.active.value < t.nextGeneration
    requires t.nextGeneration in all && all[t.nextGeneration] == Generation(Active, hash)
    requires forall g | g in t.generations :: g in all && all[g] == Generation(Superseded, t.generations[g].hash)
    requires pruned.Keys == if t.active.Some? then {t.active.value, t.nextGeneration} else {t.nextGeneration}
    requires forall g | g in pruned :: g in all && pruned[g] == all[g]
    ensures pruned == WithPrevious(t, hash)
  {
    var kept := WithPrevious(t, hash);
    forall g ensures g in pruned <==> g in kept { assert g in pruned <==> g in pruned.Keys; }
    assert t.active.Some? ==> kept[t.active.value] == Generation(Superseded, t.generations[t.active.value].hash);
  }

  lemma PrunedRows(all: map<int, Generation>, kept: set<int>)
    requires Settled(all) == all.Keys && Newest(all.Keys, 2) == kept
    ensures PruneGenerations(all).Keys == kept && forall g | g in kept :: g in all && PruneGenerations(all)[g] == all[g]
  {
  }

  lemma NewestOfAll(t: Tables)
    requires GenerationsOk(t)
    ensures Newest(t.generations.Keys + {t.nextGeneration}, 2) == if t.active.Some? then {t.active.value, t.nextGeneration} else {t.nextGeneration}
  {
    var ids := t.generations.Keys + {t.nextGeneration};
    if t.active.Some? {
      TwoNewest(ids, t.nextGeneration, t.active.value);
    } else {
      assert ids == {t.nextGeneration};
      GreatestIsKept(ids, 2, t.nextGeneration);
    }
  }

  /** Before the pruning no generation is a candidate any more. */
  lemma AllGenerations(t: Tables, hash: nat) returns (all: map<int, Generation>)
    requires GenerationsOk(t)
    ensures all == Superseding(t.generations[t.nextGeneration := Generation(Candidate, hash)])[t.nextGeneration := Generation(Active, hash)]
    ensures all.Keys == t.generations.Keys + {t.nextGeneration} && all[t.nextGeneration] == Generation(Active, hash)
    ensures forall g | g in t.generations :: all[g] == Generation(Superseded, t.generations[g].hash)
    ensures Settled(all) == all.Keys
  {
    all := Superseding(t.generations[t.nextGeneration := Generation(Candidate, hash)])[t.nextGeneration := Generation(Active, hash)];
    forall g | g in t.generations ensures all[g] == Generation(Superseded, t.generations[g].hash) {}
  }

  lemma TwoNewest(ids: set<int>, first: int, second: int)
    requires first in ids && second in ids && second < first && forall g | g in ids && g != first :: g <= second
    ensures Newest(ids, 2) == {first, second}
  {
    var ordered := Sorted(ids, Descending());
    var k :| 0 <= k < |ordered| && ordered[k] == first;
    var l :| 0 <= l < |ordered| && ordered[l] == second;
    assert ordered[0] in ordered && ordered[1] in ordered;
    assert k == 0 && l == 1;
    assert ordered[..2] == [first, second];
  }

  lemma NewGenerationOk(t: Tables, hash: nat)
    requires GenerationsOk(t)
    ensures GenerationsOk(NewGeneration(t, hash)) && NewGeneration(t, hash).active == Some(t.nextGeneration)
  {
    KeepsPrevious(t, hash);
    TwoAreOk(t, hash, NewGeneration(t, hash));
  }

  lemma TwoAreOk(t: Tables, hash: nat, after: Tables)
    requires GenerationsOk(t) && after.generations == WithPrevious(t, hash)
    requires after.active == Some(t.nextGeneration) && after.nextGeneration == t.nextGeneration + 1
    ensures GenerationsOk(after)
  {
    if t.active.Some? {
      assert after.generations.Keys == {t.active.value, t.nextGeneration};
      assert |after.generations| == |after.generations.Keys|;
    } else {
      assert after.generations.Keys == {t.nextGeneration};
      assert |after.generations| == |after.generations.Keys|;
    }
  }

  lemma ActivateOk(s: System, hash: nat)
    requires Inv(s) && s.manager.Refreshing? && s.manager.fetching.None? && s.manager.todo == {}
    ensures Inv(Apply(s, Activate(hash))) && Apply(s, Activate(hash)).t.active.Some?
    ensures var t := Apply(s, Activate(hash)).t; t.active.value in t.generations && t.generations[t.active.value] == Generation(Active, hash)
  {
    ActivatedOk(s.t, hash);
    SucceedOk(s, Activated(s.t, hash));
  }

  lemma ActivatedOk(t: Tables, hash: nat)
    requires GenerationsOk(t)
    ensures var a := Activated(t, hash);
            && GenerationsOk(a) && a.runs == t.runs && a.nextRun == t.nextRun && a.active.Some? && a.active.value in a.generations
            && a.generations[a.active.value] == Generation(Active, hash)
  {
    if !Unchanged(t, hash) { NewGenerationOk(t, hash); }
  }

  lemma SucceedOk(s: System, after: Tables)
    requires Inv(s) && s.manager.Refreshing? && s.manager.fetching.None? && s.manager.todo == {} && GenerationsOk(after)
    requires after.runs == s.t.runs && after.nextRun == s.t.nextRun
    ensures Inv(System(after.(runs := SucceedRun(s.t.runs, s.manager.run)), Idle))
  {
    PrunedHistory(s.t, s.t.runs[s.manager.run := s.t.runs[s.manager.run].(status := RunSucceeded)]);
  }

  lemma StepOk(s: System, op: Op)
    requires Inv(s)
    ensures Inv(Apply(s, op)) && (s.t.active.Some? ==> Apply(s, op).t.active.Some?)
    ensures !op.Activate? ==> Apply(s, op).t.generations == s.t.generations && Apply(s, op).t.active == s.t.active
  {
    match s.manager
    case Down => if op.Restart? { RestartOk(s); }
    case Idle => if op.Begin? { BeginOk(s, op.sources); }
    case Refreshing(run, todo, fetching) =>
      if op.Fail? {
        FailOk(s);
      } else if op.Start? && fetching.None? && op.key in todo {
        SetSourceOk(s, op.key, Fetching, Refreshing(run, todo - {op.key}, Some(op.key)));
      } else if op.Complete? && fetching.Some? {
        SetSourceOk(s, fetching.value, if op.notModified then NotModified else Fetched, Refreshing(run, todo, None));
      } else if op.Activate? && fetching.None? && todo == {} {
        ActivateOk(s, op.hash);
      }
  }

  lemma {:induction false} RunOk(s: System, ops: seq<Op>)
    requires Inv(s)
    ensures Inv(RunOps(s, ops)) && (s.t.active.Some? ==> RunOps(s, ops).t.active.Some?)
    decreases |ops|
  {
    if ops != [] {
      StepOk(s, ops[0]);
      RunOk(Apply(s, ops[0]), ops[1..]);
    }
  }

  lemma {:induction false} RunInParts(s: System, ops: seq<Op>, more: seq<Op>)
    ensures RunOps(s, ops + more) == RunOps(RunOps(s, ops), more)
    decreases |ops|
  {
    if ops == [] {
      assert ops + more == more;
    } else {
      assert (ops + more)[1..] == ops[1..] + more;
      RunInParts(Apply(s, ops[0]), ops[1..], more);
    }
  }

  // ----- the promises -----

  /** The refresh that is in progress after these steps can be activated. */
  predicate ReadyToActivate(s: System) { s.manager.Refreshing? && s.manager.fetching.None? && s.manager.todo == {} }

  /** Once any refresh has succeeded, whatever happens later exactly one generation is active, the state row
  names it, and at most one other is kept. */
  lemma OneActiveForEver(ops: seq<Op>, hash: nat, later: seq<Op>)
    requires ReadyToActivate(RunOps(EMPTY, ops))
    ensures var t := RunOps(Apply(RunOps(EMPTY, ops), Activate(hash)), later).t;
            && t.active.Some? && t.active.value in t.generations && |t.generations| <= 2
            && forall g | g in t.generations :: t.generations[g].status == (if t.active == Some(g) then Active else Superseded)
  {
    var s := RunOps(EMPTY, ops);
    RunOk(EMPTY, ops);
    ActivateOk(s, hash);
    RunOk(Apply(s, Activate(hash)), later);
  }

  /** The content of the active generation. */
  function Content(t: Tables): Option<nat> {
    if t.active.Some? && t.active.value in t.generations then Some(t.generations[t.active.value].hash) else None
  }

  /** What the last refresh that succeeded in the course of these steps brought. */
  function LastActivated(s: System, ops: seq<Op>): Option<nat>
    decreases |ops|
  {
    if ops == [] then None else
      var later := LastActivated(Apply(s, ops[0]), ops[1..]);
      if later.Some? then later else if ops[0].Activate? && ReadyToActivate(s) then Some(ops[0].hash) else None
  }

  /** The active content is always what the last successful refresh brought, whatever failed, crashed or was interrupted
  since. */
  lemma ActiveContentIsTheLastSuccess(ops: seq<Op>)
    ensures Content(RunOps(EMPTY, ops).t) == LastActivated(EMPTY, ops)
  {
    ContentFrom(EMPTY, ops);
  }

  lemma {:induction false} ContentFrom(s: System, ops: seq<Op>)
    requires Inv(s)
    ensures Content(RunOps(s, ops).t) == if LastActivated(s, ops).Some? then LastActivated(s, ops) else Content(s.t)
    decreases |ops|
  {
    if ops != [] {
      StepOk(s, ops[0]);
      ContentFrom(Apply(s, ops[0]), ops[1..]);
      if ops[0].Activate? && ReadyToActivate(s) { ActivateOk(s, ops[0].hash); }
    }
  }

  lemma {:induction false} SourcesCanBeFinished(s: System) returns (more: seq<Op>)
    requires Inv(s) && s.manager.Refreshing? && s.manager.fetching.None?
    ensures Inv(RunOps(s, more)) && ReadyToActivate(RunOps(s, more)) && forall op | op in more :: op.Start? || op.Complete?
    decreases s.manager.todo
  {
    if s.manager.todo == {} {
      more := [];
    } else {
      var key :| key in s.manager.todo;
      var (started, done) := (Apply(s, Start(key)), Apply(Apply(s, Start(key)), Complete(false)));
      StepOk(s, Start(key));
      StepOk(started, Complete(false));
      var rest := SourcesCanBeFinished(done);
      more := [Start(key)] + ([Complete(false)] + rest);
      assert more[1..] == [Complete(false)] + rest && more[1..][1..] == rest;
    }
  }

  ghost predicate IsUndisturbed(ops: seq<Op>, down: bool) { forall op | op in ops :: !op.Crash? && (op.Restart? ==> down) }

  lemma IdleCanRefresh(s: System, sources: set<string>, hash: nat) returns (more: seq<Op>)
    requires Inv(s) && s.manager.Idle?
    ensures Content(RunOps(s, more).t) == Some(hash) && Begin(sources) in more && IsUndisturbed(more, false)
  {
    BeginOk(s, sources);
    var begun := Apply(s, Begin(sources));
    var work := SourcesCanBeFinished(begun);
    ActivateOk(RunOps(begun, work), hash);
    RunInParts(begun, work, [Activate(hash)]);
    more := [Begin(sources)] + (work + [Activate(hash)]);
    assert more[1..] == work + [Activate(hash)];
  }

  /** Whatever happened before, a refresh of any sources can succeed, with no restart unless the process is down. */
  lemma RefreshesCanAlwaysSucceed(ops: seq<Op>, sources: set<string>, hash: nat) returns (more: seq<Op>)
    ensures Content(RunOps(RunOps(EMPTY, ops), more).t) == Some(hash)
    ensures Begin(sources) in more && IsUndisturbed(more, RunOps(EMPTY, ops).manager.Down?)
  {
    var s := RunOps(EMPTY, ops);
    RunOk(EMPTY, ops);
    match s.manager
    case Idle => more := IdleCanRefresh(s, sources, hash);
    case Down =>
      RestartOk(s);
      var rest := IdleCanRefresh(Apply(s, Restart), sources, hash);
      more := [Restart] + rest;
      assert more[1..] == rest;
    case Refreshing(_, _, _) =>
      FailOk(s);
      var rest := IdleCanRefresh(Apply(s, Fail), sources, hash);
      more := [Fail] + rest;
      assert more[1..] == rest;
  }

  /** A success with new content makes exactly one new generation active and keeps of the old ones only the one that was
  active; with the old content it leaves the generations as they were. */
  lemma ActivationIsExact(ops: seq<Op>, hash: nat)
    requires ReadyToActivate(RunOps(EMPTY, ops))
    ensures var (t, after) := (RunOps(EMPTY, ops).t, Apply(RunOps(EMPTY, ops), Activate(hash)).t);
            && (Content(t) == Some(hash) ==> after.generations == t.generations && after.active == t.active)
            && (Content(t) != Some(hash) ==> after.active == Some(t.nextGeneration) && after.generations == WithPrevious(t, hash))
  {
    RunOk(EMPTY, ops);
    var t := RunOps(EMPTY, ops).t;
    if Content(t) != Some(hash) { KeepsPrevious(t, hash); }
  }

  // ----- the record of a refresh -----

  /** The record of a refresh that is over: the source in progress, those not reached, and those done before. */
  ghost predicate Recorded(s: System, t: Tables, status: RunStatus, inProgress: SourceStatus)
    requires s.manager.Refreshing? && s.manager.run in s.t.runs
  {
    var (run, before) := (s.manager.run, s.t.runs[s.manager.run].sources);
    && run in t.runs && t.runs[run].status == status && t.runs[run].sources.Keys == before.Keys
    && forall key | key in before :: t.runs[run].sources[key] ==
         if s.manager.fetching == Some(key) then inProgress else if key in s.manager.todo then NotRun else before[key]
  }

  /** However a refresh ends, its record is kept and says of every source what became of it. */
  lemma EndedRefreshIsRecorded(ops: seq<Op>, hash: nat)
    requires RunOps(EMPTY, ops).manager.Refreshing?
    ensures AlwaysRecorded(RunOps(EMPTY, ops), hash)
  {
    RunOk(EMPTY, ops);
    RecordedFrom(RunOps(EMPTY, ops), hash);
  }

  ghost predicate AlwaysRecorded(s: System, hash: nat)
    requires s.manager.Refreshing?
  {
    && s.manager.run in s.t.runs
    && Recorded(s, Apply(s, Fail).t, RunFailed, SourceFailed)
    && Recorded(s, Apply(Apply(s, Crash), Restart).t, RunInterrupted, Interrupted)
    && (ReadyToActivate(s) ==> Recorded(s, Apply(s, Activate(hash)).t, RunSucceeded, Fetched))
  }

  lemma RecordedFrom(s: System, hash: nat)
    requires Inv(s) && s.manager.Refreshing?
    ensures AlwaysRecorded(s, hash)
  {
    FailureIsRecorded(s);
    CrashIsRecorded(s);
    if ReadyToActivate(s) { SuccessIsRecorded(s, hash); }
  }

  lemma SuccessIsRecorded(s: System, hash: nat)
    requires Inv(s) && ReadyToActivate(s)
    ensures Recorded(s, Apply(s, Activate(hash)).t, RunSucceeded, Fetched)
  {
    LatestIsKept(s, s.t.runs[s.manager.run := s.t.runs[s.manager.run].(status := RunSucceeded)]);
  }

  lemma LatestIsKept(s: System, runs: map<int, Run>)
    requires s.manager.Refreshing? && s.manager.run in runs && forall r | r in runs :: r <= s.manager.run
    ensures s.manager.run in PruneHistory(runs) && PruneHistory(runs)[s.manager.run] == runs[s.manager.run]
  {
    if runs[s.manager.run].status != Running { GreatestIsKept(Finished(runs), HISTORY_LIMIT, s.manager.run); }
  }

  lemma FailureIsRecorded(s: System)
    requires Inv(s) && s.manager.Refreshing?
    ensures Recorded(s, Apply(s, Fail).t, RunFailed, SourceFailed)
  {
    LatestIsKept(s, s.t.runs[s.manager.run := FailedRun(s.t.runs[s.manager.run], s.manager.fetching)]);
  }

  lemma CrashIsRecorded(s: System)
    requires Inv(s) && s.manager.Refreshing?
    ensures Recorded(s, Apply(Apply(s, Crash), Restart).t, RunInterrupted, Interrupted)
  {
    LatestIsKept(s, map r | r in s.t.runs :: RecoveredRun(s.t.runs[r]));
  }

  /** A refresh that is over has no pending or fetching source, and at most five hundred are remembered. */
  lemma FinishedRefreshesAreComplete(ops: seq<Op>, r: int, key: string)
    ensures var t := RunOps(EMPTY, ops).t;
            && |Finished(t.runs)| <= 500
            && (r in t.runs && t.runs[r].status != Running && key in t.runs[r].sources ==> t.runs[r].sources[key] !in {Pending, Fetching})
  {
    RunOk(EMPTY, ops);
  }
}
