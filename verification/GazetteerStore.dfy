/** The gazetteer transactions on mutable tables; an error rolls everything back. */
module GazetteerStore {
  import opened Rows
  import opened GazetteerTables
  import GazetteerEffects

  class Store {
    var generations: map<int, Generation>
    var nextGeneration: int
    var active: Option<int>
    var runs: map<int, Run>
    var nextRun: int

    function State(): Tables
      reads this
    {
      Tables(generations, nextGeneration, active, runs, nextRun)
    }

    constructor ()
      ensures State() == Tables(map[], 1, None, map[], 1)
    {
      generations, nextGeneration, active, runs, nextRun := map[], 1, None, map[], 1;
    }

    method BeginRefresh(sources: set<string>) returns (run: int)
      modifies this`runs, this`nextRun
      ensures (State(), run) == GazetteerTables.BeginRefresh(old(State()), sources)
      ensures GazetteerEffects.IsBegun(old(State()), sources, State(), run)
    {
      GazetteerEffects.BegunIs(State(), sources);
      run := nextRun;
      var attempts: map<string, SourceStatus> := map key | key in sources :: Pending;
      runs, nextRun := runs[run := Run(Running, attempts)], nextRun + 1;
    }

    method StartRefreshSource(run: int, key: string) returns (started: bool)
      modifies this`runs
      ensures (State(), started) == GazetteerTables.StartRefreshSource(old(State()), run, key)
      ensures GazetteerEffects.IsMoved(old(State()), run, key, Pending, Fetching, State(), started)
    {
      GazetteerEffects.StartIs(State(), run, key);
      started := SourceIs(State(), run, key, Pending);
      if started {
        runs := runs[run := runs[run].(sources := runs[run].sources[key := Fetching])];
      }
    }

    method CompleteRefreshSource(run: int, key: string, notModified: bool) returns (completed: bool)
      modifies this`runs
      ensures (State(), completed) == GazetteerTables.CompleteRefreshSource(old(State()), run, key, notModified)
      ensures GazetteerEffects.IsMoved(old(State()), run, key, Fetching, if notModified then NotModified else Fetched, State(), completed)
    {
      GazetteerEffects.CompletionIs(State(), run, key, notModified);
      completed := SourceIs(State(), run, key, Fetching);
      if completed {
        runs := runs[run := runs[run].(sources := runs[run].sources[key := if notModified then NotModified else Fetched])];
      }
    }

    method FailRefresh(run: int, failed: Option<string>) returns (recorded: bool)
      modifies this`runs
      ensures (State(), recorded) == GazetteerTables.FailRefresh(old(State()), run, failed)
      ensures GazetteerEffects.IsFailure(old(State()), run, failed, State(), recorded)
    {
      GazetteerEffects.FailureIs(State(), run, failed);
      recorded := IsRunning(State(), run);
      if recorded {
        runs := runs[run := FailedRun(runs[run], failed)];
        runs := PruneHistory(runs);
      }
    }

    method RecoverInterruptedRefreshes()
      modifies this`runs
      ensures State() == GazetteerTables.RecoverInterruptedRefreshes(old(State()))
      ensures GazetteerEffects.IsRecovery(old(State()), State())
    {
      GazetteerEffects.RecoveryIs(State());
      runs := map r | r in runs :: RecoveredRun(runs[r]);
      runs := PruneHistory(runs);
    }

    method ActivateRefresh(run: int, hash: nat) returns (activated: bool)
      modifies this
      ensures (State(), activated) == GazetteerTables.ActivateRefresh(old(State()), run, hash)
      ensures GazetteerEffects.IsActivation(old(State()), run, hash, State(), activated)
    {
      activated := ReplaceGeneration(run, hash);
      GazetteerEffects.ActivationIs(old(State()), run, hash);
    }

    method ReplaceGeneration(run: int, hash: nat) returns (activated: bool)
      modifies this
      ensures (State(), activated) == GazetteerTables.ActivateRefresh(old(State()), run, hash)
    {
      if !IsRunning(State(), run) {
        return false;
      }
      if !Unchanged(State(), hash) {
        var id := nextGeneration;
        generations, nextGeneration := generations[id := Generation(Candidate, hash)], id + 1;
        generations := Superseding(generations);
        generations := generations[id := Generation(Active, hash)];
        active := Some(id);
        generations := PruneGenerations(generations);
      }
      runs := SucceedRun(runs, run);
      activated := true;
    }
  }
}
