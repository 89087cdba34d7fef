/** What the gazetteer transactions do, said of single runs, sources and generations. */
module GazetteerEffects {
  import opened Rows
  import opened GazetteerTables

  // ----- pruning -----

  /** How many of the IDs are greater. */
  ghost function Newer(ids: set<int>, id: int): set<int> { set other | other in ids && other > id }

  lemma {:induction false} PrefixIsNewer(ordered: seq<int>, ids: set<int>, i: nat)
    requires i < |ordered| && (forall id :: id in ordered <==> id in ids) && forall a, b | 0 <= a < b < |ordered| :: ordered[a] > ordered[b]
    ensures |Newer(ids, ordered[i])| == i
  {
    var newer := Newer(ids, ordered[i]);
    if i == 0 {
      forall other ensures other !in newer {
        if other in ids { var k :| 0 <= k < |ordered| && ordered[k] == other; }
      }
      assert newer == {};
    } else {
      PrefixIsNewer(ordered, ids, i - 1);
      forall other ensures other in newer <==> other in Newer(ids, ordered[i - 1]) + {ordered[i - 1]} {
        if other in ids { var k :| 0 <= k < |ordered| && ordered[k] == other; }
        assert ordered[i - 1] in ordered;
      }
      assert newer == Newer(ids, ordered[i - 1]) + {ordered[i - 1]};
    }
  }

  /** The n greatest are those with fewer than n greater ones. */
  lemma NewestIsExact(ids: set<int>, n: nat, id: int)
    ensures id in Newest(ids, n) <==> id in ids && |Newer(ids, id)| < n
  {
    var ordered := Sorted(ids, Descending());
    var front := ordered[..if n < |ordered| then n else |ordered|];
    if id in ids {
      var i :| 0 <= i < |ordered| && ordered[i] == id;
      PrefixIsNewer(ordered, ids, i);
      if i < n { assert front[i] == id; }
      if id in front { var k :| 0 <= k < |front| && front[k] == id; assert ordered[k] == ordered[i]; }
    }
  }

  /** Of the runs that are over the last five hundred are kept, as they are, and the running ones all. */
  ghost predicate IsPruned(runs: map<int, Run>, after: map<int, Run>) {
    && (forall r | r in after :: r in runs && after[r] == runs[r])
    && (forall r | r in runs :: r in after <==>
          runs[r].status == Running || |Newer((set other | other in runs && runs[other].status != Running), r)| < 500)
  }

  lemma PrunedIs(runs: map<int, Run>)
    ensures IsPruned(runs, PruneHistory(runs))
  {
    assert Finished(runs) == set other | other in runs && runs[other].status != Running;
    forall r | r in runs ensures r in PruneHistory(runs) <==> runs[r].status == Running || |Newer(Finished(runs), r)| < 500 {
      NewestIsExact(Finished(runs), 500, r);
    }
  }

  // ----- refreshes -----

  /** A new running run; none of its sources has started. */
  ghost predicate IsBegun(t: Tables, sources: set<string>, after: Tables, run: int) {
    && run == t.nextRun && after == t.(runs := after.runs, nextRun := t.nextRun + 1) && after.runs.Keys == t.runs.Keys + {run}
    && (forall r | r in t.runs && r != run :: after.runs[r] == t.runs[r])
    && after.runs[run].status == Running && after.runs[run].sources.Keys == sources
    && forall key | key in sources :: after.runs[run].sources[key] == Pending
  }

  /** A source goes from one state to another, and nothing else changes; it is refused in every other state. */
  ghost predicate IsMoved(t: Tables, run: int, key: string, from: SourceStatus, to: SourceStatus, after: Tables, moved: bool) {
    && (moved <==> run in t.runs && key in t.runs[run].sources && t.runs[run].sources[key] == from)
    && after == if moved then t.(runs := t.runs[run := t.runs[run].(sources := t.runs[run].sources[key := to])]) else t
  }

  /** A failure: the named source fails, those not started do not run any more, and old history is pruned. */
  ghost predicate IsFailure(t: Tables, run: int, failed: Option<string>, after: Tables, recorded: bool) {
    && (recorded <==> run in t.runs && t.runs[run].status == Running)
    && (!recorded ==> after == t)
    && (recorded ==> exists ended :: IsFailedRun(t.runs[run], failed, ended) && IsPruned(t.runs[run := ended], after.runs) && after == t.(runs := after.runs))
  }

  ghost predicate IsFailedRun(run: Run, failed: Option<string>, ended: Run) {
    && ended.status == RunFailed && ended.sources.Keys == run.sources.Keys
    && forall key | key in run.sources :: ended.sources[key] ==
         if failed == Some(key) && run.sources[key] in {Pending, Fetching} then SourceFailed
         else if run.sources[key] == Pending then NotRun else run.sources[key]
  }

  /** After a crash: what was running is interrupted, what was fetched then is interrupted, what had not started does not run. */
  ghost predicate IsRecovery(t: Tables, after: Tables) {
    && after == t.(runs := after.runs)
    && exists runs: map<int, Run> :: runs.Keys == t.runs.Keys && (forall r | r in t.runs :: IsRecoveredRun(t.runs[r], runs[r])) && IsPruned(runs, after.runs)
  }

  ghost predicate IsRecoveredRun(run: Run, ended: Run) {
    if run.status != Running then ended == run
    else
      && ended.status == RunInterrupted && ended.sources.Keys == run.sources.Keys
      && forall key | key in run.sources :: ended.sources[key] ==
           if run.sources[key] == Fetching then Interrupted else if run.sources[key] == Pending then NotRun else run.sources[key]
  }

  lemma BegunIs(t: Tables, sources: set<string>)
    ensures var (after, run) := BeginRefresh(t, sources); IsBegun(t, sources, after, run)
  {
  }

  lemma StartIs(t: Tables, run: int, key: string)
    ensures var (after, started) := StartRefreshSource(t, run, key); IsMoved(t, run, key, Pending, Fetching, after, started)
  {
  }

  lemma CompletionIs(t: Tables, run: int, key: string, notModified: bool)
    ensures var (after, completed) := CompleteRefreshSource(t, run, key, notModified);
            IsMoved(t, run, key, Fetching, if notModified then NotModified else Fetched, after, completed)
  {
  }

  lemma FailureIs(t: Tables, run: int, failed: Option<string>)
    ensures var (after, recorded) := FailRefresh(t, run, failed); IsFailure(t, run, failed, after, recorded)
  {
    if run in t.runs {
      assert IsFailedRun(t.runs[run], failed, FailedRun(t.runs[run], failed));
      PrunedIs(t.runs[run := FailedRun(t.runs[run], failed)]);
    }
  }

  lemma RecoveryIs(t: Tables)
    ensures IsRecovery(t, RecoverInterruptedRefreshes(t))
  {
    var runs := map r | r in t.runs :: RecoveredRun(t.runs[r]);
    forall r | r in t.runs ensures IsRecoveredRun(t.runs[r], runs[r]) {}
    PrunedIs(runs);
  }

  // ----- activation -----

  /** The new content becomes the only active generation, unless the active one has it already; of the generations that are or
  were active the two newest stay. The run has succeeded. */
  ghost predicate IsActivation(t: Tables, run: int, hash: nat, after: Tables, activated: bool) {
    && (activated <==> run in t.runs && t.runs[run].status == Running)
    && (!activated ==> after == t)
    && (activated ==>
          && IsPruned(t.runs[run := t.runs[run].(status := RunSucceeded)], after.runs)
          && (if HasContent(t, hash) then after == t.(runs := after.runs) else IsNewlyActive(t, hash, after)))
  }

  ghost predicate IsNewlyActive(t: Tables, hash: nat, after: Tables) {
    && after == t.(runs := after.runs, generations := after.generations, nextGeneration := t.nextGeneration + 1, active := Some(t.nextGeneration))
    && IsReplaced(t.generations, t.nextGeneration, hash, after.generations)
  }

  ghost predicate HasContent(t: Tables, hash: nat) {
    exists g :: t.active == Some(g) && g in t.generations && t.generations[g].hash == hash
  }

  ghost predicate IsReplaced(before: map<int, Generation>, added: int, hash: nat, after: map<int, Generation>) {
    && (forall g | g in after :: g == added || g in before)
    && (added in after ==> after[added] == Generation(Active, hash))
    && (forall g | g in after && g != added :: after[g].hash == before[g].hash && before[g].status != Candidate && after[g].status == Superseded)
    && (forall g | g == added || g in before :: g in after <==>
          (g == added || before[g].status != Candidate) && |Newer({added} + (set other | other in before && before[other].status != Candidate), g)| < 2)
  }

  lemma ReplacedIs(t: Tables, hash: nat)
    ensures IsReplaced(t.generations, t.nextGeneration, hash, NewGeneration(t, hash).generations)
  {
    var added := t.nextGeneration;
    var all := Superseding(t.generations[added := Generation(Candidate, hash)])[added := Generation(Active, hash)];
    var ids := {added} + set other | other in t.generations && t.generations[other].status != Candidate;
    forall g ensures g in Settled(all) <==> g in ids {}
    assert Settled(all) == ids;
    forall g ensures g in PruneGenerations(all) <==> g in ids && |Newer(ids, g)| < 2 { NewestIsExact(ids, 2, g); }
  }

  lemma ContentIs(t: Tables, hash: nat)
    ensures HasContent(t, hash) <==> Unchanged(t, hash)
  {
    if Unchanged(t, hash) {
      var g := t.active.value;
      assert t.active == Some(g) && g in t.generations && t.generations[g].hash == hash;
    }
  }

  lemma ActivatedIs(t: Tables, hash: nat, runs: map<int, Run>)
    ensures if HasContent(t, hash) then Activated(t, hash).(runs := runs) == t.(runs := runs) else IsNewlyActive(t, hash, Activated(t, hash).(runs := runs))
  {
    ContentIs(t, hash);
    ReplacedIs(t, hash);
  }

  lemma ActivationIs(t: Tables, run: int, hash: nat)
    ensures var (after, activated) := ActivateRefresh(t, run, hash); IsActivation(t, run, hash, after, activated)
  {
    if run in t.runs {
      PrunedIs(t.runs[run := t.runs[run].(status := RunSucceeded)]);
      ActivatedIs(t, hash, SucceedRun(t.runs, run));
    }
  }
}
