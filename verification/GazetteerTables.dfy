/** Generations of the gazetteer and the history of its refreshes. */
module GazetteerTables {
  import opened Rows

  datatype GenerationStatus = Candidate | Active | Superseded
  datatype Generation = Generation(status: GenerationStatus, hash: nat)

  datatype RunStatus = Running | RunSucceeded | RunFailed | RunInterrupted
  datatype SourceStatus = Pending | Fetching | Fetched | NotModified | SourceFailed | Interrupted | NotRun
  datatype Run = Run(status: RunStatus, sources: map<string, SourceStatus>)

  datatype Tables = Tables(generations: map<int, Generation>, nextGeneration: int, active: Option<int>, runs: map<int, Run>, nextRun: int)

  const HISTORY_LIMIT := 500

  // ----- pruning -----

  function Descending(): (int, int) -> bool { (a: int, b: int) => a > b }

  /** The n greatest IDs. */
  function Newest(ids: set<int>, n: nat): (kept: set<int>)
    ensures kept <= ids
  {
    var ordered := Sorted(ids, Descending());
    Members(ordered[..if n < |ordered| then n else |ordered|])
  }

  function Members(s: seq<int>): set<int> { set i | i in s }

  lemma {:induction false} FewMembers(s: seq<int>)
    ensures |Members(s)| <= |s|
  {
    if s != [] {
      FewMembers(s[1..]);
      assert Members(s) == {s[0]} + Members(s[1..]);
    } else {
      assert Members(s) == {};
    }
  }

  lemma NewestAreFew(ids: set<int>, n: nat)
    ensures |Newest(ids, n)| <= n
  {
    var ordered := Sorted(ids, Descending());
    FewMembers(ordered[..if n < |ordered| then n else |ordered|]);
  }

  lemma GreatestIsKept(ids: set<int>, n: nat, id: int)
    requires n > 0 && id in ids && forall other | other in ids :: other <= id
    ensures id in Newest(ids, n)
  {
    var ordered := Sorted(ids, Descending());
    var k :| 0 <= k < |ordered| && ordered[k] == id;
    assert ordered[0] in ordered;
    assert k == 0;
    assert id in ordered[..if n < |ordered| then n else |ordered|];
  }

  function Finished(runs: map<int, Run>): set<int> { set r | r in runs && runs[r].status != Running }

  /** pruneRefreshHistoryTx */
  function PruneHistory(runs: map<int, Run>): map<int, Run> {
    map r | r in runs && (runs[r].status == Running || r in Newest(Finished(runs), HISTORY_LIMIT)) :: runs[r]
  }

  function Settled(generations: map<int, Generation>): set<int> {
    set g | g in generations && generations[g].status in {Active, Superseded}
  }

  function PruneGenerations(generations: map<int, Generation>): map<int, Generation> {
    map g | g in generations && g in Newest(Settled(generations), 2) :: generations[g]
  }

  // ----- the transactions -----

  function BeginRefresh(t: Tables, sources: set<string>): (Tables, int) {
    (t.(runs := t.runs[t.nextRun := Run(Running, map key | key in sources :: Pending)], nextRun := t.nextRun + 1), t.nextRun)
  }

  predicate SourceIs(t: Tables, run: int, key: string, status: SourceStatus) {
    run in t.runs && key in t.runs[run].sources && t.runs[run].sources[key] == status
  }

  function SetSource(t: Tables, run: int, key: string, status: SourceStatus): Tables
    requires run in t.runs
  {
    t.(runs := t.runs[run := t.runs[run].(sources := t.runs[run].sources[key := status])])
  }

  function StartRefreshSource(t: Tables, run: int, key: string): (Tables, bool) {
    if SourceIs(t, run, key, Pending) then (SetSource(t, run, key, Fetching), true) else (t, false)
  }

  function CompleteRefreshSource(t: Tables, run: int, key: string, notModified: bool): (Tables, bool) {
    if SourceIs(t, run, key, Fetching) then (SetSource(t, run, key, if notModified then NotModified else Fetched), true) else (t, false)
  }

  /** What a failure makes of one source of the run: the named one fails, the others do not run any more. */
  function FailedSource(key: string, failed: Option<string>, status: SourceStatus): SourceStatus {
    if Some(key) == failed && status in {Pending, Fetching} then SourceFailed else if status == Pending then NotRun else status
  }

  function FailedRun(run: Run, failed: Option<string>): Run {
    Run(RunFailed, map key | key in run.sources :: FailedSource(key, failed, run.sources[key]))
  }

  predicate IsRunning(t: Tables, run: int) { run in t.runs && t.runs[run].status == Running }

  function FailRefresh(t: Tables, run: int, failed: Option<string>): (Tables, bool) {
    if !IsRunning(t, run) then (t, false)
    else (t.(runs := PruneHistory(t.runs[run := FailedRun(t.runs[run], failed)])), true)
  }

  function RecoveredSource(status: SourceStatus): SourceStatus {
    if status == Fetching then Interrupted else if status == Pending then NotRun else status
  }

  function RecoveredRun(run: Run): Run {
    if run.status != Running then run else Run(RunInterrupted, map key | key in run.sources :: RecoveredSource(run.sources[key]))
  }

  function RecoverInterruptedRefreshes(t: Tables): Tables {
    t.(runs := PruneHistory(map r | r in t.runs :: RecoveredRun(t.runs[r])))
  }

  function Superseding(generations: map<int, Generation>): map<int, Generation> {
    map g | g in generations :: if generations[g].status == Active then generations[g].(status := Superseded) else generations[g]
  }

  function SucceedRun(runs: map<int, Run>, run: int): map<int, Run>
    requires run in runs
  {
    PruneHistory(runs[run := runs[run].(status := RunSucceeded)])
  }

  /** The active generation already has this content. */
  predicate Unchanged(t: Tables, hash: nat) { t.active.Some? && t.active.value in t.generations && t.generations[t.active.value].hash == hash }

  /** Inserts a candidate, supersedes the active generation, activates the candidate and keeps two. */
  function NewGeneration(t: Tables, hash: nat): Tables {
    var id := t.nextGeneration;
    var superseded := Superseding(t.generations[id := Generation(Candidate, hash)]);
    t.(generations := PruneGenerations(superseded[id := Generation(Active, hash)]), nextGeneration := id + 1, active := Some(id))
  }

  function Activated(t: Tables, hash: nat): Tables { if Unchanged(t, hash) then t else NewGeneration(t, hash) }

  function ActivateRefresh(t: Tables, run: int, hash: nat): (Tables, bool) {
    if !IsRunning(t, run) then (t, false)
    else (Activated(t, hash).(runs := SucceedRun(t.runs, run)), true)
  }
}
