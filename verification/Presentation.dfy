/** Which presentation run of an incident, and which successful job of a run, readers see. */
module Presentation {
  import opened Rows

  type Hash = nat

  /** `current` stands for the current pipeline version and not a legacy import. */
  datatype Run = Run(incident: int, hash: Hash, complete: bool, current: bool, completedAt: Option<int>)

  /** The last completed first, then the newest row; a missing time sorts last. */
  predicate Later(x: Option<int>, i: int, y: Option<int>, j: int) {
    (x.Some? && (y.None? || x.value > y.value)) || (x == y && i > j)
  }

  /** It never ended or ended before; of rows that ended at the same time or never, the older one is the smaller. */
  ghost predicate EndedBefore(x: Option<int>, i: int, y: Option<int>, j: int) {
    match (x, y)
    case (None, None) => i < j
    case (None, Some(_)) => true
    case (Some(_), None) => false
    case (Some(a), Some(b)) => a < b || (a == b && i < j)
  }

  function LaterFirst(times: map<int, Option<int>>): (int, int) -> bool {
    (a: int, b: int) => a in times && b in times && Later(times[a], a, times[b], b)
  }

  lemma LaterFirstIsTotal(times: map<int, Option<int>>)
    ensures StrictOrder(times.Keys, LaterFirst(times))
  {
  }

  /** The row completed last. */
  function Latest(times: map<int, Option<int>>): (row: Option<int>)
    ensures row.None? <==> times == map[]
    ensures row.Some? ==> IsFirst(times.Keys, LaterFirst(times), row.value)
    ensures row.Some? ==> row.value in times && forall other | other in times && other != row.value ::
              EndedBefore(times[other], other, times[row.value], row.value)
  {
    if times == map[] then None else
      LaterFirstIsTotal(times);
      Some(First(times.Keys, LaterFirst(times)))
  }

  predicate CompleteRun(runs: map<int, Run>, r: int, incident: int, hash: Hash) {
    r in runs && runs[r].incident == incident && runs[r].hash == hash && runs[r].complete && runs[r].current
  }

  function RunTimes(runs: map<int, Run>, incident: int, hash: Hash): map<int, Option<int>> {
    map r | r in runs && CompleteRun(runs, r, incident, hash) :: runs[r].completedAt
  }

  /** latestCanonicalPresentationRun: of the complete current runs for this text the one completed last. */
  function LatestRun(runs: map<int, Run>, incident: int, hash: Hash): (latest: Option<int>)
    ensures latest.None? <==> !exists r :: r in runs && runs[r].complete && runs[r].current && runs[r].incident == incident && runs[r].hash == hash
    ensures latest.Some? ==>
              && latest.value in runs && runs[latest.value].incident == incident && runs[latest.value].hash == hash
              && runs[latest.value].complete && runs[latest.value].current
    ensures latest.Some? ==>
              forall r | r in runs && runs[r].complete && runs[r].current && runs[r].incident == incident && runs[r].hash == hash && r != latest.value ::
                EndedBefore(runs[r].completedAt, r, runs[latest.value].completedAt, latest.value)
  {
    var times := RunTimes(runs, incident, hash);
    assert forall r | r in runs && CompleteRun(runs, r, incident, hash) :: r in times && times[r] == runs[r].completedAt;
    Latest(times)
  }
}
