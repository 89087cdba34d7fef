/** What the post-processing queue promises over every sequence of its transactions. */
module PostProcessingSystem {
  import opened Rows
  import opened PostProcessingTables

  // ----- peek and claim -----

  lemma SweepKeepsCandidates(q: Queue, processor: string, o: Options, now: int)
    ensures Candidates(Sweep(q, processor), processor, o, now) == Candidates(q, processor, o, now)
    ensures forall j | j in Candidates(q, processor, o, now) :: j in Sweep(q, processor).jobs && Sweep(q, processor).jobs[j] == q.jobs[j]
  {
    SweepRows(q, processor);
    var s := Sweep(q, processor);
    forall j | j in q.jobs
      ensures Selectable(q.world, s.jobs[j], processor, o, now) <==> Selectable(q.world, q.jobs[j], processor, o, now)
    {
      assert s.jobs[j] == SweptJob(q.world, processor, q.jobs[j]);
    }
  }

  predicate Named(q: Queue) { forall j | j in q.jobs :: q.jobs[j].prompt != "" }

  lemma RunnableIsReady(w: World, contracts: map<string, Contract>, job: Job)
    requires job.prompt != ""
    ensures Runnable(w, contracts, job) <==> Judge(w, contracts, job).Ready?
  {
  }

  predicate MalformedAt(q: Queue, contracts: map<string, Contract>, j: int) {
    j in q.jobs && Judge(q.world, contracts, q.jobs[j]).Malformed?
  }

  /** No row was found, or the row comes before it. */
  predicate Ahead(order: (int, int) -> bool, j: int, found: Option<int>) {
    found.None? || order(j, found.value)
  }

  /** The claim refuses exactly when a candidate with a malformed contract comes before the peeked job. */
  ghost predicate Refused(q: Queue, processor: string, contracts: map<string, Contract>, o: Options, now: int, peek: Option<int>) {
    exists j :: j in Candidates(q, processor, o, now) && MalformedAt(q, contracts, j) && Ahead(Order(q.jobs, o), j, peek)
  }

  /** The first of two kinds of rows taken together, against the first of one kind. */
  lemma FirstOfBoth(rows: set<int>, order: (int, int) -> bool, ready: set<int>, malformed: set<int>, first: Option<int>, firstReady: Option<int>)
    requires StrictOrder(rows, order) && ready <= rows && malformed <= rows && ready !! malformed
    requires if first.Some? then IsFirst(ready + malformed, order, first.value) else ready + malformed == {}
    requires if firstReady.Some? then IsFirst(ready, order, firstReady.value) else ready == {}
    ensures (first.Some? && first.value in malformed) <==> exists j :: j in malformed && Ahead(order, j, firstReady)
    ensures !(first.Some? && first.value in malformed) ==> first == firstReady
  {
    if first.None? {
      assert forall j | j in malformed :: j in ready + malformed;
      assert malformed == {} && ready == {};
    } else if first.value in ready {
      assert IsFirst(ready, order, first.value);
      FirstIsUnique(ready, order, first.value, firstReady.value);
      forall j | j in malformed ensures !order(j, first.value) { assert order(first.value, j); }
    } else {
      assert first.value in malformed;
      assert firstReady.Some? ==> firstReady.value in ready + malformed;
      assert Ahead(order, first.value, firstReady);
    }
  }

  function MalformedRows(q: Queue, contracts: map<string, Contract>, rows: set<int>): set<int> {
    set j | j in rows && MalformedAt(q, contracts, j)
  }

  lemma StopsAreBoth(q: Queue, processor: string, contracts: map<string, Contract>, o: Options, now: int)
    requires Named(q)
    ensures var (s, rows) := (Sweep(q, processor), Candidates(q, processor, o, now));
            && rows == Candidates(s, processor, o, now)
            && StopRows(s, contracts, rows) == RunnableRows(q, processor, contracts, o, now) + MalformedRows(q, contracts, rows)
            && (forall a, b | a in rows && b in rows :: Order(s.jobs, o)(a, b) == Order(q.jobs, o)(a, b))
            && (forall j | j in rows :: j in s.jobs && s.jobs[j] == q.jobs[j])
            && RunnableRows(q, processor, contracts, o, now) !! MalformedRows(q, contracts, rows)
  {
    var s, rows := Sweep(q, processor), Candidates(q, processor, o, now);
    SweepKeepsCandidates(q, processor, o, now);
    forall j | j in rows ensures Runnable(q.world, contracts, q.jobs[j]) <==> Judge(q.world, contracts, q.jobs[j]).Ready? {
      RunnableIsReady(q.world, contracts, q.jobs[j]);
    }
  }

  /** Peek returns exactly the job the mutating claim takes, or none for both, unless the claim refuses;
  and then the tables are unchanged. */
  lemma PeekAgreesWithClaim(q: Queue, processor: string, contracts: map<string, Contract>, o: Options, now: int,
                            peek: Option<int>, after: Queue, result: ClaimResult)
    requires Named(q)
    requires IsPeek(q, processor, contracts, o, now, peek) && IsClaim(q, processor, contracts, o, now, after, result)
    ensures result.MalformedContract? <==> Refused(q, processor, contracts, o, now, peek)
    ensures result.MalformedContract? ==> after == q
    ensures !result.MalformedContract? ==> peek == (if result.Claimed? then Some(result.id) else None)
  {
    var rows := Candidates(q, processor, o, now);
    var ready, malformed := RunnableRows(q, processor, contracts, o, now), MalformedRows(q, contracts, rows);
    OrderIsTotal(q.jobs, o, rows);
    var first := ClaimEndsAt(q, processor, contracts, o, now, after, result);
    FirstOfBoth(rows, Order(q.jobs, o), ready, malformed, first, peek);
    RefusedRows(q, processor, contracts, o, now, peek);
  }

  lemma RefusedRows(q: Queue, processor: string, contracts: map<string, Contract>, o: Options, now: int, peek: Option<int>)
    ensures var malformed := MalformedRows(q, contracts, Candidates(q, processor, o, now));
            Refused(q, processor, contracts, o, now, peek) <==> exists j :: j in malformed && Ahead(Order(q.jobs, o), j, peek)
  {
    var malformed := MalformedRows(q, contracts, Candidates(q, processor, o, now));
    if Refused(q, processor, contracts, o, now, peek) {
      var j :| j in Candidates(q, processor, o, now) && MalformedAt(q, contracts, j) && Ahead(Order(q.jobs, o), j, peek);
      assert j in malformed;
    }
  }

  lemma ClaimEndsAt(q: Queue, processor: string, contracts: map<string, Contract>, o: Options, now: int, after: Queue, result: ClaimResult)
    returns (first: Option<int>)
    requires Named(q) && IsClaim(q, processor, contracts, o, now, after, result)
    ensures var rows := Candidates(q, processor, o, now);
            var ready, malformed := RunnableRows(q, processor, contracts, o, now), MalformedRows(q, contracts, rows);
            && ready !! malformed
            && (if first.Some? then IsFirst(ready + malformed, Order(q.jobs, o), first.value) else ready + malformed == {})
            && (result.MalformedContract? <==> first.Some? && first.value in malformed)
            && (!result.MalformedContract? ==> first == if result.Claimed? then Some(result.id) else None)
  {
    var s, rows := Sweep(q, processor), Candidates(q, processor, o, now);
    StopsAreBoth(q, processor, contracts, o, now);
    match result
    case NothingEligible => first := None;
    case Claimed(j) => first := Some(j);
    case MalformedContract =>
      var j :| IsFirst(StopRows(s, contracts, rows), Order(s.jobs, o), j) && Judge(s.world, contracts, s.jobs[j]).Malformed?;
      first := Some(j);
  }

  /** With well-formed contracts the two always agree. */
  lemma ValidContractsAlwaysAgree(q: Queue, processor: string, contracts: map<string, Contract>, o: Options, now: int,
                                  peek: Option<int>, after: Queue, result: ClaimResult)
    requires Named(q) && forall k | k in contracts :: contracts[k].prompt != "" && |contracts[k].inputs| > 0 && |contracts[k].outputs| > 0
    requires IsPeek(q, processor, contracts, o, now, peek) && IsClaim(q, processor, contracts, o, now, after, result)
    ensures !result.MalformedContract? && peek == (if result.Claimed? then Some(result.id) else None)
  {
    PeekAgreesWithClaim(q, processor, contracts, o, now, peek, after, result);
  }

  /** What else a claim does: a job it takes was pending and due, is attempted once more, and every other
  job is either untouched, or was pending and is terminal now. */
  lemma ClaimTouchesPendingOnly(q: Queue, processor: string, contracts: map<string, Contract>, o: Options, now: int, after: Queue, result: ClaimResult)
    requires IsClaim(q, processor, contracts, o, now, after, result)
    ensures after.world == q.world && after.outputs == q.outputs && after.next == q.next && after.jobs.Keys == q.jobs.Keys
    ensures result.Claimed? ==> result.id in Candidates(q, processor, o, now) && Claims(q.jobs[result.id], after.jobs[result.id])
    ensures forall j | j in q.jobs && !(result.Claimed? && j == result.id) :: after.jobs[j] == q.jobs[j] || Dropped(q.jobs[j], after.jobs[j])
  {
    var s := Sweep(q, processor);
    var rows := Candidates(s, processor, o, now);
    SweepKeepsCandidates(q, processor, o, now);
    match result
    case NothingEligible => SettleRows(q, processor, contracts, o, now, rows);
    case Claimed(j) => ClaimedRows(q, processor, contracts, o, now, RowsBefore(rows, Order(s.jobs, o), j), j);
    case MalformedContract =>
  }

  lemma ClaimedRows(q: Queue, processor: string, contracts: map<string, Contract>, o: Options, now: int, rows: set<int>, j: int)
    requires rows <= Candidates(q, processor, o, now) && j in Candidates(q, processor, o, now) && j !in rows
    ensures var r := Settle(Sweep(q, processor), contracts, rows);
            && j in r.jobs && Start(r, contracts, j).jobs.Keys == q.jobs.Keys && Claims(q.jobs[j], Start(r, contracts, j).jobs[j])
            && forall k | k in q.jobs && k != j ::
                 Start(r, contracts, j).jobs[k] == q.jobs[k] || Dropped(q.jobs[k], Start(r, contracts, j).jobs[k])
  {
    SettleRows(q, processor, contracts, o, now, rows);
    StartRow(q, Settle(Sweep(q, processor), contracts, rows), contracts, j);
  }

  lemma StartRow(q: Queue, r: Queue, contracts: map<string, Contract>, j: int)
    requires j in r.jobs && r.jobs.Keys == q.jobs.Keys && r.jobs[j] == q.jobs[j] && q.jobs[j].status == Pending
    ensures Claims(q.jobs[j], Start(r, contracts, j).jobs[j])
    ensures forall k | k in q.jobs && k != j :: Start(r, contracts, j).jobs[k] == r.jobs[k]
  {
  }

  lemma SettleRows(q: Queue, processor: string, contracts: map<string, Contract>, o: Options, now: int, rows: set<int>)
    requires rows <= Candidates(q, processor, o, now)
    ensures var r := Settle(Sweep(q, processor), contracts, rows);
            && r.jobs.Keys == q.jobs.Keys
            && (forall j | j in q.jobs :: r.jobs[j] == q.jobs[j] || Dropped(q.jobs[j], r.jobs[j]))
            && (forall j | j in q.jobs && j in Candidates(q, processor, o, now) && j !in rows :: r.jobs[j] == q.jobs[j])
  {
    SweepRows(q, processor);
    SweepKeepsCandidates(q, processor, o, now);
    var s := Sweep(q, processor);
    var r := Settle(s, contracts, rows);
    forall j | j in q.jobs ensures r.jobs[j] == q.jobs[j] || Dropped(q.jobs[j], r.jobs[j]) {
      if j in rows { SettledRow(q.world, contracts, q.jobs[j]); } else { SweptRow(q.world, processor, q.jobs[j]); }
    }
  }

  lemma SettledRow(w: World, contracts: map<string, Contract>, job: Job)
    requires job.status == Pending
    ensures SettledJob(w, contracts, job) == job || Dropped(job, SettledJob(w, contracts, job))
  {
  }

  lemma SweptRow(w: World, processor: string, job: Job)
    ensures SweptJob(w, processor, job) == job || Dropped(job, SweptJob(w, processor, job))
  {
  }

  /** A pending job became terminal with its attempts unchanged. */
  predicate Dropped(before: Job, after: Job) {
    before.status == Pending && after.status in {Superseded, Skipped, Failed} && after.attempts == before.attempts && SameWork(before, after)
  }

  /** A pending job is attempted once more. */
  predicate Claims(before: Job, after: Job) {
    before.status == Pending && after.status == Running && after.attempts == before.attempts + 1 && SameWork(before, after)
  }

  predicate SameWork(before: Job, after: Job) {
    after.run == before.run && after.processor == before.processor && after.scope == before.scope && after.prompt == before.prompt
  }

  // ----- sequences of transactions -----

  datatype ErrorKind = TransientError | ConfigurationError | OutputError | PrivacyError | TimeoutError

  predicate ContentError(error: ErrorKind) { error in {OutputError, PrivacyError, TimeoutError} }

  const CONTENT_MAX_ATTEMPTS := 3

  /** handlePostProcessingFailure: content errors end at the third attempt, all others are retried. */
  function FailureStatus(error: ErrorKind, attempts: nat): Status {
    if ContentError(error) && attempts >= CONTENT_MAX_ATTEMPTS then NeedsReview else Pending
  }

  /** The queue with a count of content failures per job, kept for the statements below only. */
  datatype Audit = Audit(q: Queue, failures: map<int, nat>)

  datatype Op =
    | Enqueue(run: int, plan: Plan, kind: Kind, force: bool, now: int)
    | Claim(processor: string, contracts: map<string, Contract>, options: Options, now: int, result: ClaimResult)
    | Complete(carried: Carried, outputs: seq<(string, string)>, model: string, input: Input)
    | Fail(id: int, error: ErrorKind, retryAt: int)
    | Recover(now: int)
    | Cancel
    | ChangeWorld(world: World)

  function FailuresOf(a: Audit, j: int): nat { if j in a.failures then a.failures[j] else 0 }

  function FailStep(a: Audit, id: int, error: ErrorKind, retryAt: int): Audit {
    if !IsRunning(a.q, id) then a else
      var status := FailureStatus(error, a.q.jobs[id].attempts);
      var after := FailPostProcessingJob(a.q, id, status, if status == Pending then Some(retryAt) else None).0;
      Audit(after, if ContentError(error) then a.failures[id := FailuresOf(a, id) + 1] else a.failures)
  }

  ghost predicate Step(a: Audit, op: Op, b: Audit) {
    match op
    case Enqueue(run, plan, kind, force, now) =>
      Usable(a.q.world, run) && b == a.(q := QueuePostProcessing(a.q, run, plan, kind, force, now).0)
    case Claim(processor, contracts, o, now, result) =>
      IsClaim(a.q, processor, contracts, o, now, b.q, result) && b.failures == a.failures
    case Complete(c, outputs, model, input) => b == a.(q := CompletePostProcessingJob(a.q, c, outputs, model, input).0)
    case Fail(id, error, retryAt) => b == FailStep(a, id, error, retryAt)
    case Recover(now) => b == a.(q := RecoverPostProcessing(a.q, now))
    case Cancel => b == a.(q := CancelPostProcessing(a.q))
    case ChangeWorld(world) => b == a.(q := a.q.(world := world))
  }

  ghost predicate Path(a: Audit, ops: seq<Op>, b: Audit)
    decreases |ops|
  {
    if ops == [] then a == b else exists m :: Step(a, ops[0], m) && Path(m, ops[1..], b)
  }

  ghost predicate Reachable(a: Audit) {
    exists world, ops :: Path(Audit(Queue(world, map[], map[], 1), map[]), ops, a)
  }

  // ----- the invariant -----

  ghost predicate OneActive(jobs: map<int, Job>) {
    forall i, j | i in jobs && j in jobs && Active(jobs[i].status) && Active(jobs[j].status) &&
                  For(jobs[j], jobs[i].run, jobs[i].processor, jobs[i].scope) :: i == j
  }

  /** At most two content failures leave a job open, and each took an attempt of its own. */
  predicate WithinBudget(job: Job, failures: nat) {
    && failures <= CONTENT_MAX_ATTEMPTS
    && (Active(job.status) ==> failures < CONTENT_MAX_ATTEMPTS && failures + (if job.status == Running then 1 else 0) <= job.attempts)
  }

  ghost predicate Budgets(a: Audit) {
    forall j | j in a.q.jobs :: WithinBudget(a.q.jobs[j], FailuresOf(a, j))
  }

  ghost predicate Fresh(a: Audit) {
    && (forall j | j in a.q.jobs :: j < a.q.next)
    && (forall j | j in a.failures :: j in a.q.jobs)
  }

  /** Only succeeded jobs have stored values. */
  ghost predicate OutputsOk(q: Queue) {
    forall row | row in q.outputs :: row.0 in q.jobs && q.jobs[row.0].status == Succeeded
  }

  ghost predicate Inv(a: Audit) {
    OneActive(a.q.jobs) && Budgets(a) && Fresh(a) && Named(a.q) && OutputsOk(a.q)
  }

  /** Terminal jobs keep their row. */
  ghost predicate Keeps(q: Queue, r: Queue) {
    forall j | j in q.jobs :: j in r.jobs && (!Active(q.jobs[j].status) ==> r.jobs[j] == q.jobs[j])
  }

  /** An update of existing rows that never opens a closed job. */
  ghost predicate Settles(q: Queue, r: Queue) {
    && r.jobs.Keys == q.jobs.Keys && r.next == q.next
    && (forall j | j in q.jobs :: SameWork(q.jobs[j], r.jobs[j]))
    && (forall j | j in q.jobs && !Active(q.jobs[j].status) :: r.jobs[j] == q.jobs[j])
  }

  lemma SettlesKeepsInv(a: Audit, r: Queue)
    requires Inv(a) && Settles(a.q, r) && r.outputs == a.q.outputs
    requires forall j | j in r.jobs :: WithinBudget(r.jobs[j], FailuresOf(a, j))
    ensures Inv(a.(q := r)) && Keeps(a.q, r)
  {
    forall row | row in r.outputs ensures row.0 in r.jobs && r.jobs[row.0].status == Succeeded {
      var j := row.0;
      assert row in a.q.outputs && !Active(a.q.jobs[j].status);
      assert r.jobs[j] == a.q.jobs[j];
    }
  }

  lemma EnqueueOk(a: Audit, run: int, plan: Plan, kind: Kind, force: bool, now: int)
    requires Inv(a)
    ensures var r := QueuePostProcessing(a.q, run, plan, kind, force, now).0; Inv(a.(q := r)) && Keeps(a.q, r)
  {
    var jobs := SupersedeOlder(a.q, run, plan.processor, plan.scope);
    SettlesKeepsInv(a, a.q.(jobs := jobs));
    if ValidPlan(plan) && !(NeedsSource(plan) && !Matches(a.q.world, run)) {
      InsertOk(a.(q := a.q.(jobs := jobs)), run, plan, kind, force, now);
    }
  }

  lemma InsertOk(a: Audit, run: int, plan: Plan, kind: Kind, force: bool, now: int)
    requires Inv(a) && ValidPlan(plan)
    ensures var r := InsertUnlessSatisfied(a.q, run, plan, kind, force, now).0; Inv(a.(q := r)) && Keeps(a.q, r)
  {
    var r := InsertUnlessSatisfied(a.q, run, plan, kind, force, now).0;
    assert plan.prompt != "";
    assert OneActive(r.jobs);
  }

  lemma ClaimOk(a: Audit, processor: string, contracts: map<string, Contract>, o: Options, now: int, r: Queue, result: ClaimResult)
    requires Inv(a) && IsClaim(a.q, processor, contracts, o, now, r, result)
    ensures Inv(a.(q := r)) && Keeps(a.q, r)
  {
    ClaimTouchesPendingOnly(a.q, processor, contracts, o, now, r, result);
    forall j | j in r.jobs ensures WithinBudget(r.jobs[j], FailuresOf(a, j)) && SameWork(a.q.jobs[j], r.jobs[j]) {
      ClaimBudget(a, result, r, j);
    }
    SettlesKeepsInv(a, r);
  }

  lemma ClaimBudget(a: Audit, result: ClaimResult, r: Queue, j: int)
    requires j in a.q.jobs && j in r.jobs && WithinBudget(a.q.jobs[j], FailuresOf(a, j))
    requires r.jobs[j] == a.q.jobs[j] || Dropped(a.q.jobs[j], r.jobs[j]) || Claims(a.q.jobs[j], r.jobs[j])
    ensures WithinBudget(r.jobs[j], FailuresOf(a, j)) && SameWork(a.q.jobs[j], r.jobs[j])
  {
  }

  lemma {:induction false} StoredRows(stored: map<(int, string), string>, id: int, outputs: seq<(string, string)>)
    ensures forall row | row in StoreOutputs(stored, id, outputs) :: row in stored || row.0 == id
    decreases |outputs|
  {
    if outputs != [] { StoredRows(stored[(id, outputs[0].0) := outputs[0].1], id, outputs[1..]); }
  }

  lemma CompleteOk(a: Audit, c: Carried, outputs: seq<(string, string)>, model: string, input: Input)
    requires Inv(a)
    ensures var r := CompletePostProcessingJob(a.q, c, outputs, model, input).0; Inv(a.(q := r)) && Keeps(a.q, r)
  {
    StoredRows(a.q.outputs, c.id, outputs);
    var r := CompletePostProcessingJob(a.q, c, outputs, model, input).0;
    assert Settles(a.q, r);
    SettlesKeepsInv(a, r.(outputs := a.q.outputs));
  }

  lemma FailOk(a: Audit, id: int, error: ErrorKind, retryAt: int)
    requires Inv(a)
    ensures var b := FailStep(a, id, error, retryAt); Inv(b) && Keeps(a.q, b.q)
  {
    var b := FailStep(a, id, error, retryAt);
    if IsRunning(a.q, id) {
      assert WithinBudget(a.q.jobs[id], FailuresOf(a, id));
      forall j | j in b.q.jobs ensures WithinBudget(b.q.jobs[j], FailuresOf(b, j)) { assert WithinBudget(a.q.jobs[j], FailuresOf(a, j)); }
      assert OneActive(b.q.jobs);
    }
  }

  lemma RecoverOk(a: Audit, now: int)
    requires Inv(a)
    ensures var r := RecoverPostProcessing(a.q, now); Inv(a.(q := r)) && Keeps(a.q, r)
  {
    var r := RecoverPostProcessing(a.q, now);
    forall j | j in r.jobs ensures WithinBudget(r.jobs[j], FailuresOf(a, j)) { assert WithinBudget(a.q.jobs[j], FailuresOf(a, j)); }
    SettlesKeepsInv(a, r);
  }

  lemma CancelOk(a: Audit)
    requires Inv(a)
    ensures var r := CancelPostProcessing(a.q); Inv(a.(q := r)) && Keeps(a.q, r)
    ensures forall j | j in a.q.jobs :: !Active(CancelPostProcessing(a.q).jobs[j].status)
  {
    var r := CancelPostProcessing(a.q);
    forall j | j in r.jobs ensures WithinBudget(r.jobs[j], FailuresOf(a, j)) { assert WithinBudget(a.q.jobs[j], FailuresOf(a, j)); }
    SettlesKeepsInv(a, r);
  }

  lemma StepKeepsInv(a: Audit, op: Op, b: Audit)
    requires Inv(a) && Step(a, op, b)
    ensures Inv(b) && Keeps(a.q, b.q)
  {
    match op
    case Enqueue(run, plan, kind, force, now) => EnqueueOk(a, run, plan, kind, force, now);
    case Claim(processor, contracts, o, now, result) => ClaimOk(a, processor, contracts, o, now, b.q, result);
    case Complete(c, outputs, model, input) => CompleteOk(a, c, outputs, model, input);
    case Fail(id, error, retryAt) => FailOk(a, id, error, retryAt);
    case Recover(now) => RecoverOk(a, now);
    case Cancel => CancelOk(a);
    case ChangeWorld(world) => SettlesKeepsInv(a, a.q.(world := world));
  }

  lemma {:induction false} PathKeepsInv(a: Audit, ops: seq<Op>, b: Audit)
    requires Inv(a) && Path(a, ops, b)
    ensures Inv(b) && Keeps(a.q, b.q)
    decreases |ops|
  {
    if ops != [] {
      var m :| Step(a, ops[0], m) && Path(m, ops[1..], b);
      StepKeepsInv(a, ops[0], m);
      PathKeepsInv(m, ops[1..], b);
    }
  }

  lemma ReachableIsOk(a: Audit)
    requires Reachable(a)
    ensures Inv(a)
  {
    var world, ops :| Path(Audit(Queue(world, map[], map[], 1), map[]), ops, a);
    PathKeepsInv(Audit(Queue(world, map[], map[], 1), map[]), ops, a);
  }

  // ----- the promises -----

  /** A run has at most one pending or running job per processor and scope, so the unique index on them
  never refuses an insert. */
  lemma AtMostOneActiveJob(a: Audit, i: int, j: int)
    requires Reachable(a) && i in a.q.jobs && j in a.q.jobs && Active(a.q.jobs[i].status) && Active(a.q.jobs[j].status)
    requires For(a.q.jobs[j], a.q.jobs[i].run, a.q.jobs[i].processor, a.q.jobs[i].scope)
    ensures i == j
  {
    ReachableIsOk(a);
  }

  /** No job sees more than three content failures, and the third one ends it. */
  lemma ContentFailuresAreBounded(a: Audit, j: int)
    requires Reachable(a) && j in a.q.jobs
    ensures FailuresOf(a, j) <= 3 && (FailuresOf(a, j) == 3 ==> !Active(a.q.jobs[j].status))
  {
    ReachableIsOk(a);
    assert WithinBudget(a.q.jobs[j], FailuresOf(a, j));
  }

  /** Whatever happened since a job ended without success, automatic discovery adds no job for its inputs. */
  lemma DiscoveryNeverResetsTheBudget(a: Audit, j: int, ops: seq<Op>, b: Audit, plan: Plan, kind: Kind, now: int)
    requires Reachable(a) && j in a.q.jobs && a.q.jobs[j].status in {NeedsReview, Failed} && Path(a, ops, b)
    requires For(a.q.jobs[j], a.q.jobs[j].run, plan.processor, plan.scope) && PlanInput(b.q.world, a.q.jobs[j].run, plan) == a.q.jobs[j].input
    ensures var (r, queued) := QueuePostProcessing(b.q, a.q.jobs[j].run, plan, kind, false, now);
            !queued && r.jobs.Keys == b.q.jobs.Keys && r.next == b.q.next
  {
    ReachableIsOk(a);
    PathKeepsInv(a, ops, b);
    var jobs := SupersedeOlder(b.q, a.q.jobs[j].run, plan.processor, plan.scope);
    assert b.q.jobs[j] == a.q.jobs[j] && jobs[j] == a.q.jobs[j];
  }

  /** After cancelling nothing is open, and the late end of a cancelled call changes no table. */
  lemma CancelledCallsEndSilently(a: Audit, ops: seq<Op>, b: Audit, c: Carried, outputs: seq<(string, string)>,
                                  model: string, input: Input, status: Status, retryAt: Option<int>)
    requires Reachable(a) && c.id in a.q.jobs && Path(a.(q := CancelPostProcessing(a.q)), ops, b)
    ensures forall j | j in a.q.jobs :: j in b.q.jobs && !Active(b.q.jobs[j].status)
    ensures CompletePostProcessingJob(b.q, c, outputs, model, input).0 == b.q && !CompletePostProcessingJob(b.q, c, outputs, model, input).1.Stored?
    ensures FailPostProcessingJob(b.q, c.id, status, retryAt) == (b.q, false)
  {
    ReachableIsOk(a);
    CancelOk(a);
    PathKeepsInv(a.(q := CancelPostProcessing(a.q)), ops, b);
  }
}
