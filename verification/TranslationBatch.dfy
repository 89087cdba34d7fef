/** Grouping translations by model, so that the provider switches models rarely. */
module TranslationBatch {
  import opened Rows
  import opened PostProcessingTables
  import opened PostProcessingSystem
  import opened PostProcessingStore

  const BATCH_LIMIT := 50

  datatype Batch = Batch(model: string, scope: string, attempts: nat)

  const NO_BATCH := Batch("", "", 0)

  /** The preferred and the yielded model of the next claim. */
  function ModelHints(b: Batch, lastInvoked: string): (string, string) {
    if b.model == "" then (lastInvoked, "")
    else if b.attempts >= BATCH_LIMIT then ("", b.model)
    else (b.model, "")
  }

  function ClaimOptions(b: Batch, lastInvoked: string, allowScheduled: bool, blocked: set<string>): Options {
    var hints := ModelHints(b, lastInvoked);
    Options(allowScheduled, hints.0, hints.1, b.scope, blocked)
  }

  function AfterClaim(b: Batch, model: string, scope: string): Batch {
    var attempts := if b.model != model then 0 else b.attempts;
    Batch(model, scope, if attempts < BATCH_LIMIT then attempts + 1 else attempts)
  }

  class Worker {
    var batch: Batch
    var lastInvoked: string

    constructor ()
      ensures batch == NO_BATCH && lastInvoked == ""
    {
      batch, lastInvoked := NO_BATCH, "";
    }

    method RecordTranslationClaim(model: string, scope: string)
      modifies this`batch
      ensures batch == AfterClaim(old(batch), model, scope)
      ensures batch.model == model && batch.scope == scope
      ensures batch.attempts == if old(batch).model != model then 1 else if old(batch).attempts < 50 then old(batch).attempts + 1 else old(batch).attempts
    {
      if batch.model != model {
        batch := Batch(model, "", 0);
      }
      batch := batch.(scope := scope);
      if batch.attempts < BATCH_LIMIT {
        batch := batch.(attempts := batch.attempts + 1);
      }
    }

    method RecordModelInvocation(model: string, cancelled: bool)
      modifies this
      ensures cancelled ==> batch == old(batch) && lastInvoked == old(lastInvoked)
      ensures !cancelled ==> lastInvoked == model && batch == if old(batch).model in {"", model} then old(batch) else NO_BATCH
    {
      if cancelled {
        return;
      }
      lastInvoked := model;
      if batch.model != "" && batch.model != model {
        batch := NO_BATCH;
      }
    }

    /** The worker's loop over a queue to which nothing is added: claim, count, invoke. */
    method Drain(store: Store, processor: string, contracts: map<string, Contract>, allowScheduled: bool, blocked: set<string>, now: int,
                 models: seq<string>, ghost jobs: map<int, Job>) returns (order: seq<int>, batches: nat)
      requires batch == NO_BATCH && Offers(store.Tables(), processor, contracts, allowScheduled, blocked, now, jobs)
      requires OneKind(jobs) && forall j | j in jobs :: jobs[j].model in models
      modifies this, store
      ensures batches <= BatchBound(jobs, models)
      ensures forall j :: j in order <==> j in jobs
      ensures forall i, k | 0 <= i < k < |order| :: order[i] != order[k]
    {
      order, batches := [], 0;
      ghost var left := jobs;
      StartPotential(jobs, models);
      while true
        invariant Offers(store.Tables(), processor, contracts, allowScheduled, blocked, now, left)
        invariant Drained(jobs, left, models, order, batches, batch)
        decreases left.Keys
      {
        var o := ClaimOptions(batch, lastInvoked, allowScheduled, blocked);
        ghost var rest;
        var claimed;
        claimed, rest := ClaimNext(store, processor, contracts, o, now, left);
        if claimed.None? {
          return;
        }
        var (j, job) := claimed.value;
        DrainOne(jobs, left, rest, models, order, batches, batch, lastInvoked, o, j, job);
        if batch.model != job.model {
          batches := batches + 1;
        }
        RecordTranslationClaim(job.model, job.scope);
        RecordModelInvocation(job.model, false);
        order := order + [j];
        left := rest;
      }
    }

    method ClaimNext(store: Store, processor: string, contracts: map<string, Contract>, o: Options, now: int, ghost jobs: map<int, Job>)
      returns (claimed: Option<(int, Job)>, ghost rest: map<int, Job>)
      requires Offers(store.Tables(), processor, contracts, o.allowScheduled, o.blocked, now, jobs)
      modifies store
      ensures claimed.None? ==> jobs == map[]
      ensures claimed.Some? ==> Offers(store.Tables(), processor, contracts, o.allowScheduled, o.blocked, now, rest)
      ensures claimed.Some? ==> TakesFirst(jobs, rest, o, claimed.value.0, claimed.value.1)
    {
      ghost var before := store.Tables();
      var result := store.ClaimPostProcessingJob(processor, contracts, o, now);
      rest := Eligible(store.Tables(), processor, contracts, o.allowScheduled, o.blocked, now);
      if result.Claimed? {
        ClaimTakesFirst(before, processor, contracts, o, now, store.Tables(), result.id);
        NoneIsMalformed(before, processor, contracts, o, now, store.Tables(), result.id);
        claimed := Some((result.id, store.jobs[result.id]));
      } else {
        EmptyClaimLeavesNone(before, processor, contracts, o, now, store.Tables(), result);
        claimed := None;
      }
    }
  }

  // ----- what the claims of one drain take -----

  /** The jobs that can be claimed and run; the hints of the batch order them and exclude none. */
  function Eligible(q: Queue, processor: string, contracts: map<string, Contract>, allowScheduled: bool, blocked: set<string>, now: int): map<int, Job> {
    map j | j in RunnableRows(q, processor, contracts, Options(allowScheduled, "", "", "", blocked), now) :: q.jobs[j]
  }

  /** No candidate has a malformed contract, at which the claim would give up. */
  predicate Claimable(q: Queue, processor: string, contracts: map<string, Contract>, allowScheduled: bool, blocked: set<string>, now: int) {
    Named(q) && MalformedRows(q, contracts, Candidates(q, processor, Options(allowScheduled, "", "", "", blocked), now)) == {}
  }

  /** What the queue offers to the claims of a drain. */
  ghost predicate Offers(q: Queue, processor: string, contracts: map<string, Contract>, allowScheduled: bool, blocked: set<string>, now: int,
                         jobs: map<int, Job>) {
    Claimable(q, processor, contracts, allowScheduled, blocked, now) && jobs == Eligible(q, processor, contracts, allowScheduled, blocked, now)
  }

  lemma HintsExcludeNone(q: Queue, processor: string, o: Options, now: int)
    ensures Candidates(q, processor, o, now) == Candidates(q, processor, Options(o.allowScheduled, "", "", "", o.blocked), now)
  {
    var base := Options(o.allowScheduled, "", "", "", o.blocked);
    forall j | j in q.jobs ensures Selectable(q.world, q.jobs[j], processor, o, now) <==> Selectable(q.world, q.jobs[j], processor, base, now) {}
  }

  lemma EligibleRows(q: Queue, processor: string, contracts: map<string, Contract>, o: Options, now: int)
    ensures var jobs := Eligible(q, processor, contracts, o.allowScheduled, o.blocked, now);
            jobs.Keys == RunnableRows(q, processor, contracts, o, now) && forall j | j in jobs :: j in q.jobs && jobs[j] == q.jobs[j]
  {
    HintsExcludeNone(q, processor, o, now);
    forall j ensures j in Eligible(q, processor, contracts, o.allowScheduled, o.blocked, now) <==> j in RunnableRows(q, processor, contracts, o, now) {}
  }

  /** A claim takes the first eligible job out of the queue and leaves the others ... */
  lemma ClaimTakesFirst(q: Queue, processor: string, contracts: map<string, Contract>, o: Options, now: int, after: Queue, j: int)
    requires Claimable(q, processor, contracts, o.allowScheduled, o.blocked, now) && IsClaim(q, processor, contracts, o, now, after, Claimed(j))
    ensures j in after.jobs
    ensures TakesFirst(Eligible(q, processor, contracts, o.allowScheduled, o.blocked, now),
                       Eligible(after, processor, contracts, o.allowScheduled, o.blocked, now), o, j, after.jobs[j])
  {
    FirstIsEligible(q, processor, contracts, o, now, after, j);
    OthersAreLeft(q, processor, contracts, o, now, after, j);
  }

  lemma FirstIsEligible(q: Queue, processor: string, contracts: map<string, Contract>, o: Options, now: int, after: Queue, j: int)
    requires Claimable(q, processor, contracts, o.allowScheduled, o.blocked, now) && IsClaim(q, processor, contracts, o, now, after, Claimed(j))
    ensures var jobs := Eligible(q, processor, contracts, o.allowScheduled, o.blocked, now);
            IsFirst(jobs.Keys, Order(jobs, o), j) && j in after.jobs && after.jobs[j].model == jobs[j].model && after.jobs[j].scope == jobs[j].scope
  {
    HintsExcludeNone(q, processor, o, now);
    FirstIsTaken(q, processor, contracts, o, now, after, j);
    EligibleRows(q, processor, contracts, o, now);
    SameOrder(q.jobs, Eligible(q, processor, contracts, o.allowScheduled, o.blocked, now), o, j);
  }

  lemma OthersAreLeft(q: Queue, processor: string, contracts: map<string, Contract>, o: Options, now: int, after: Queue, j: int)
    requires Claimable(q, processor, contracts, o.allowScheduled, o.blocked, now) && IsClaim(q, processor, contracts, o, now, after, Claimed(j))
    ensures Eligible(after, processor, contracts, o.allowScheduled, o.blocked, now) ==
              Eligible(q, processor, contracts, o.allowScheduled, o.blocked, now) - {j}
  {
    EligibleRows(q, processor, contracts, o, now);
    EligibleRows(after, processor, contracts, o, now);
    RowsLeft(q, processor, contracts, o, now, after, j);
  }

  /** Rows of a part of the table are ordered as in the table. */
  lemma SameOrder(all: map<int, Job>, jobs: map<int, Job>, o: Options, j: int)
    requires (forall k | k in jobs :: k in all && jobs[k] == all[k]) && IsFirst(jobs.Keys, Order(all, o), j)
    ensures IsFirst(jobs.Keys, Order(jobs, o), j)
  {
    forall k | k in jobs && k != j ensures Order(jobs, o)(j, k) { assert Order(all, o)(j, k); }
  }

  lemma NoneIsMalformed(q: Queue, processor: string, contracts: map<string, Contract>, o: Options, now: int, after: Queue, j: int)
    requires Claimable(q, processor, contracts, o.allowScheduled, o.blocked, now) && IsClaim(q, processor, contracts, o, now, after, Claimed(j))
    ensures Claimable(after, processor, contracts, o.allowScheduled, o.blocked, now)
  {
    HintsExcludeNone(q, processor, o, now);
    HintsExcludeNone(after, processor, o, now);
    NoneIsAdded(q, processor, contracts, o, now, after, j);
    assert forall k | k in MalformedRows(after, contracts, Candidates(after, processor, o, now)) ::
      k in MalformedRows(q, contracts, Candidates(q, processor, o, now));
  }

  ghost predicate TakesFirst(jobs: map<int, Job>, rest: map<int, Job>, o: Options, j: int, claimed: Job) {
    IsFirst(jobs.Keys, Order(jobs, o), j) && rest == jobs - {j} && claimed.model == jobs[j].model && claimed.scope == jobs[j].scope
  }

  /** ... and finds none only when there is none. */
  lemma EmptyClaimLeavesNone(q: Queue, processor: string, contracts: map<string, Contract>, o: Options, now: int, after: Queue, result: ClaimResult)
    requires Claimable(q, processor, contracts, o.allowScheduled, o.blocked, now)
    requires IsClaim(q, processor, contracts, o, now, after, result) && !result.Claimed?
    ensures Eligible(q, processor, contracts, o.allowScheduled, o.blocked, now) == map[] && result.NothingEligible?
  {
    HintsExcludeNone(q, processor, o, now);
    StopsAreBoth(q, processor, contracts, o, now);
    var ready := RunnableRows(q, processor, contracts, o, now);
    assert ready + {} == ready;
    EligibleRows(q, processor, contracts, o, now);
  }

  lemma FirstIsTaken(q: Queue, processor: string, contracts: map<string, Contract>, o: Options, now: int, after: Queue, j: int)
    requires Named(q) && MalformedRows(q, contracts, Candidates(q, processor, o, now)) == {}
    requires IsClaim(q, processor, contracts, o, now, after, Claimed(j))
    ensures IsFirst(RunnableRows(q, processor, contracts, o, now), Order(q.jobs, o), j)
    ensures after.world == q.world && j in after.jobs && after.jobs[j].status == Running
    ensures after.jobs[j].model == q.jobs[j].model && after.jobs[j].scope == q.jobs[j].scope
  {
    var ready := RunnableRows(q, processor, contracts, o, now);
    StopsAreBoth(q, processor, contracts, o, now);
    assert ready + {} == ready;
    assert IsFirst(ready, Order(Sweep(q, processor).jobs, o), j);
    forall k | k in ready && k != j ensures Order(q.jobs, o)(j, k) { assert Order(Sweep(q, processor).jobs, o)(j, k); }
  }

  /** A claim leaves every other runnable job as it is ... */
  lemma RunnableStay(q: Queue, processor: string, contracts: map<string, Contract>, o: Options, now: int, after: Queue, j: int)
    requires Named(q) && IsClaim(q, processor, contracts, o, now, after, Claimed(j))
    ensures forall k | k in RunnableRows(q, processor, contracts, o, now) && k != j :: k in after.jobs && after.jobs[k] == q.jobs[k]
  {
    var s := Sweep(q, processor);
    SweepKeepsCandidates(q, processor, o, now);
    var before := RowsBefore(Candidates(s, processor, o, now), Order(s.jobs, o), j);
    forall k | k in RunnableRows(q, processor, contracts, o, now) && k != j ensures k in after.jobs && after.jobs[k] == q.jobs[k] {
      RunnableIsReady(q.world, contracts, q.jobs[k]);
      assert Settle(s, contracts, before).jobs[k] == s.jobs[k];
    }
  }

  /** ... and adds no candidate. */
  lemma NoneIsAdded(q: Queue, processor: string, contracts: map<string, Contract>, o: Options, now: int, after: Queue, j: int)
    requires Named(q) && IsClaim(q, processor, contracts, o, now, after, Claimed(j))
    ensures forall k | k in Candidates(after, processor, o, now) :: k != j && k in Candidates(q, processor, o, now) && after.jobs[k] == q.jobs[k]
    ensures after.world == q.world && Named(after)
  {
    ClaimTouchesPendingOnly(q, processor, contracts, o, now, after, Claimed(j));
    StaysNamed(q, after, j);
    KeepsCandidates(q, processor, o, now, after, j);
  }

  lemma KeepsCandidates(q: Queue, processor: string, o: Options, now: int, after: Queue, j: int)
    requires after.world == q.world && after.jobs.Keys == q.jobs.Keys && j in q.jobs && after.jobs[j].status == Running
    requires forall k | k in q.jobs && k != j :: after.jobs[k] == q.jobs[k] || Dropped(q.jobs[k], after.jobs[k])
    ensures forall k | k in Candidates(after, processor, o, now) :: k != j && k in Candidates(q, processor, o, now) && after.jobs[k] == q.jobs[k]
  {
    forall k | k in Candidates(after, processor, o, now)
      ensures k != j && k in Candidates(q, processor, o, now) && after.jobs[k] == q.jobs[k]
    {
      assert after.jobs[k].status == Pending;
    }
  }

  lemma StaysNamed(q: Queue, after: Queue, j: int)
    requires Named(q) && after.jobs.Keys == q.jobs.Keys && j in q.jobs && Claims(q.jobs[j], after.jobs[j])
    requires forall k | k in q.jobs && k != j :: after.jobs[k] == q.jobs[k] || Dropped(q.jobs[k], after.jobs[k])
    ensures Named(after)
  {
  }

  lemma RowsLeft(q: Queue, processor: string, contracts: map<string, Contract>, o: Options, now: int, after: Queue, j: int)
    requires Named(q) && IsClaim(q, processor, contracts, o, now, after, Claimed(j))
    ensures RunnableRows(after, processor, contracts, o, now) == RunnableRows(q, processor, contracts, o, now) - {j}
    ensures forall k | k in RunnableRows(after, processor, contracts, o, now) :: after.jobs[k] == q.jobs[k]
  {
    RunnableStay(q, processor, contracts, o, now, after, j);
    NoneIsAdded(q, processor, contracts, o, now, after, j);
    SameRowsLeft(q, processor, contracts, o, now, after, j);
  }

  lemma SameRowsLeft(q: Queue, processor: string, contracts: map<string, Contract>, o: Options, now: int, after: Queue, j: int)
    requires after.world == q.world
    requires forall k | k in RunnableRows(q, processor, contracts, o, now) && k != j :: k in after.jobs && after.jobs[k] == q.jobs[k]
    requires forall k | k in Candidates(after, processor, o, now) :: k != j && k in Candidates(q, processor, o, now) && after.jobs[k] == q.jobs[k]
    ensures RunnableRows(after, processor, contracts, o, now) == RunnableRows(q, processor, contracts, o, now) - {j}
  {
    forall k | k in RunnableRows(q, processor, contracts, o, now) && k != j ensures k in RunnableRows(after, processor, contracts, o, now) {
      assert after.jobs[k] == q.jobs[k];
    }
    forall k | k in RunnableRows(after, processor, contracts, o, now) ensures k != j && k in RunnableRows(q, processor, contracts, o, now) {
      assert k in Candidates(after, processor, o, now);
    }
  }

  // ----- which model a claim takes -----

  /** The request kind of the most urgent candidates. */
  predicate TopKind(q: Queue, rows: set<int>, j: int)
    requires rows <= q.jobs.Keys
  {
    j in rows && forall k | k in rows :: KindRank(q.jobs[j].kind) <= KindRank(q.jobs[k].kind)
  }

  /** A model whose batch is used up is not claimed while another model has a candidate of the top kind ... */
  lemma SpentModelYields(q: Queue, processor: string, b: Batch, lastInvoked: string, allowScheduled: bool, blocked: set<string>, now: int, other: int)
    requires b.model != "" && b.attempts >= BATCH_LIMIT
    requires var o := ClaimOptions(b, lastInvoked, allowScheduled, blocked);
             var rows := Candidates(q, processor, o, now);
             TopKind(q, rows, other) && q.jobs[other].model != b.model
    ensures var selected := Select(q, processor, ClaimOptions(b, lastInvoked, allowScheduled, blocked), now);
            selected.Some? && q.jobs[selected.value].model != b.model
  {
    var o := ClaimOptions(b, lastInvoked, allowScheduled, blocked);
    var selected := Select(q, processor, o, now);
    assert other in Candidates(q, processor, o, now);
    var first := selected.value;
    if first != other {
      assert Order(q.jobs, o)(first, other);
      var x, y := Rank(o, q.jobs[first]), Rank(o, q.jobs[other]);
      assert Below(x, first, y, other) && y.1 == 0 && y.0 <= x.0;
    }
  }

  /** ... and before that its candidates of the top kind are claimed first, those of the current scope ahead. */
  lemma OpenBatchContinues(q: Queue, processor: string, b: Batch, lastInvoked: string, allowScheduled: bool, blocked: set<string>, now: int, same: int)
    requires b.model != "" && b.attempts < BATCH_LIMIT
    requires var o := ClaimOptions(b, lastInvoked, allowScheduled, blocked);
             var rows := Candidates(q, processor, o, now);
             TopKind(q, rows, same) && q.jobs[same].model == b.model
    ensures var selected := Select(q, processor, ClaimOptions(b, lastInvoked, allowScheduled, blocked), now);
            && selected.Some? && q.jobs[selected.value].model == b.model
            && (q.jobs[same].scope == b.scope ==> q.jobs[selected.value].scope == b.scope)
  {
    var o := ClaimOptions(b, lastInvoked, allowScheduled, blocked);
    var selected := Select(q, processor, o, now);
    if selected.value != same {
      assert Order(q.jobs, o)(selected.value, same);
      var x, y := Rank(o, q.jobs[selected.value]), Rank(o, q.jobs[same]);
      assert x.0 == y.0 && y.1 == 0 && y.2 == 0 && Below(x, selected.value, y, same);
    }
  }

  /** Without a batch the model invoked last goes first among the candidates of the top kind. */
  lemma LastModelComesFirst(q: Queue, processor: string, b: Batch, lastInvoked: string, allowScheduled: bool, blocked: set<string>, now: int, same: int)
    requires b.model == "" && lastInvoked != "" && (forall j | j in q.jobs :: q.jobs[j].model != "")
    requires var rows := Candidates(q, processor, ClaimOptions(b, lastInvoked, allowScheduled, blocked), now);
             TopKind(q, rows, same) && q.jobs[same].model == lastInvoked
    ensures var selected := Select(q, processor, ClaimOptions(b, lastInvoked, allowScheduled, blocked), now);
            selected.Some? && q.jobs[selected.value].model == lastInvoked
  {
    var o := ClaimOptions(b, lastInvoked, allowScheduled, blocked);
    var selected := Select(q, processor, o, now);
    if selected.value != same {
      assert Order(q.jobs, o)(selected.value, same);
      var x, y := Rank(o, q.jobs[selected.value]), Rank(o, q.jobs[same]);
      assert x.0 == y.0 && y.1 == 0 && y.2 == 0 && Below(x, selected.value, y, same);
    }
  }

  // ----- the bound on the number of batches -----

  predicate OneKind(jobs: map<int, Job>) {
    && (forall j | j in jobs :: jobs[j].model != "")
    && (forall i, j | i in jobs && j in jobs :: KindRank(jobs[i].kind) == KindRank(jobs[j].kind))
  }

  function JobsOf(jobs: map<int, Job>, model: string): set<int> {
    set j | j in jobs && jobs[j].model == model
  }

  /** Batches of at most fifty attempts. */
  function Batches(n: nat): (batches: nat)
    ensures n <= 50 * batches < n + 50
  {
    (n + BATCH_LIMIT - 1) / BATCH_LIMIT
  }

  function BatchBound(jobs: map<int, Job>, models: seq<string>): nat {
    if models == [] then 0 else Batches(|JobsOf(jobs, models[0])|) + BatchBound(jobs, models[1..])
  }

  /** Attempts of this model that the current batch does not cover any more. */
  function Beyond(n: nat, model: string, b: Batch): nat {
    if model == b.model && b.attempts <= BATCH_LIMIT
    then (if n <= BATCH_LIMIT - b.attempts then 0 else n - (BATCH_LIMIT - b.attempts)) else n
  }

  /** Batches that are still to come. */
  function Potential(jobs: map<int, Job>, models: seq<string>, b: Batch): nat {
    if models == [] then 0
    else Batches(Beyond(|JobsOf(jobs, models[0])|, models[0], b)) + Potential(jobs, models[1..], b)
  }

  lemma {:induction false} StartPotential(jobs: map<int, Job>, models: seq<string>)
    requires forall j | j in jobs :: jobs[j].model != ""
    ensures Potential(jobs, models, NO_BATCH) <= BatchBound(jobs, models)
  {
    if models != [] {
      StartPotential(jobs, models[1..]);
      BatchesMonotone(Beyond(|JobsOf(jobs, models[0])|, models[0], NO_BATCH), |JobsOf(jobs, models[0])|);
    }
  }

  lemma BatchesMonotone(m: nat, n: nat)
    requires m <= n
    ensures Batches(m) <= Batches(n)
  {
  }

  lemma JobsOfRest(jobs: map<int, Job>, j: int, model: string)
    requires j in jobs
    ensures |JobsOf(jobs - {j}, model)| == |JobsOf(jobs, model)| - (if jobs[j].model == model then 1 else 0)
    ensures jobs[j].model == model ==> |JobsOf(jobs, model)| > 0
  {
    if jobs[j].model == model {
      assert JobsOf(jobs - {j}, model) == JobsOf(jobs, model) - {j};
      assert j in JobsOf(jobs, model);
    } else {
      assert JobsOf(jobs - {j}, model) == JobsOf(jobs, model);
    }
  }

  /** The claim opens a batch only when the current one is used up or has no job left. */
  lemma SwitchIsForced(jobs: map<int, Job>, b: Batch, lastInvoked: string, o: Options, j: int)
    requires OneKind(jobs) && o == ClaimOptions(b, lastInvoked, o.allowScheduled, o.blocked)
    requires IsFirst(jobs.Keys, Order(jobs, o), j) && jobs[j].model != b.model && b.model != ""
    ensures b.attempts >= BATCH_LIMIT || JobsOf(jobs, b.model) == {}
  {
    if b.attempts < BATCH_LIMIT {
      forall k | k in jobs ensures jobs[k].model != b.model {
        assert k != j ==> Order(jobs, o)(j, k);
      }
    }
  }

  lemma {:induction false} ClaimLowersTerms(jobs: map<int, Job>, models: seq<string>, b: Batch, j: int, scope: string)
    requires j in jobs && jobs[j].model != "" && b.attempts <= BATCH_LIMIT && (forall k | k in jobs :: jobs[k].model != "")
    requires jobs[j].model != b.model && b.model != "" ==> b.attempts >= BATCH_LIMIT || JobsOf(jobs, b.model) == {}
    ensures var after := AfterClaim(b, jobs[j].model, scope);
            Potential(jobs - {j}, models, after) + (if jobs[j].model != b.model && jobs[j].model in models then 1 else 0)
              <= Potential(jobs, models, b)
  {
    if models != [] {
      ClaimLowersTerms(jobs, models[1..], b, j, scope);
      JobsOfRest(jobs, j, models[0]);
      assert models[0] == "" ==> JobsOf(jobs, "") == {};
      TermDrops(|JobsOf(jobs, models[0])|, models[0], b, jobs[j].model, scope);
    }
  }

  lemma TermDrops(n: nat, m: string, b: Batch, claimed: string, scope: string)
    requires b.attempts <= BATCH_LIMIT && (m == claimed ==> n > 0) && (m == "" ==> n == 0) && claimed != ""
    requires claimed != b.model && m == b.model ==> b.attempts == BATCH_LIMIT || n == 0
    ensures var rest := if m == claimed then n - 1 else n;
            Batches(Beyond(rest, m, AfterClaim(b, claimed, scope))) + (if claimed != b.model && m == claimed then 1 else 0)
              <= Batches(Beyond(n, m, b))
  {
  }

  lemma ClaimLowersPotential(jobs: map<int, Job>, models: seq<string>, b: Batch, lastInvoked: string, o: Options, j: int)
    requires OneKind(jobs) && o == ClaimOptions(b, lastInvoked, o.allowScheduled, o.blocked) && b.attempts <= BATCH_LIMIT
    requires IsFirst(jobs.Keys, Order(jobs, o), j) && jobs[j].model in models
    ensures Potential(jobs - {j}, models, AfterClaim(b, jobs[j].model, jobs[j].scope)) + (if jobs[j].model != b.model then 1 else 0)
              <= Potential(jobs, models, b)
  {
    if jobs[j].model != b.model && b.model != "" { SwitchIsForced(jobs, b, lastInvoked, o, j); }
    ClaimLowersTerms(jobs, models, b, j, jobs[j].scope);
  }

  /** While a queue is drained: every job is either claimed or left, and the batches still to come fit the bound. */
  ghost predicate Drained(jobs: map<int, Job>, left: map<int, Job>, models: seq<string>, order: seq<int>, batches: nat, b: Batch) {
    && OneKind(left) && (forall j | j in left :: left[j].model in models)
    && (forall j :: j in order <==> j in jobs && j !in left)
    && (forall i, k | 0 <= i < k < |order| :: order[i] != order[k])
    && left.Keys <= jobs.Keys && b.attempts <= BATCH_LIMIT
    && batches + Potential(left, models, b) <= BatchBound(jobs, models)
  }

  lemma DrainOne(jobs: map<int, Job>, left: map<int, Job>, rest: map<int, Job>, models: seq<string>, order: seq<int>, batches: nat,
                 b: Batch, lastInvoked: string, o: Options, j: int, claimed: Job)
    requires Drained(jobs, left, models, order, batches, b) && TakesFirst(left, rest, o, j, claimed)
    requires o == ClaimOptions(b, lastInvoked, o.allowScheduled, o.blocked)
    ensures Drained(jobs, rest, models, order + [j], if b.model != claimed.model then batches + 1 else batches,
                    AfterClaim(b, claimed.model, claimed.scope))
    ensures j in left && j !in rest && rest.Keys < left.Keys
    ensures claimed.model != "" && AfterClaim(b, claimed.model, claimed.scope).model == claimed.model
  {
    ClaimLowersPotential(left, models, b, lastInvoked, o, j);
    assert j in left && j !in order;
    assert rest.Keys == left.Keys - {j};
  }
}
