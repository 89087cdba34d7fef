/** What a claim drops, what comes back after a failure, and that a repeated request adds nothing. */
module PostProcessingOutcomes {
  import opened Rows
  import opened PostProcessingTables
  import opened PostProcessingSystem
  import opened PostProcessingEffects

  // ----- what a claim drops -----

  /** Work whose text was replaced, or scheduled work of a processor or scope that is switched off. */
  ghost predicate SweptAway(w: World, processor: string, job: Job) {
    || IsForOldText(w, job)
    || (IsScheduledFor(job, processor) && (IsOff(w.scopes, (processor, job.scope)) || IsOff(w.processors, processor)))
  }

  /** It may be claimed and comes before the claimed job, but cannot run. */
  ghost predicate PassedOver(q: Queue, processor: string, contracts: map<string, Contract>, o: Options, now: int, result: ClaimResult, k: int)
    requires k in q.jobs
  {
    && MayBeClaimed(q.world, q.jobs[k], processor, o, now) && !CanRun(q.world, contracts, q.jobs[k])
    && (result.Claimed? ==> result.id in q.jobs && GoesBefore(o, q.jobs[k], k, q.jobs[result.id], result.id))
  }

  /** A claim ends exactly the pending jobs that are out of date or switched off, and those it passed over because
  they could not run. */
  lemma ClaimDropsExactly(q: Queue, processor: string, contracts: map<string, Contract>, o: Options, now: int, after: Queue, result: ClaimResult, k: int)
    requires Named(q) && IsClaim(q, processor, contracts, o, now, after, result) && !result.MalformedContract?
    requires k in q.jobs && q.jobs[k].status == Pending && !(result.Claimed? && k == result.id)
    ensures k in after.jobs
    ensures after.jobs[k].status != Pending <==>
              SweptAway(q.world, processor, q.jobs[k]) || PassedOver(q, processor, contracts, o, now, result, k)
  {
    ClaimIs(q, processor, contracts, o, now, after, result);
    StatusAfter(q.world, processor, contracts, q.jobs[k], IsPassed(q, processor, o, now, k, result), after.jobs[k]);
    NoneIsRefused(q, processor, contracts, o, now, after, result, k);
  }

  lemma StatusAfter(w: World, processor: string, contracts: map<string, Contract>, job: Job, passed: bool, after: Job)
    requires job.status == Pending && IsLeft(w, processor, contracts, job, passed, after)
    ensures after.status != Pending <==>
              SweptAway(w, processor, job) || (passed && !CanRun(w, contracts, job) && !IsRefused(contracts, job))
  {
  }

  /** A job with a broken contract would have stopped the claim. */
  lemma NoneIsRefused(q: Queue, processor: string, contracts: map<string, Contract>, o: Options, now: int, after: Queue, result: ClaimResult, k: int)
    requires IsClaimOf(q, processor, contracts, o, now, after, result) && !result.MalformedContract? && k in q.jobs
    ensures IsPassed(q, processor, o, now, k, result) ==> !IsRefused(contracts, q.jobs[k])
  {
    if IsPassed(q, processor, o, now, k, result) && IsRefused(contracts, q.jobs[k]) {
      assert IsStop(q, processor, contracts, o, now, k);
      if result.Claimed? { NeverBoth(o, q.jobs[k], k, q.jobs[result.id], result.id); }
    }
  }

  lemma NeverBoth(o: Options, a: Job, i: int, b: Job, j: int)
    ensures !(GoesBefore(o, a, i, b, j) && GoesBefore(o, b, j, a, i))
  {
  }

  // ----- requests -----

  /** A request that is repeated, without force, adds nothing and changes nothing, whatever the first one found. */
  lemma RepeatedRequestAddsNothing(a: Audit, run: int, plan: Plan, kind: Kind, force: bool, now: int, again: Kind, later: int)
    requires Reachable(a)
    ensures var q := QueuePostProcessing(a.q, run, plan, kind, force, now).0; QueuePostProcessing(q, run, plan, again, false, later) == (q, false)
  {
    if ValidPlan(plan) && !(NeedsSource(plan) && !Matches(a.q.world, run)) {
      ReachableIsOk(a);
      var older := SupersedeOlder(a.q, run, plan.processor, plan.scope);
      var q := FirstSatisfies(a.q, older, run, plan, kind, force, now);
      SecondFindsIt(q, run, plan, again, later);
    }
  }

  lemma SecondFindsIt(q: Queue, run: int, plan: Plan, kind: Kind, now: int)
    requires Satisfied(q.jobs, run, plan, PlanInput(q.world, run, plan), false)
    requires SupersedeOlder(q, run, plan.processor, plan.scope) == q.jobs
    ensures QueuePostProcessing(q, run, plan, kind, false, now) == (q, false)
  {
  }

  lemma FirstSatisfies(q: Queue, older: map<int, Job>, run: int, plan: Plan, kind: Kind, force: bool, now: int) returns (after: Queue)
    requires older == SupersedeOlder(q, run, plan.processor, plan.scope) && forall j | j in q.jobs :: j < q.next
    ensures after == InsertUnlessSatisfied(q.(jobs := older), run, plan, kind, force, now).0
    ensures Satisfied(after.jobs, run, plan, PlanInput(after.world, run, plan), false)
    ensures SupersedeOlder(after, run, plan.processor, plan.scope) == after.jobs
  {
    var input, missing := PlanInput(q.world, run, plan), Unavailable(q.world, run, plan.inputs);
    if Satisfied(older, run, plan, input, force) {
      after := q.(jobs := older);
    } else {
      after := q.(jobs := older[q.next := NewJob(run, plan, kind, input, missing, now)], next := q.next + 1);
      assert q.next in after.jobs && after.jobs[q.next] == NewJob(run, plan, kind, input, missing, now);
    }
    NoneIsOlder(q, older, run, plan, kind, input, missing, now, after);
  }

  /** The second time no pending job of an older run is left to supersede. */
  lemma NoneIsOlder(q: Queue, older: map<int, Job>, run: int, plan: Plan, kind: Kind, input: Input, missing: Option<string>, now: int, after: Queue)
    requires older == SupersedeOlder(q, run, plan.processor, plan.scope) && after.world == q.world
    requires after.jobs == older || after.jobs == older[q.next := NewJob(run, plan, kind, input, missing, now)]
    ensures SupersedeOlder(after, run, plan.processor, plan.scope) == after.jobs
  {
  }

  // ----- failures and crashes -----

  /** Whether a job can be claimed apart from its state. */
  ghost predicate MayRun(w: World, job: Job, processor: string, o: Options) {
    && job.processor == processor && IsPresented(w, job.run) && w.processing && job.model !in o.blocked
    && (job.kind == Manual || (o.allowScheduled && w.automatic && IsOn(w.processors, processor) && IsOn(w.scopes, (processor, job.scope))))
  }

  ghost predicate IsClaimable(q: Queue, id: int, processor: string, o: Options, now: int) {
    id in q.jobs && MayBeClaimed(q.world, q.jobs[id], processor, o, now)
  }

  /** The third answer, or later, that was wrong, unsafe or too late. */
  ghost predicate IsLastFailure(job: Job, error: ErrorKind) { error in {OutputError, PrivacyError, TimeoutError} && job.attempts >= 3 }

  /** A failed job can be claimed again exactly if it may run, its retry is due and it was not a content error at the
  third attempt; then it is final, whatever happens afterwards. */
  lemma FailureDecidesReturn(a: Audit, id: int, error: ErrorKind, retryAt: int, processor: string, o: Options, at: int, ops: seq<Op>, b: Audit)
    requires Reachable(a) && IsRunning(a.q, id) && Path(FailStep(a, id, error, retryAt), ops, b)
    ensures IsClaimable(FailStep(a, id, error, retryAt).q, id, processor, o, at) <==>
              MayRun(a.q.world, a.q.jobs[id], processor, o) && retryAt <= at && !IsLastFailure(a.q.jobs[id], error)
    ensures IsLastFailure(a.q.jobs[id], error) ==> id in b.q.jobs && b.q.jobs[id].status == NeedsReview
  {
    ReachableIsOk(a);
    FailOk(a, id, error, retryAt);
    PathKeepsInv(FailStep(a, id, error, retryAt), ops, b);
  }

  /** After a restart an interrupted job can be claimed at once exactly if it may run, and the next claim does not come
  back empty if its inputs are there. */
  lemma InterruptedJobReturns(a: Audit, id: int, now: int, processor: string, contracts: map<string, Contract>, o: Options, after: Queue, result: ClaimResult)
    requires Reachable(a) && IsRunning(a.q, id) && IsClaim(RecoverPostProcessing(a.q, now), processor, contracts, o, now, after, result)
    ensures IsClaimable(RecoverPostProcessing(a.q, now), id, processor, o, now) <==> MayRun(a.q.world, a.q.jobs[id], processor, o)
    ensures MayRun(a.q.world, a.q.jobs[id], processor, o) && CanRun(a.q.world, contracts, a.q.jobs[id]) ==> !result.NothingEligible?
  {
    ReachableIsOk(a);
    RecoverOk(a, now);
    ClaimIs(RecoverPostProcessing(a.q, now), processor, contracts, o, now, after, result);
    assert IsClaimable(RecoverPostProcessing(a.q, now), id, processor, o, now) && CanRun(a.q.world, contracts, a.q.jobs[id]) ==>
             IsStop(RecoverPostProcessing(a.q, now), processor, contracts, o, now, id);
  }
}
