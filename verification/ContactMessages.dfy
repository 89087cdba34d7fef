/** What becomes of contact messages over every sequence of transactions. */
module ContactMessages {
  import opened Rows
  import opened ContactTables
  import opened ContactSystem

  /** The run claims this message at some step. */
  ghost predicate Claims(s: System, ops: seq<Op>, id: int)
    decreases |ops|
  {
    ops != [] && ((ops[0].Claim? && ClaimContact(s.c, ops[0].at, s.daily, s.monthly).1 == Claimed(id)) || Claims(Apply(s, ops[0]), ops[1..], id))
  }

  ghost predicate Retries(ops: seq<Op>, id: int) {
    exists k | 0 <= k < |ops| :: ops[k].Update? && ops[k].id == id && ops[k].action == AdminRetry
  }

  /** The message is gone for good, or in one of these states. */
  ghost predicate GoneOrIn(c: Contacts, id: int, states: set<State>) {
    id < c.next && (id in c.messages ==> c.messages[id].state in states)
  }

  lemma SettledStep(s: System, op: Op, id: int)
    requires GoneOrIn(s.c, id, {Accepted, Cancelled})
    ensures GoneOrIn(Apply(s, op).c, id, {Accepted, Cancelled})
    ensures op.Claim? ==> ClaimContact(s.c, op.at, s.daily, s.monthly).1 != Claimed(id)
  {
  }

  /** Accepted and cancelled messages are never sent again, whatever happens. */
  lemma {:induction false} SettledMessagesAreNeverClaimed(s: System, ops: seq<Op>, id: int)
    requires GoneOrIn(s.c, id, {Accepted, Cancelled})
    ensures !Claims(s, ops, id) && GoneOrIn(Run(s, ops).c, id, {Accepted, Cancelled})
    decreases |ops|
  {
    if ops != [] {
      SettledStep(s, ops[0], id);
      SettledMessagesAreNeverClaimed(Apply(s, ops[0]), ops[1..], id);
    }
  }

  lemma UncertainStep(s: System, op: Op, id: int)
    requires GoneOrIn(s.c, id, {Uncertain, Accepted, Cancelled}) && !(op.Update? && op.id == id && op.action == AdminRetry)
    ensures GoneOrIn(Apply(s, op).c, id, {Uncertain, Accepted, Cancelled})
    ensures op.Claim? ==> ClaimContact(s.c, op.at, s.daily, s.monthly).1 != Claimed(id)
  {
  }

  /** A message whose sending is uncertain is sent again only after an operator asked for it. */
  lemma {:induction false} UncertainMessagesNeedARetry(s: System, ops: seq<Op>, id: int)
    requires GoneOrIn(s.c, id, {Uncertain, Accepted, Cancelled}) && Claims(s, ops, id)
    ensures Retries(ops, id)
    decreases |ops|
  {
    if !(ops[0].Update? && ops[0].id == id && ops[0].action == AdminRetry) {
      UncertainStep(s, ops[0], id);
      UncertainMessagesNeedARetry(Apply(s, ops[0]), ops[1..], id);
      var k :| 0 <= k < |ops[1..]| && ops[1..][k].Update? && ops[1..][k].id == id && ops[1..][k].action == AdminRetry;
      assert ops[k + 1] == ops[1..][k];
    }
  }

  /** A message that was being sent when the process stopped is uncertain after the restart, and so not sent again
  unasked. */
  lemma InterruptedMessagesNeedARetry(s: System, ops: seq<Op>, id: int)
    requires id in s.c.messages && s.c.messages[id].state == Sending && id < s.c.next
    ensures var restarted := Apply(s, Recover);
            && id in restarted.c.messages && restarted.c.messages[id].state == Uncertain
            && (Claims(restarted, ops, id) ==> Retries(ops, id))
  {
    if Claims(Apply(s, Recover), ops, id) { UncertainMessagesNeedARetry(Apply(s, Recover), ops, id); }
  }
}
