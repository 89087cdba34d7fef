/** Quota accounting and message states over every sequence of contact transactions. */
module ContactSystem {
  import opened Rows
  import opened ContactTables

  datatype Op =
    | Create(hash: nat, test: bool, at: Moment)
    | Claim(at: Moment)
    | Finish(id: int, state: State, next: int)
    | Recover
    | Update(id: int, action: Action, now: int)
    | SetControl(control: Control, enabled: bool)
    | Purge(at: Moment)

  /** `log` holds the days of all claims, kept for the statements below only. The limits are fixed. */
  datatype System = System(c: Contacts, daily: nat, monthly: nat, log: seq<Period>)

  function Apply(s: System, op: Op): System {
    match op
    case Create(hash, test, now) => s.(c := CreateContact(s.c, hash, test, now, s.daily, s.monthly).0)
    case Claim(now) =>
      var (after, result) := ClaimContact(s.c, now, s.daily, s.monthly);
      s.(c := after, log := if result.Claimed? then s.log + [Day(now.month, now.day)] else s.log)
    case Finish(id, state, next) => s.(c := FinishContactNotification(s.c, id, state, next))
    case Recover => s.(c := RecoverContactNotifications(s.c))
    case Update(id, action, now) => s.(c := UpdateContact(s.c, id, action, now).0)
    case SetControl(control, enabled) => s.(c := SetContactControl(s.c, control, enabled))
    case Purge(now) => s.(c := PurgeContacts(s.c, now))
  }

  function Run(s: System, ops: seq<Op>): System
    decreases |ops|
  {
    if ops == [] then s else Run(Apply(s, ops[0]), ops[1..])
  }

  // ----- counting -----

  function DaySum(budgets: map<Period, nat>, month: int, days: nat): nat {
    if days == 0 then 0 else DaySum(budgets, month, days - 1) + Used(budgets, Day(month, days))
  }

  function InMonth(log: seq<Period>, month: int): nat {
    if log == [] then 0 else InMonth(log[..|log| - 1], month) + if log[|log| - 1].month == month then 1 else 0
  }

  function OnDay(log: seq<Period>, month: int, day: int): nat {
    if log == [] then 0 else OnDay(log[..|log| - 1], month, day) + if log[|log| - 1] == Day(month, day) then 1 else 0
  }

  lemma LogOne(log: seq<Period>, p: Period, month: int, day: int)
    ensures InMonth(log + [p], month) == InMonth(log, month) + if p.month == month then 1 else 0
    ensures OnDay(log + [p], month, day) == OnDay(log, month, day) + if p == Day(month, day) then 1 else 0
  {
    assert (log + [p])[..|log|] == log;
  }

  lemma {:induction false} SpendRaisesSum(budgets: map<Period, nat>, now: Moment, month: int, days: nat)
    ensures DaySum(Spend(budgets, now), month, days) ==
            DaySum(budgets, month, days) + if now.month == month && 1 <= now.day <= days then 1 else 0
    decreases days
  {
    if days > 0 { SpendRaisesSum(budgets, now, month, days - 1); }
  }

  lemma {:induction false} KeptSum(a: map<Period, nat>, b: map<Period, nat>, month: int, days: nat)
    requires forall d :: Used(a, Day(month, d)) == Used(b, Day(month, d))
    ensures DaySum(a, month, days) == DaySum(b, month, days)
    decreases days
  {
    if days > 0 { KeptSum(a, b, month, days - 1); }
  }

  // ----- the stored counters -----

  /** Days are days of a month, and the clock shows a time after 1970. */
  predicate OnCalendar(op: Op) {
    op.Claim? || op.Purge? ==> 1 <= op.at.day <= 31 && op.at.time >= 0
  }

  /** No stored counter exceeds its limit or what was claimed, and each month is the sum of its days. */
  ghost predicate CountersOk(s: System) {
    && (forall m, d :: Used(s.c.budgets, Day(m, d)) <= s.daily && Used(s.c.budgets, Day(m, d)) <= OnDay(s.log, m, d))
    && (forall m :: Used(s.c.budgets, Month(m)) <= s.monthly && Used(s.c.budgets, Month(m)) <= InMonth(s.log, m))
    && (forall m :: Used(s.c.budgets, Month(m)) == DaySum(s.c.budgets, m, 31))
  }

  lemma ClaimKeepsCounters(s: System, now: Moment)
    requires CountersOk(s) && 1 <= now.day <= 31
    ensures CountersOk(Apply(s, Claim(now)))
  {
    var t := Apply(s, Claim(now));
    if ClaimContact(s.c, now, s.daily, s.monthly).1.Claimed? {
      forall m, d ensures OnDay(t.log, m, d) == OnDay(s.log, m, d) + if now.month == m && now.day == d then 1 else 0 {
        LogOne(s.log, Day(now.month, now.day), m, d);
      }
      forall m ensures InMonth(t.log, m) == InMonth(s.log, m) + if now.month == m then 1 else 0 { LogOne(s.log, Day(now.month, now.day), m, 1); }
      forall m ensures Used(t.c.budgets, Month(m)) == DaySum(t.c.budgets, m, 31) { SpendRaisesSum(s.c.budgets, now, m, 31); }
    }
  }

  /** A purge keeps the sums and never touches the current month. */
  lemma PurgeKeepsCounters(s: System, now: Moment)
    requires CountersOk(s)
    ensures CountersOk(Apply(s, Purge(now)))
    ensures forall p: Period | p.month >= now.month :: Used(Apply(s, Purge(now)).c.budgets, p) == Used(s.c.budgets, p)
  {
    var t := Apply(s, Purge(now));
    forall m ensures Used(t.c.budgets, Month(m)) == DaySum(t.c.budgets, m, 31) {
      if m >= PurgeBefore(now) { KeptSum(t.c.budgets, s.c.budgets, m, 31); } else { KeptSum(t.c.budgets, map[], m, 31); EmptySum(m, 31); }
    }
  }

  lemma {:induction false} EmptySum(month: int, days: nat)
    ensures DaySum(map[], month, days) == 0
    decreases days
  {
    if days > 0 { EmptySum(month, days - 1); }
  }

  lemma StepKeepsCounters(s: System, op: Op)
    requires CountersOk(s) && OnCalendar(op)
    ensures CountersOk(Apply(s, op))
  {
    if op.Claim? {
      ClaimKeepsCounters(s, op.at);
    } else if op.Purge? {
      PurgeKeepsCounters(s, op.at);
    } else {
      OtherStep(s, op);
    }
  }

  lemma OtherStep(s: System, op: Op)
    requires !op.Claim? && !op.Purge?
    ensures Apply(s, op) == s.(c := Apply(s, op).c) && Apply(s, op).c.budgets == s.c.budgets
  {
  }

  function Start(daily: nat, monthly: nat): System {
    System(Contacts(true, true, map[], map[], 1), daily, monthly, [])
  }

  lemma StartCounts(daily: nat, monthly: nat)
    ensures CountersOk(Start(daily, monthly))
  {
    forall m ensures DaySum(Start(daily, monthly).c.budgets, m, 31) == 0 { EmptySum(m, 31); }
  }

  lemma {:induction false} RunKeepsCounters(s: System, ops: seq<Op>)
    requires CountersOk(s) && forall op | op in ops :: OnCalendar(op)
    ensures CountersOk(Run(s, ops))
    decreases |ops|
  {
    if ops != [] {
      StepKeepsCounters(s, ops[0]);
      RunKeepsCounters(Apply(s, ops[0]), ops[1..]);
    }
  }

  /** Over every run the stored counters stay within the limits, and each month is the sum of its days. */
  lemma CountersAddUp(daily: nat, monthly: nat, ops: seq<Op>)
    requires forall op | op in ops :: OnCalendar(op)
    ensures CountersOk(Run(Start(daily, monthly), ops))
  {
    StartCounts(daily, monthly);
    RunKeepsCounters(Start(daily, monthly), ops);
  }
}
