/** When the notification quota holds: the claims of every day and month against the limits. */
module ContactQuota {
  import opened Rows
  import opened ContactTables
  import opened ContactSystem

  ghost predicate WithinLimits(s: System) {
    && (forall m, d :: OnDay(s.log, m, d) <= s.daily)
    && (forall m :: InMonth(s.log, m) <= s.monthly)
  }

  /** The claims and purges of a run, in their order. */
  function Ticks(ops: seq<Op>): (ticks: seq<Op>)
    ensures forall op | op in ticks :: op in ops && (op.Claim? || op.Purge?)
  {
    if ops == [] then []
    else Ticks(ops[..|ops| - 1]) + if ops[|ops| - 1].Claim? || ops[|ops| - 1].Purge? then [ops[|ops| - 1]] else []
  }

  predicate ClaimIn(op: Op, month: int) { op.Claim? && op.at.month == month }

  predicate PurgeOf(op: Op, month: int) { op.Purge? && month < PurgeBefore(op.at) }

  /** A purge drops a month between two claim attempts in that month. */
  predicate ForgetsAt(ops: seq<Op>, i: int, k: int, j: int) {
    0 <= i < k < j < |ops| && ops[i].Claim? && ClaimIn(ops[j], ops[i].at.month) && PurgeOf(ops[k], ops[i].at.month)
  }

  ghost predicate NeverForgets(ops: seq<Op>) { forall i, k, j :: !ForgetsAt(ops, i, k, j) }

  // ----- without such a purge the quota holds -----

  /** The counters of a month tell how many claims there were. */
  ghost predicate Faithful(s: System, m: int) {
    Used(s.c.budgets, Month(m)) == InMonth(s.log, m) && forall d :: Used(s.c.budgets, Day(m, d)) == OnDay(s.log, m, d)
  }

  /** Every month with a claim ahead has faithful counters, and every month with logged claims was claimed in. */
  ghost predicate OnTrack(s: System, done: seq<Op>, rest: seq<Op>) {
    && (forall m, j | 0 <= j < |rest| && ClaimIn(rest[j], m) :: Faithful(s, m))
    && (forall m | InMonth(s.log, m) > 0 :: exists i :: 0 <= i < |done| && ClaimIn(done[i], m))
  }

  lemma {:induction false} NoClaimNoDay(log: seq<Period>, m: int, d: int)
    ensures OnDay(log, m, d) <= InMonth(log, m)
    decreases |log|
  {
    if log != [] { NoClaimNoDay(log[..|log| - 1], m, d); }
  }

  lemma ClaimLogs(s: System, now: Moment)
    requires WithinLimits(s) && Faithful(s, now.month)
    ensures var t := Apply(s, Claim(now));
            && WithinLimits(t) && (forall m | Faithful(s, m) :: Faithful(t, m))
            && (forall m | InMonth(t.log, m) > 0 :: InMonth(s.log, m) > 0 || m == now.month)
  {
    var t := Apply(s, Claim(now));
    if t.log != s.log {
      forall m, d ensures OnDay(t.log, m, d) == OnDay(s.log, m, d) + if now.month == m && now.day == d then 1 else 0 {
        LogOne(s.log, Day(now.month, now.day), m, d);
      }
      forall m ensures InMonth(t.log, m) == InMonth(s.log, m) + if now.month == m then 1 else 0 { LogOne(s.log, Day(now.month, now.day), m, 1); }
    }
  }

  lemma ClaimStaysOnTrack(s: System, done: seq<Op>, rest: seq<Op>)
    requires rest != [] && rest[0].Claim? && OnTrack(s, done, rest) && WithinLimits(s)
    ensures var t := Apply(s, rest[0]); WithinLimits(t) && OnTrack(t, done + [rest[0]], rest[1..])
  {
    assert ClaimIn(rest[0], rest[0].at.month);
    ClaimLogs(s, rest[0].at);
    var t := Apply(s, rest[0]);
    forall m, j | 0 <= j < |rest[1..]| && ClaimIn(rest[1..][j], m) ensures Faithful(t, m) {
      assert ClaimIn(rest[j + 1], m);
      assert Faithful(s, m);
    }
    DoneGrows(s, t, done, rest[0]);
  }

  lemma DoneGrows(s: System, t: System, done: seq<Op>, op: Op)
    requires forall m | InMonth(s.log, m) > 0 :: exists i :: 0 <= i < |done| && ClaimIn(done[i], m)
    requires forall m | InMonth(t.log, m) > 0 :: InMonth(s.log, m) > 0 || ClaimIn(op, m)
    ensures forall m | InMonth(t.log, m) > 0 :: exists i :: 0 <= i < |done + [op]| && ClaimIn((done + [op])[i], m)
  {
    forall m | InMonth(t.log, m) > 0 ensures exists i :: 0 <= i < |done + [op]| && ClaimIn((done + [op])[i], m) {
      if ClaimIn(op, m) {
        assert (done + [op])[|done|] == op;
      } else {
        var i :| 0 <= i < |done| && ClaimIn(done[i], m);
        assert (done + [op])[i] == done[i];
      }
    }
  }

  lemma PurgeStaysOnTrack(s: System, done: seq<Op>, rest: seq<Op>)
    requires rest != [] && rest[0].Purge? && OnTrack(s, done, rest) && WithinLimits(s) && NeverForgets(done + rest)
    ensures var t := Apply(s, rest[0]); WithinLimits(t) && OnTrack(t, done + [rest[0]], rest[1..])
  {
    var t := Apply(s, rest[0]);
    forall m, j | 0 <= j < |rest[1..]| && ClaimIn(rest[1..][j], m) ensures Faithful(t, m) {
      assert ClaimIn(rest[j + 1], m);
      assert Faithful(s, m);
      if m < PurgeBefore(rest[0].at) {
        forall i ensures !(0 <= i < |done| && ClaimIn(done[i], m)) {
          assert !ForgetsAt(done + rest, i, |done|, |done| + j + 1);
        }
        assert InMonth(s.log, m) == 0;
        forall d ensures OnDay(s.log, m, d) == 0 { NoClaimNoDay(s.log, m, d); }
      }
    }
    DoneGrows(s, t, done, rest[0]);
  }

  lemma OtherStaysOnTrack(s: System, done: seq<Op>, rest: seq<Op>)
    requires rest != [] && !rest[0].Claim? && !rest[0].Purge? && OnTrack(s, done, rest) && WithinLimits(s)
    ensures var t := Apply(s, rest[0]); WithinLimits(t) && OnTrack(t, done + [rest[0]], rest[1..])
  {
    OtherStep(s, rest[0]);
    var t := Apply(s, rest[0]);
    forall m, j | 0 <= j < |rest[1..]| && ClaimIn(rest[1..][j], m) ensures Faithful(t, m) {
      assert ClaimIn(rest[j + 1], m);
      assert Faithful(s, m);
    }
    DoneGrows(s, t, done, rest[0]);
  }

  lemma {:induction false} RunStaysWithinLimits(s: System, done: seq<Op>, rest: seq<Op>)
    requires OnTrack(s, done, rest) && WithinLimits(s) && NeverForgets(done + rest)
    ensures WithinLimits(Run(s, rest))
    decreases |rest|
  {
    if rest != [] {
      if rest[0].Claim? { ClaimStaysOnTrack(s, done, rest); }
      else if rest[0].Purge? { PurgeStaysOnTrack(s, done, rest); }
      else { OtherStaysOnTrack(s, done, rest); }
      assert done + [rest[0]] + rest[1..] == done + rest;
      RunStaysWithinLimits(Apply(s, rest[0]), done + [rest[0]], rest[1..]);
    }
  }

  // ----- only claims and purges matter -----

  lemma {:induction false} TicksGrow(ops: seq<Op>, i: nat, k: nat)
    requires i <= k <= |ops|
    ensures Ticks(ops[..i]) <= Ticks(ops[..k])
    decreases k
  {
    if i < k {
      TicksGrow(ops, i, k - 1);
      assert ops[..k][..k - 1] == ops[..k - 1];
    }
  }

  function Place(ops: seq<Op>, i: nat): nat
    requires i <= |ops|
  {
    |Ticks(ops[..i])|
  }

  lemma TickAt(ops: seq<Op>, i: nat, k: nat)
    requires i < k <= |ops| && (ops[i].Claim? || ops[i].Purge?)
    ensures Place(ops, i) < Place(ops, k) <= |Ticks(ops)| && Ticks(ops)[Place(ops, i)] == ops[i]
  {
    assert ops[..i + 1][..i] == ops[..i] && ops[..|ops|] == ops;
    TicksGrow(ops, i + 1, k);
    TicksGrow(ops, k, |ops|);
  }

  lemma TicksDecide(ops: seq<Op>)
    requires NeverForgets(Ticks(ops))
    ensures NeverForgets(ops)
  {
    forall i, k, j ensures !ForgetsAt(ops, i, k, j) {
      if ForgetsAt(ops, i, k, j) {
        TickAt(ops, i, k);
        TickAt(ops, k, j);
        TickAt(ops, j, |ops|);
        assert ForgetsAt(Ticks(ops), Place(ops, i), Place(ops, k), Place(ops, j));
      }
    }
  }

  /** A run whose clock never lets a purge drop a month between two claim attempts stays within all limits. */
  lemma QuotaIsNeverExceeded(daily: nat, monthly: nat, ops: seq<Op>)
    requires NeverForgets(Ticks(ops))
    ensures WithinLimits(Run(Start(daily, monthly), ops))
  {
    TicksDecide(ops);
    assert [] + ops == ops;
    RunStaysWithinLimits(Start(daily, monthly), [], ops);
  }

  // ----- with such a purge some run exceeds the limits -----

  lemma {:induction false} RunInParts(s: System, a: seq<Op>, b: seq<Op>)
    ensures Run(s, a + b) == Run(Run(s, a), b)
    decreases |a|
  {
    if a == [] {
      assert a + b == b;
    } else {
      assert (a + b)[1..] == a[1..] + b;
      RunInParts(Apply(s, a[0]), a[1..], b);
    }
  }

  predicate Fresh(c: Contacts, id: int) {
    id in c.messages && c.messages[id].state == Pending && c.messages[id].resolvedAt == 0 && c.messages[id].nextAttempt == 0 && !c.messages[id].test
  }

  function FreshRows(c: Contacts): set<int> { set id | id in c.messages && Fresh(c, id) }

  /** At least `n` messages wait to be sent, and only one claim a day and a month is allowed. */
  ghost predicate Stocked(s: System, n: nat) {
    s.c.formEnabled && s.c.notificationsEnabled && |FreshRows(s.c)| >= n && s.daily == 1 && s.monthly == 1 && CountersOk(s)
  }

  lemma TickKeepsStock(s: System, op: Op, n: nat)
    requires Stocked(s, n + 1) && (op.Claim? || op.Purge?) && OnCalendar(op)
    ensures Stocked(Apply(s, op), n)
  {
    var t := Apply(s, op);
    StepKeepsCounters(s, op);
    if op.Claim? {
      var id := if t.c == s.c then 0 else ClaimContact(s.c, op.at, 1, 1).1.id;
      assert FreshRows(s.c) - {id} <= FreshRows(t.c);
      FewerRows(FreshRows(s.c), id, FreshRows(t.c));
    } else {
      assert FreshRows(t.c) == FreshRows(s.c);
    }
  }

  lemma FewerRows(a: set<int>, id: int, b: set<int>)
    requires a - {id} <= b
    ensures |b| + 1 >= |a|
  {
    Smaller(a - {id}, b);
    if id in a { assert |a - {id}| == |a| - 1; } else { assert a - {id} == a; }
  }

  lemma {:induction false} Smaller(a: set<int>, b: set<int>)
    requires a <= b
    ensures |a| <= |b|
    decreases |a|
  {
    if a != {} {
      var x := Member(a);
      Smaller(a - {x}, b - {x});
    }
  }

  /** With a message to send, a claim attempt leaves the month with at least one logged claim, and with one more
  than before if its counters are empty. */
  lemma ClaimIsLogged(s: System, now: Moment)
    requires Stocked(s, 1) && OnCalendar(Claim(now))
    ensures InMonth(Apply(s, Claim(now)).log, now.month) > 0
    ensures Used(s.c.budgets, Month(now.month)) == 0 && Used(s.c.budgets, Day(now.month, now.day)) == 0 ==>
              InMonth(Apply(s, Claim(now)).log, now.month) == InMonth(s.log, now.month) + 1
  {
    NoClaimNoDay(s.log, now.month, now.day);
    if !Exhausted(s.c.budgets, now, 1, 1) {
      var id := Member(FreshRows(s.c));
      assert id in ClaimableRows(s.c, now.time);
      LogOne(s.log, Day(now.month, now.day), now.month, now.day);
    }
  }

  lemma {:induction false} LogGrows(s: System, ops: seq<Op>, m: int)
    ensures InMonth(Run(s, ops).log, m) >= InMonth(s.log, m)
    decreases |ops|
  {
    if ops != [] {
      LogGrowsOnce(s, ops[0], m);
      LogGrows(Apply(s, ops[0]), ops[1..], m);
    }
  }

  lemma LogGrowsOnce(s: System, op: Op, m: int)
    ensures InMonth(Apply(s, op).log, m) >= InMonth(s.log, m)
  {
    if op.Claim? { LogOne(s.log, Day(op.at.month, op.at.day), m, 1); }
  }

  predicate AllTicks(ops: seq<Op>) { forall op | op in ops :: (op.Claim? || op.Purge?) && OnCalendar(op) }

  lemma {:induction false} TicksKeepStock(s: System, ops: seq<Op>, n: nat)
    requires Stocked(s, n + |ops|) && AllTicks(ops)
    ensures Stocked(Run(s, ops), n)
    decreases |ops|
  {
    if ops != [] {
      TickKeepsStock(s, ops[0], n + |ops| - 1);
      TicksKeepStock(Apply(s, ops[0]), ops[1..], n);
    }
  }

  /** No counter of the month is left. */
  ghost predicate Forgotten(s: System, m: int) {
    Used(s.c.budgets, Month(m)) == 0 && forall d :: Used(s.c.budgets, Day(m, d)) == 0
  }

  /** Once its counters are gone, the next claim attempt in the month is a second one. */
  lemma {:induction false} SecondClaim(s: System, ops: seq<Op>, m: int)
    requires Stocked(s, |ops|) && AllTicks(ops) && ops != [] && ClaimIn(ops[|ops| - 1], m)
    requires InMonth(s.log, m) > 1 || (InMonth(s.log, m) == 1 && Forgotten(s, m))
    ensures InMonth(Run(s, ops).log, m) > 1
    decreases |ops|
  {
    var t := Apply(s, ops[0]);
    if InMonth(s.log, m) > 1 {
      LogGrows(s, ops, m);
    } else if ClaimIn(ops[0], m) {
      ClaimIsLogged(s, ops[0].at);
      LogGrows(t, ops[1..], m);
    } else {
      OtherTick(s, ops[0], m);
      TickKeepsStock(s, ops[0], |ops| - 1);
      SecondClaim(t, ops[1..], m);
    }
  }

  lemma OtherTick(s: System, op: Op, m: int)
    requires !ClaimIn(op, m)
    ensures InMonth(Apply(s, op).log, m) == InMonth(s.log, m)
    ensures Forgotten(s, m) ==> Forgotten(Apply(s, op), m)
  {
    if op.Claim? { LogOne(s.log, Day(op.at.month, op.at.day), m, 1); }
  }

  lemma PurgeForgets(s: System, op: Op, m: int)
    requires PurgeOf(op, m)
    ensures Forgotten(Apply(s, op), m)
  {
  }

  /** From a stocked state, such a sequence of claims and purges claims twice in a month that allows one. */
  lemma ForgettingExceeds(s: System, ticks: seq<Op>, i: int, k: int, j: int)
    requires Stocked(s, |ticks|) && AllTicks(ticks) && ForgetsAt(ticks, i, k, j)
    ensures !WithinLimits(Run(s, ticks))
  {
    var m := ticks[i].at.month;
    var before, middle, after, rest := ticks[..i + 1], ticks[i + 1..k + 1], ticks[k + 1..j + 1], ticks[j + 1..];
    assert ticks == before + (middle + (after + rest));
    RunInParts(s, before, middle + (after + rest));
    RunInParts(Run(s, before), middle, after + rest);
    RunInParts(Run(Run(s, before), middle), after, rest);
    FirstClaim(s, before, m);
    TicksKeepStock(s, before, |middle| + |after|);
    ClaimsAgain(Run(s, before), middle, after, m);
    LogGrows(Run(Run(Run(s, before), middle), after), rest, m);
    TicksKeepStock(s, ticks, 0);
  }

  lemma ClaimsAgain(s: System, middle: seq<Op>, after: seq<Op>, m: int)
    requires Stocked(s, |middle| + |after|) && AllTicks(middle) && AllTicks(after) && InMonth(s.log, m) > 0
    requires middle != [] && PurgeOf(middle[|middle| - 1], m) && after != [] && ClaimIn(after[|after| - 1], m)
    ensures InMonth(Run(Run(s, middle), after).log, m) > 1
  {
    ThenForgotten(s, middle, m);
    TicksKeepStock(s, middle, |after|);
    LogGrows(s, middle, m);
    SecondClaim(Run(s, middle), after, m);
  }

  lemma FirstClaim(s: System, ops: seq<Op>, m: int)
    requires Stocked(s, |ops|) && AllTicks(ops) && ops != [] && ClaimIn(ops[|ops| - 1], m)
    ensures InMonth(Run(s, ops).log, m) > 0
  {
    var front, last := ops[..|ops| - 1], ops[|ops| - 1];
    assert ops == front + [last];
    RunInParts(s, front, [last]);
    TicksKeepStock(s, front, 1);
    ClaimIsLogged(Run(s, front), last.at);
    assert Run(Run(s, front), [last]) == Run(Apply(Run(s, front), last), []);
  }

  lemma ThenForgotten(s: System, ops: seq<Op>, m: int)
    requires ops != [] && PurgeOf(ops[|ops| - 1], m)
    ensures Forgotten(Run(s, ops), m)
  {
    var front, last := ops[..|ops| - 1], ops[|ops| - 1];
    assert ops == front + [last];
    RunInParts(s, front, [last]);
    PurgeForgets(Run(s, front), last, m);
    assert Run(Run(s, front), [last]) == Run(Apply(Run(s, front), last), []);
  }

  /** Messages 1 to `n` come in. */
  function Creates(n: nat): (ops: seq<Op>)
    ensures |ops| == n && forall op | op in ops :: op.Create?
  {
    if n == 0 then [] else Creates(n - 1) + [Create(n, false, Moment(0, 0, 1))]
  }

  lemma {:induction false} CreatesStock(n: nat)
    ensures var s := Run(Start(1, 1), Creates(n));
            Stocked(s, n) && s.c.next == n + 1 && (forall id | id in s.c.messages :: s.c.messages[id].hash <= n && id <= n)
    decreases n
  {
    if n == 0 {
      StartCounts(1, 1);
    } else {
      CreatesStock(n - 1);
      var s, op := Run(Start(1, 1), Creates(n - 1)), Create(n, false, Moment(0, 0, 1));
      RunInParts(Start(1, 1), Creates(n - 1), [op]);
      assert Run(s, [op]) == Run(Apply(s, op), []);
      CreateStocks(s, op, n - 1);
    }
  }

  lemma CreateStocks(s: System, op: Op, n: nat)
    requires Stocked(s, n) && s.c.next == n + 1 && (forall id | id in s.c.messages :: s.c.messages[id].hash <= n && id <= n)
    requires op == Create(n + 1, false, Moment(0, 0, 1))
    ensures var t := Apply(s, op);
            Stocked(t, n + 1) && t.c.next == n + 2 && (forall id | id in t.c.messages :: t.c.messages[id].hash <= n + 1 && id <= n + 1)
  {
    var t := Apply(s, op);
    OtherStep(s, op);
    StepKeepsCounters(s, op);
    assert FreshRows(t.c) == FreshRows(s.c) + {n + 1};
  }

  lemma {:induction false} TicksOfTicks(creates: seq<Op>, ticks: seq<Op>)
    requires (forall op | op in creates :: op.Create?) && AllTicks(ticks)
    ensures Ticks(creates + ticks) == ticks
    decreases |creates + ticks|
  {
    var all := creates + ticks;
    if ticks != [] {
      var front, last := ticks[..|ticks| - 1], ticks[|ticks| - 1];
      assert all[..|all| - 1] == creates + front && all[|all| - 1] == last && ticks == front + [last];
      assert last in ticks;
      TicksOfTicks(creates, front);
    } else if creates != [] {
      assert all == creates && all[..|all| - 1] == creates[..|creates| - 1] + [];
      assert creates[|creates| - 1] in creates;
      TicksOfTicks(creates[..|creates| - 1], []);
    }
  }

  /** Some run with these claims and purges exceeds its limits. */
  lemma SomeRunExceeds(ticks: seq<Op>, i: int, k: int, j: int)
    requires AllTicks(ticks) && ForgetsAt(ticks, i, k, j)
    ensures var ops := Creates(|ticks|) + ticks; Ticks(ops) == ticks && !WithinLimits(Run(Start(1, 1), ops))
  {
    CreatesStock(|ticks|);
    TicksOfTicks(Creates(|ticks|), ticks);
    RunInParts(Start(1, 1), Creates(|ticks|), ticks);
    ForgettingExceeds(Run(Start(1, 1), Creates(|ticks|)), ticks, i, k, j);
  }

  ghost predicate AllRunsWithinLimits(ticks: seq<Op>) {
    forall daily, monthly, ops | daily > 0 && monthly > 0 && Ticks(ops) == ticks :: WithinLimits(Run(Start(daily, monthly), ops))
  }

  /** Which moments of claims and purges keep the quota, whatever else happens and whatever the limits are:
  exactly those without a purge that drops a month between two claim attempts in it. */
  lemma QuotaHoldsExactly(ticks: seq<Op>)
    requires AllTicks(ticks)
    ensures AllRunsWithinLimits(ticks) <==> NeverForgets(ticks)
  {
    if NeverForgets(ticks) {
      forall daily: nat, monthly: nat, ops | daily > 0 && monthly > 0 && Ticks(ops) == ticks
        ensures WithinLimits(Run(Start(daily, monthly), ops))
      {
        QuotaIsNeverExceeded(daily, monthly, ops);
      }
    } else {
      var i, k, j :| ForgetsAt(ticks, i, k, j);
      SomeRunExceeds(ticks, i, k, j);
    }
  }

  // ----- the clock -----

  /** Months of claims and purges never go back. */
  predicate Monotone(ticks: seq<Op>) {
    forall i, j | 0 <= i < j < |ticks| && (ticks[i].Claim? || ticks[i].Purge?) && (ticks[j].Claim? || ticks[j].Purge?) ::
      ticks[i].at.month <= ticks[j].at.month
  }

  /** A clock that never goes back meets the condition, because a purge drops only months before its own. */
  lemma MonotoneClocksNeverForget(ticks: seq<Op>)
    requires AllTicks(ticks) && Monotone(ticks)
    ensures NeverForgets(ticks) && AllRunsWithinLimits(ticks)
  {
    forall i, k, j ensures !ForgetsAt(ticks, i, k, j) {}
    QuotaHoldsExactly(ticks);
  }

  /** A clock set back behind a purge does not: the purged month starts from zero again. */
  lemma ClocksSetBackExceed(month: int)
    ensures var ticks := [Claim(Moment(0, month, 1)), Purge(Moment(0, month + 3, 1)), Claim(Moment(0, month, 1))];
            !NeverForgets(ticks) && !AllRunsWithinLimits(ticks)
  {
    var ticks := [Claim(Moment(0, month, 1)), Purge(Moment(0, month + 3, 1)), Claim(Moment(0, month, 1))];
    assert ForgetsAt(ticks, 0, 1, 2);
    QuotaHoldsExactly(ticks);
  }
}
