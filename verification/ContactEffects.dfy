/** What each contact transaction does, said of single messages and counters. */
module ContactEffects {
  import opened Rows
  import opened ContactTables

  /** What a counter stands at; a missing row counts as zero. */
  ghost predicate StandsAt(budgets: map<Period, nat>, p: Period, n: int) { if p in budgets then budgets[p] == n else n == 0 }

  ghost predicate IsUsedUp(c: Contacts, now: Moment, daily: int, monthly: int) {
    exists d, m :: StandsAt(c.budgets, Day(now.month, now.day), d) && StandsAt(c.budgets, Month(now.month), m) && (d >= daily || m >= monthly)
  }

  ghost predicate IsRepeated(c: Contacts, hash: nat) { exists id :: id in c.messages && c.messages[id].hash == hash }

  ghost predicate IsTestOpen(c: Contacts) {
    exists id :: id in c.messages && c.messages[id].test && c.messages[id].state in {Pending, Sending, Retry}
  }

  /** A message is taken once, and only while the form is open; a test needs notifications, no other test and quota left.
  With notifications off a message is kept and not sent. */
  ghost predicate IsCreation(c: Contacts, hash: nat, test: bool, now: Moment, daily: int, monthly: int, after: Contacts, result: CreateResult) {
    && (result.Repeated? <==> IsRepeated(c, hash))
    && (result.Closed? <==> !IsRepeated(c, hash) && !c.formEnabled)
    && (result.Paused? <==> !IsRepeated(c, hash) && c.formEnabled && test && !c.notificationsEnabled)
    && (result.TestPending? <==> !IsRepeated(c, hash) && c.formEnabled && test && c.notificationsEnabled && IsTestOpen(c))
    && (result.BudgetExhausted? <==>
          !IsRepeated(c, hash) && c.formEnabled && test && c.notificationsEnabled && !IsTestOpen(c) && IsUsedUp(c, now, daily, monthly))
    && var state := if c.notificationsEnabled then Pending else Cancelled;
       after == if result.Created?
                then c.(messages := c.messages[c.next := Message(hash, state, 0, 0, 0, false, test)], next := c.next + 1) else c
  }

  /** Waiting, unresolved and due; a test also needs the form to be open. */
  ghost predicate MayBeSent(c: Contacts, id: int, time: int) {
    && id in c.messages && c.messages[id].state in {Pending, Retry} && c.messages[id].resolvedAt == 0
    && c.messages[id].nextAttempt <= time && (c.messages[id].test ==> c.formEnabled)
  }

  /** The oldest message that may be sent is being sent, and counted once for its day and once for its month. */
  ghost predicate IsClaimOf(c: Contacts, now: Moment, daily: int, monthly: int, after: Contacts, result: ClaimResult) {
    && (result.ClaimPaused? <==> !c.notificationsEnabled)
    && (result.ClaimExhausted? <==> c.notificationsEnabled && IsUsedUp(c, now, daily, monthly))
    && (result.NothingDue? <==> c.notificationsEnabled && !IsUsedUp(c, now, daily, monthly) && forall id :: !MayBeSent(c, id, now.time))
    && (!result.Claimed? ==> after == c)
    && (result.Claimed? ==>
          && MayBeSent(c, result.id, now.time) && (forall id | MayBeSent(c, id, now.time) :: result.id <= id)
          && after == c.(messages := c.messages[result.id := c.messages[result.id].(state := Sending, attempts := c.messages[result.id].attempts + 1)],
                         budgets := after.budgets)
          && IsCounted(c.budgets, Day(now.month, now.day), Month(now.month), after.budgets))
  }

  ghost predicate IsCounted(budgets: map<Period, nat>, day: Period, month: Period, after: map<Period, nat>) {
    && day in after && month in after && StandsAt(budgets, day, after[day] as int - 1) && StandsAt(budgets, month, after[month] as int - 1)
    && forall p | p != day && p != month :: (p in after <==> p in budgets) && (p in budgets ==> after[p] == budgets[p])
  }

  /** The end of a sending: only a message that is being sent takes the result. */
  ghost predicate IsFinished(c: Contacts, id: int, state: State, at: int, after: Contacts) {
    if id in c.messages && c.messages[id].state == Sending && state in {Accepted, Failed, Retry, Uncertain}
    then after == c.(messages := c.messages[id := c.messages[id].(state := state, nextAttempt := at)]) else after == c
  }

  /** Exactly what was being sent is uncertain now. */
  ghost predicate IsRecovery(c: Contacts, after: Contacts) {
    && after == c.(messages := after.messages) && after.messages.Keys == c.messages.Keys
    && forall id | id in c.messages ::
         after.messages[id] == if c.messages[id].state == Sending then c.messages[id].(state := Uncertain) else c.messages[id]
  }

  /** An action is refused for a message that is being sent; a hold needs a reason and a review within ninety days; and a
  retry needs an unresolved message that failed, switched on notifications and, for a test, an open form. */
  ghost predicate IsAllowed(c: Contacts, id: int, action: Action, now: int) {
    && id in c.messages && c.messages[id].state != Sending
    && (match action
        case Hold(reasonGiven, review) => reasonGiven && now < review && review - now <= 7776000
        case AdminRetry =>
          c.notificationsEnabled && c.messages[id].resolvedAt == 0 && c.messages[id].state in {Failed, Retry, Uncertain} &&
          (c.messages[id].test ==> c.formEnabled)
        case _ => true)
  }

  /** Resolving keeps the first time and gives up what was not sent; reopening does not send it again. */
  ghost predicate IsActedOn(m: Message, action: Action, now: int, after: Message) {
    match action
    case Resolve =>
      && after == m.(resolvedAt := after.resolvedAt, state := after.state) && after.resolvedAt == (if m.resolvedAt != 0 then m.resolvedAt else now)
      && after.state == if m.state in {Accepted, Cancelled, Sending} then m.state else Cancelled
    case Reopen => after == m.(resolvedAt := 0)
    case AdminRetry => after == m.(state := Pending, nextAttempt := 0)
    case Hold(_, _) => after == m.(held := true)
    case Release => after == m.(held := false)
    case _ => after == m
  }

  ghost predicate IsUpdate(c: Contacts, id: int, action: Action, now: int, after: Contacts, changed: bool) {
    && (changed <==> IsAllowed(c, id, action, now))
    && (!changed ==> after == c)
    && (changed ==> after == c.(messages := after.messages))
    && (changed && action == Delete ==> after.messages == c.messages - {id})
    && (changed && action != Delete ==>
          after.messages.Keys == c.messages.Keys && IsActedOn(c.messages[id], action, now, after.messages[id]) &&
          forall other | other in c.messages && other != id :: after.messages[other] == c.messages[other])
  }

  /** Switching off anything also gives up the tests that wait. */
  ghost predicate IsSwitched(c: Contacts, control: Control, enabled: bool, after: Contacts) {
    && after == c.(formEnabled := if control == Form then enabled else c.formEnabled,
                   notificationsEnabled := if control == Notifications then enabled else c.notificationsEnabled, messages := after.messages)
    && after.messages.Keys == c.messages.Keys
    && forall id | id in c.messages :: after.messages[id] ==
         if !enabled && c.messages[id].test && c.messages[id].state in {Pending, Retry} then c.messages[id].(state := Cancelled) else c.messages[id]
  }

  /** Gone are messages resolved ninety days ago that nobody holds and that are not being sent, and the counters of months
  before the one that lies two months back. */
  ghost predicate IsPurged(c: Contacts, now: Moment, after: Contacts) {
    && after == c.(messages := after.messages, budgets := after.budgets)
    && (forall id :: id in after.messages <==> id in c.messages && !IsExpired(c.messages[id], now.time))
    && (forall id | id in after.messages :: after.messages[id] == c.messages[id])
    && (forall p | p in after.budgets :: p in c.budgets && after.budgets[p] == c.budgets[p])
    && (forall p | p in c.budgets :: p in after.budgets <==> !IsBeforeCutOff(p.month, now))
  }

  ghost predicate IsExpired(m: Message, time: int) {
    m.resolvedAt > 0 && time - m.resolvedAt >= 7776000 && !m.held && m.state != Sending
  }

  /** Two months back there may be no such day; then the date runs over into the month after. */
  ghost predicate IsBeforeCutOff(month: int, now: Moment) {
    month < now.month - 2 || (month == now.month - 2 && now.day > LastDay(now.month - 2))
  }

  /** The last day of a month in the Gregorian calendar; month 0 is January of year 0. */
  ghost function LastDay(month: int): int {
    var year := month / 12;
    match month % 12
    case 1 => if year % 400 == 0 || (year % 4 == 0 && year % 100 != 0) then 29 else 28
    case 3 => 30
    case 5 => 30
    case 8 => 30
    case 10 => 30
    case _ => 31
  }

  lemma UsedUpIs(c: Contacts, now: Moment, daily: int, monthly: int)
    ensures IsUsedUp(c, now, daily, monthly) <==> Exhausted(c.budgets, now, daily, monthly)
  {
    assert StandsAt(c.budgets, Day(now.month, now.day), Used(c.budgets, Day(now.month, now.day)));
    assert StandsAt(c.budgets, Month(now.month), Used(c.budgets, Month(now.month)));
  }

  lemma CreationIs(c: Contacts, hash: nat, test: bool, now: Moment, daily: int, monthly: int)
    ensures var (after, result) := CreateContact(c, hash, test, now, daily, monthly); IsCreation(c, hash, test, now, daily, monthly, after, result)
  {
    UsedUpIs(c, now, daily, monthly);
  }

  lemma ClaimIs(c: Contacts, now: Moment, daily: int, monthly: int)
    ensures var (after, result) := ClaimContact(c, now, daily, monthly); IsClaimOf(c, now, daily, monthly, after, result)
  {
    UsedUpIs(c, now, daily, monthly);
    forall id ensures id in ClaimableRows(c, now.time) <==> MayBeSent(c, id, now.time) {}
  }

  lemma FinishedIs(c: Contacts, id: int, state: State, at: int)
    ensures IsFinished(c, id, state, at, FinishContactNotification(c, id, state, at))
  {
  }

  lemma RecoveryIs(c: Contacts)
    ensures IsRecovery(c, RecoverContactNotifications(c))
  {
  }

  lemma UpdateIs(c: Contacts, id: int, action: Action, now: int)
    ensures var (after, changed) := UpdateContact(c, id, action, now); IsUpdate(c, id, action, now, after, changed)
  {
  }

  lemma SwitchedIs(c: Contacts, control: Control, enabled: bool)
    ensures IsSwitched(c, control, enabled, SetContactControl(c, control, enabled))
  {
  }

  lemma PurgedIs(c: Contacts, now: Moment)
    ensures IsPurged(c, now, PurgeContacts(c, now))
  {
    assert DaysIn(now.month - 2) == LastDay(now.month - 2);
  }
}
