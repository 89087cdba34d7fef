/** Contact messages and the quota of their notifications. */
module ContactTables {
  import opened Rows

  datatype State = Pending | Sending | Accepted | Retry | Failed | Uncertain | Cancelled

  /** `resolvedAt` and `nextAttempt` are 0 when not set. */
  datatype Message = Message(hash: nat, state: State, attempts: nat, nextAttempt: int, resolvedAt: int, held: bool, test: bool)

  /** A moment: its time stamp, and its month (counted from a fixed year) and day in UTC. */
  datatype Moment = Moment(time: int, month: int, day: int)

  datatype Period = Day(month: int, day: int) | Month(month: int)

  datatype Contacts = Contacts(formEnabled: bool, notificationsEnabled: bool, messages: map<int, Message>, budgets: map<Period, nat>, next: int)

  const RETENTION := 90 * 24 * 60 * 60

  function Used(budgets: map<Period, nat>, p: Period): nat { if p in budgets then budgets[p] else 0 }

  predicate Exhausted(budgets: map<Period, nat>, now: Moment, daily: int, monthly: int) {
    Used(budgets, Day(now.month, now.day)) >= daily || Used(budgets, Month(now.month)) >= monthly
  }

  // ----- createContact -----

  datatype CreateResult = Created | Repeated | Closed | Paused | TestPending | BudgetExhausted

  predicate HashKnown(messages: map<int, Message>, hash: nat) { exists id | id in messages :: messages[id].hash == hash }

  predicate TestQueued(messages: map<int, Message>) {
    exists id | id in messages :: messages[id].test && messages[id].state in {Pending, Retry, Sending}
  }

  function CreateContact(c: Contacts, hash: nat, test: bool, now: Moment, daily: int, monthly: int): (Contacts, CreateResult) {
    if HashKnown(c.messages, hash) then (c, Repeated)
    else if !c.formEnabled then (c, Closed)
    else if !c.notificationsEnabled && test then (c, Paused)
    else if test && TestQueued(c.messages) then (c, TestPending)
    else if test && Exhausted(c.budgets, now, daily, monthly) then (c, BudgetExhausted)
    else
      var m := Message(hash, if c.notificationsEnabled then Pending else Cancelled, 0, 0, 0, false, test);
      (c.(messages := c.messages[c.next := m], next := c.next + 1), Created)
  }

  // ----- ClaimContact -----

  datatype ClaimResult = Claimed(id: int) | ClaimPaused | ClaimExhausted | NothingDue

  predicate Claimable(c: Contacts, id: int, time: int) {
    id in c.messages && c.messages[id].state in {Pending, Retry} && c.messages[id].resolvedAt == 0 &&
    c.messages[id].nextAttempt <= time && (!c.messages[id].test || c.formEnabled)
  }

  function ClaimableRows(c: Contacts, time: int): set<int> { set id | id in c.messages && Claimable(c, id, time) }

  function Spend(budgets: map<Period, nat>, now: Moment): map<Period, nat> {
    budgets[Day(now.month, now.day) := Used(budgets, Day(now.month, now.day)) + 1][Month(now.month) := Used(budgets, Month(now.month)) + 1]
  }

  function Send(m: Message): Message { m.(state := Sending, attempts := m.attempts + 1) }

  function ClaimContact(c: Contacts, now: Moment, daily: int, monthly: int): (Contacts, ClaimResult) {
    if !c.notificationsEnabled then (c, ClaimPaused)
    else if Exhausted(c.budgets, now, daily, monthly) then (c, ClaimExhausted)
    else
      var rows := ClaimableRows(c, now.time);
      if rows == {} then (c, NothingDue) else
        var id := First(rows, (a: int, b: int) => a < b);
        (c.(messages := c.messages[id := Send(c.messages[id])], budgets := Spend(c.budgets, now)), Claimed(id))
  }

  // ----- the other transactions -----

  function FinishContactNotification(c: Contacts, id: int, state: State, next: int): Contacts {
    if state !in {Accepted, Failed, Retry, Uncertain} || id !in c.messages || c.messages[id].state != Sending then c
    else c.(messages := c.messages[id := c.messages[id].(state := state, nextAttempt := next)])
  }

  function Recovered(m: Message): Message { if m.state == Sending then m.(state := Uncertain) else m }

  function RecoverContactNotifications(c: Contacts): Contacts {
    c.(messages := map id | id in c.messages :: Recovered(c.messages[id]))
  }

  datatype Action = MarkRead | MarkUnread | Resolve | Reopen | AdminRetry | Hold(reasonGiven: bool, review: int) | Release | Delete

  predicate Applicable(c: Contacts, id: int, action: Action, now: int) {
    && id in c.messages && c.messages[id].state != Sending
    && (action.Hold? ==> action.reasonGiven && now < action.review <= now + RETENTION)
    && (action == AdminRetry ==>
          c.messages[id].resolvedAt == 0 && c.messages[id].state in {Failed, Uncertain, Retry} && c.notificationsEnabled &&
          (!c.messages[id].test || c.formEnabled))
  }

  function Acted(m: Message, action: Action, now: int): Message {
    match action
    case Resolve => m.(resolvedAt := if m.resolvedAt == 0 then now else m.resolvedAt,
                       state := if m.state in {Pending, Retry, Failed, Uncertain} then Cancelled else m.state)
    case Reopen => m.(resolvedAt := 0)
    case AdminRetry => m.(state := Pending, nextAttempt := 0)
    case Hold(_, _) => m.(held := true)
    case Release => m.(held := false)
    case _ => m
  }

  function UpdateContact(c: Contacts, id: int, action: Action, now: int): (Contacts, bool) {
    if !Applicable(c, id, action, now) then (c, false)
    else if action == Delete then (c.(messages := c.messages - {id}), true)
    else (c.(messages := c.messages[id := Acted(c.messages[id], action, now)]), true)
  }

  datatype Control = Form | Notifications

  function SetContactControl(c: Contacts, control: Control, enabled: bool): Contacts {
    var switched := if control == Form then c.(formEnabled := enabled) else c.(notificationsEnabled := enabled);
    if enabled then switched else switched.(messages := map id | id in c.messages :: TestCancelled(c.messages[id]))
  }

  function TestCancelled(m: Message): Message { if m.test && m.state in {Pending, Retry} then m.(state := Cancelled) else m }

  // ----- PurgeContacts -----

  predicate Leap(year: int) { year % 4 == 0 && (year % 100 != 0 || year % 400 == 0) }

  /** Days of a month; month 0 is January of year 0. */
  function DaysIn(month: int): (days: int)
    ensures 28 <= days <= 31
  {
    var m := month % 12;
    if m == 1 then (if Leap(month / 12) then 29 else 28) else if m in {3, 5, 8, 10} then 30 else 31
  }

  /** The month two months ago: a day that month does not have runs over into the next one. */
  function PurgeBefore(now: Moment): int {
    if now.day <= DaysIn(now.month - 2) then now.month - 2 else now.month - 1
  }

  predicate Expired(m: Message, time: int) {
    m.resolvedAt > 0 && m.resolvedAt <= time - RETENTION && !m.held && m.state != Sending
  }

  function PurgeContacts(c: Contacts, now: Moment): Contacts {
    c.(messages := map id | id in c.messages && !Expired(c.messages[id], now.time) :: c.messages[id],
       budgets := map p | p in c.budgets && p.month >= PurgeBefore(now) :: c.budgets[p])
  }
}
