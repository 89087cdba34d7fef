/** The contact transactions on mutable tables; an early return is the source's rollback. */
module ContactStore {
  import opened Rows
  import opened ContactTables
  import ContactEffects

  class Store {
    var formEnabled: bool
    var notificationsEnabled: bool
    var messages: map<int, Message>
    var budgets: map<Period, nat>
    var next: int

    function Tables(): Contacts
      reads this
    {
      Contacts(formEnabled, notificationsEnabled, messages, budgets, next)
    }

    constructor ()
      ensures Tables() == Contacts(true, true, map[], map[], 1)
    {
      formEnabled, notificationsEnabled, messages, budgets, next := true, true, map[], map[], 1;
    }

    method CreateContact(hash: nat, test: bool, now: Moment, daily: int, monthly: int) returns (result: CreateResult)
      modifies this`messages, this`next
      ensures (Tables(), result) == ContactTables.CreateContact(old(Tables()), hash, test, now, daily, monthly)
      ensures ContactEffects.IsCreation(old(Tables()), hash, test, now, daily, monthly, Tables(), result)
    {
      ContactEffects.CreationIs(Tables(), hash, test, now, daily, monthly);
      if HashKnown(messages, hash) {
        return Repeated;
      }
      if !formEnabled {
        return Closed;
      }
      var state := Pending;
      if !notificationsEnabled {
        if test {
          return Paused;
        }
        state := Cancelled;
      }
      if test {
        if TestQueued(messages) {
          return TestPending;
        }
        if Exhausted(budgets, now, daily, monthly) {
          return BudgetExhausted;
        }
      }
      messages := messages[next := Message(hash, state, 0, 0, 0, false, test)];
      next := next + 1;
      result := Created;
    }

    method ClaimContact(now: Moment, daily: int, monthly: int) returns (result: ClaimResult)
      modifies this`messages, this`budgets
      ensures (Tables(), result) == ContactTables.ClaimContact(old(Tables()), now, daily, monthly)
      ensures ContactEffects.IsClaimOf(old(Tables()), now, daily, monthly, Tables(), result)
    {
      result := ReserveAndSelect(now, daily, monthly);
      ContactEffects.ClaimIs(old(Tables()), now, daily, monthly);
    }

    /** The loop over the two budgets inserts missing rows; they are rolled back unless a message is claimed. */
    method ReserveAndSelect(now: Moment, daily: int, monthly: int) returns (result: ClaimResult)
      modifies this`messages, this`budgets
      ensures (Tables(), result) == ContactTables.ClaimContact(old(Tables()), now, daily, monthly)
    {
      if !notificationsEnabled {
        return ClaimPaused;
      }
      var day, month := Day(now.month, now.day), Month(now.month);
      var reserved := if day in budgets then budgets else budgets[day := 0];
      if reserved[day] >= daily {
        return ClaimExhausted;
      }
      reserved := if month in reserved then reserved else reserved[month := 0];
      if reserved[month] >= monthly {
        return ClaimExhausted;
      }
      var rows := ClaimableRows(Tables(), now.time);
      if rows == {} {
        return NothingDue;
      }
      var id := First(rows, (a: int, b: int) => a < b);
      messages := messages[id := Send(messages[id])];
      budgets := reserved[day := reserved[day] + 1][month := reserved[month] + 1];
      assert budgets == Spend(old(budgets), now);
      result := Claimed(id);
    }

    method FinishContactNotification(id: int, state: State, at: int)
      modifies this`messages
      ensures Tables() == ContactTables.FinishContactNotification(old(Tables()), id, state, at)
      ensures ContactEffects.IsFinished(old(Tables()), id, state, at, Tables())
    {
      ContactEffects.FinishedIs(Tables(), id, state, at);
      if state in {Accepted, Failed, Retry, Uncertain} && id in messages && messages[id].state == Sending {
        messages := messages[id := messages[id].(state := state, nextAttempt := at)];
      }
    }

    method RecoverContactNotifications()
      modifies this`messages
      ensures Tables() == ContactTables.RecoverContactNotifications(old(Tables()))
      ensures ContactEffects.IsRecovery(old(Tables()), Tables())
    {
      ContactEffects.RecoveryIs(Tables());
      messages := map id | id in messages :: Recovered(messages[id]);
    }

    method UpdateContact(id: int, action: Action, now: int) returns (changed: bool)
      modifies this`messages
      ensures (Tables(), changed) == ContactTables.UpdateContact(old(Tables()), id, action, now)
      ensures ContactEffects.IsUpdate(old(Tables()), id, action, now, Tables(), changed)
    {
      ContactEffects.UpdateIs(Tables(), id, action, now);
      changed := Applicable(Tables(), id, action, now);
      if changed {
        if action == Delete {
          messages := messages - {id};
        } else {
          messages := messages[id := Acted(messages[id], action, now)];
        }
      }
    }

    method SetContactControl(control: Control, enabled: bool)
      modifies this`formEnabled, this`notificationsEnabled, this`messages
      ensures Tables() == ContactTables.SetContactControl(old(Tables()), control, enabled)
      ensures ContactEffects.IsSwitched(old(Tables()), control, enabled, Tables())
    {
      ContactEffects.SwitchedIs(Tables(), control, enabled);
      if control == Form {
        formEnabled := enabled;
      } else {
        notificationsEnabled := enabled;
      }
      if !enabled {
        messages := map id | id in messages :: TestCancelled(messages[id]);
      }
    }

    method PurgeContacts(now: Moment)
      modifies this`messages, this`budgets
      ensures Tables() == ContactTables.PurgeContacts(old(Tables()), now)
      ensures ContactEffects.IsPurged(old(Tables()), now, Tables())
    {
      ContactEffects.PurgedIs(Tables(), now);
      messages := map id | id in messages && !Expired(messages[id], now.time) :: messages[id];
      budgets := map p | p in budgets && p.month >= PurgeBefore(now) :: budgets[p];
    }
  }
}
