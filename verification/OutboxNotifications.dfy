/** When a recipient of the outbox has a notification: over every run, exactly for the
    messages that were delivered, and for those with a delivery that outlived its lease. */
module OutboxNotifications {
  import opened Outcomes
  import opened Outbox
  import opened OutboxRuns

  type Key = (AlertId, UserId)

  function KeyOf(r: Row): Key {
    (r.alert, r.recipient)
  }

  // The lease of the delivering worker runs out between the check and the mark.
  ghost predicate OutlivesLease(s: System, step: Step) {
    && step.Deliver? && step.id in s.rows
    && Owned(s.rows[step.id], step.worker, step.checkedAt) && !Owned(s.rows[step.id], step.worker, s.now)
  }

  // Such a delivery of the message, by which the notification is written all the same.
  ghost predicate Late(s: System, step: Step, id: MessageId) {
    OutlivesLease(s, step) && step.id == id && Notifies(s.rows[id], step.worker, step.checkedAt, step.findings)
  }

  ghost predicate EverLate(s: System, steps: seq<Step>, id: MessageId)
    requires IsRun(s, steps)
    decreases |steps|
  {
    steps != [] && (Late(s, steps[0], id) || EverLate(Apply(s, steps[0]), steps[1..], id))
  }

  // ---------- One step ----------

  lemma RowsStay(s: System, step: Step, id: MessageId)
    requires Enabled(s, step) && id in s.rows
    ensures id in Apply(s, step).rows && KeyOf(Apply(s, step).rows[id]) == KeyOf(s.rows[id])
  {}

  lemma NotificationsStay(s: System, step: Step, key: Key)
    requires Enabled(s, step) && key in s.notifications
    ensures key in Apply(s, step).notifications
  {}

  // A notification is only written by a delivery, which marks the message or is late.
  lemma NewNotification(s: System, step: Step, key: Key)
    requires Enabled(s, step) && key !in s.notifications && key in Apply(s, step).notifications
    ensures step.Deliver? && step.id in s.rows && KeyOf(s.rows[step.id]) == key
    ensures Late(s, step, step.id) || Apply(s, step).rows[step.id].status.Delivered?
  {}

  lemma LateNotifies(s: System, step: Step, id: MessageId)
    requires Enabled(s, step) && Late(s, step, id)
    ensures KeyOf(s.rows[id]) in Apply(s, step).notifications
  {}

  // ---------- Runs ----------

  lemma {:induction false} RunsKeepNotification(s: System, steps: seq<Step>, key: Key)
    requires IsRun(s, steps) && key in s.notifications
    ensures key in After(s, steps).notifications
    decreases |steps|
  {
    if steps != [] {
      NotificationsStay(s, steps[0], key);
      RunsKeepNotification(Apply(s, steps[0]), steps[1..], key);
    }
  }

  lemma {:induction false} RunsKeepRow(s: System, steps: seq<Step>, id: MessageId)
    requires IsRun(s, steps) && id in s.rows
    ensures id in After(s, steps).rows && KeyOf(After(s, steps).rows[id]) == KeyOf(s.rows[id])
    decreases |steps|
  {
    if steps != [] {
      RowsStay(s, steps[0], id);
      RunsKeepRow(Apply(s, steps[0]), steps[1..], id);
    }
  }

  lemma {:induction false} EverLateNotifies(s: System, steps: seq<Step>, id: MessageId)
    requires IsRun(s, steps) && EverLate(s, steps, id)
    ensures id in After(s, steps).rows && KeyOf(After(s, steps).rows[id]) in After(s, steps).notifications
    decreases |steps|
  {
    var t := Apply(s, steps[0]);
    if Late(s, steps[0], id) {
      LateNotifies(s, steps[0], id);
      RunsKeepRow(s, steps, id);
      RunsKeepNotification(t, steps[1..], KeyOf(s.rows[id]));
    } else {
      EverLateNotifies(t, steps[1..], id);
    }
  }

  // A notification that was not there before belongs to a message that was delivered or late.
  lemma {:induction false} NotificationHasCause(s: System, steps: seq<Step>, key: Key) returns (id: MessageId)
    requires IsRun(s, steps) && key !in s.notifications && key in After(s, steps).notifications
    ensures id in After(s, steps).rows && KeyOf(After(s, steps).rows[id]) == key
    ensures After(s, steps).rows[id].status.Delivered? || EverLate(s, steps, id)
    decreases |steps|
  {
    var t := Apply(s, steps[0]);
    if key in t.notifications {
      NewNotification(s, steps[0], key);
      id := steps[0].id;
      RunsKeepRow(s, steps, id);
      if t.rows[id].status.Delivered? {
        SettledForGood(t, steps[1..], id);
      }
    } else {
      id := NotificationHasCause(t, steps[1..], key);
    }
  }

  ghost predicate HasCause(now: int, steps: seq<Step>, id: MessageId)
    requires IsRun(Initial(now), steps)
  {
    id in After(Initial(now), steps).rows
    && (After(Initial(now), steps).rows[id].status.Delivered? || EverLate(Initial(now), steps, id))
  }

  // After every run, the recipient has a notification of the alert exactly when a message for
  // them was delivered, or had a delivery that outlived its lease.
  lemma NotifiedExactlyWhen(now: int, steps: seq<Step>, key: Key)
    requires IsRun(Initial(now), steps)
    ensures var s := After(Initial(now), steps);
            key in s.notifications <==> exists id :: HasCause(now, steps, id) && KeyOf(s.rows[id]) == key
  {
    var s := After(Initial(now), steps);
    if key in s.notifications {
      var id := NotificationHasCause(Initial(now), steps, key);
      assert HasCause(now, steps, id);
    }
    if id :| HasCause(now, steps, id) && KeyOf(s.rows[id]) == key {
      if EverLate(Initial(now), steps, id) {
        EverLateNotifies(Initial(now), steps, id);
      } else {
        EveryRunIsSafe(now, steps, id);
      }
    }
  }

  // The unique key of the table: no other message is for the same alert and recipient.
  ghost predicate Alone(s: System, id: MessageId) {
    id in s.rows && forall other :: other in s.rows && other != id ==> KeyOf(s.rows[other]) != KeyOf(s.rows[id])
  }

  lemma NotifiedWhenAlone(now: int, steps: seq<Step>, id: MessageId)
    requires IsRun(Initial(now), steps) && Alone(After(Initial(now), steps), id)
    ensures KeyOf(After(Initial(now), steps).rows[id]) in After(Initial(now), steps).notifications
       <==> After(Initial(now), steps).rows[id].status.Delivered? || EverLate(Initial(now), steps, id)
  {
    NotifiedExactlyWhen(now, steps, KeyOf(After(Initial(now), steps).rows[id]));
    assert HasCause(now, steps, id)
      <==> After(Initial(now), steps).rows[id].status.Delivered? || EverLate(Initial(now), steps, id);
  }

  // A dead message was notified exactly when one of its deliveries outlived the lease.
  lemma DeadAndNotifiedExactlyWhen(now: int, steps: seq<Step>, id: MessageId)
    requires IsRun(Initial(now), steps) && Alone(After(Initial(now), steps), id)
    requires After(Initial(now), steps).rows[id].status.DeadLetter?
    ensures KeyOf(After(Initial(now), steps).rows[id]) in After(Initial(now), steps).notifications
       <==> EverLate(Initial(now), steps, id)
  {
    NotifiedWhenAlone(now, steps, id);
  }

  // ---------- Runs without late deliveries ----------

  ghost predicate Prompt(s: System, steps: seq<Step>)
    requires IsRun(s, steps)
    decreases |steps|
  {
    steps == [] || (!OutlivesLease(s, steps[0]) && Prompt(Apply(s, steps[0]), steps[1..]))
  }

  lemma {:induction false} PromptIsNeverLate(s: System, steps: seq<Step>, id: MessageId)
    requires IsRun(s, steps) && Prompt(s, steps)
    ensures !EverLate(s, steps, id)
    decreases |steps|
  {
    if steps != [] {
      PromptIsNeverLate(Apply(s, steps[0]), steps[1..], id);
    }
  }

  // As long as no delivery outlives its lease, exactly the delivered messages are notified.
  lemma PromptRunsNotifyTheDelivered(now: int, steps: seq<Step>, id: MessageId)
    requires IsRun(Initial(now), steps) && Prompt(Initial(now), steps) && Alone(After(Initial(now), steps), id)
    ensures KeyOf(After(Initial(now), steps).rows[id]) in After(Initial(now), steps).notifications
       <==> After(Initial(now), steps).rows[id].status.Delivered?
  {
    NotifiedWhenAlone(now, steps, id);
    PromptIsNeverLate(Initial(now), steps, id);
  }
}
