/** Every interleaving of the workers of the outbox, with a clock that never goes back,
    crashes at any point, and at most one processing of a message in flight per worker. */
module OutboxRuns {
  import opened Outcomes
  import opened Outbox

  // A message in the hands of a worker: claimed, or waiting to be settled after a delivery.
  datatype Work = Claimed(attempt: nat, exhausted: bool) | Failed(attempt: nat, retryable: bool, code: ErrorCode)

  // `calls` holds each call of the delivery provider, with the attempt it was made for.
  datatype System = System(
    rows: map<MessageId, Row>,
    notifications: multiset<(AlertId, UserId)>,
    deadLetterEvents: multiset<MessageId>,
    now: int,
    inFlight: map<(WorkerId, MessageId), Work>,
    calls: multiset<(MessageId, nat)>)

  datatype Step =
    | Tick(ms: nat)
    | Enqueue(id: MessageId, alert: AlertId, recipient: UserId)
    | Claim(worker: WorkerId, id: MessageId, leaseMs: nat)
    | Deliver(worker: WorkerId, id: MessageId, checkedAt: int, findings: Findings)
    | Settle(worker: WorkerId, id: MessageId)
    | Crash(worker: WorkerId, id: MessageId)

  predicate Enabled(s: System, step: Step) {
    match step
    case Tick(_) => true
    case Enqueue(id, _, _) => id !in s.rows
    case Claim(worker, id, _) => id in s.rows && Due(s.rows[id], s.now) && (worker, id) !in s.inFlight
    case Deliver(worker, id, checkedAt, _) =>
      id in s.rows && (worker, id) in s.inFlight && s.inFlight[(worker, id)].Claimed? && !s.inFlight[(worker, id)].exhausted
      && checkedAt <= s.now
    case Settle(worker, id) =>
      id in s.rows && (worker, id) in s.inFlight
      && (s.inFlight[(worker, id)].Failed? || s.inFlight[(worker, id)].exhausted)
    case Crash(worker, id) => (worker, id) in s.inFlight
  }

  function ApplyClaim(s: System, worker: WorkerId, id: MessageId, leaseMs: nat): System
    requires id in s.rows
  {
    var row := ClaimRow(s.rows[id], worker, s.now, leaseMs);
    s.(rows := s.rows[id := row],
       inFlight := s.inFlight[(worker, id) := Claimed(row.attemptCount, Exhausted(s.rows[id]))])
  }

  function ApplyDeliver(s: System, worker: WorkerId, id: MessageId, checkedAt: int, f: Findings): System
    requires id in s.rows && (worker, id) in s.inFlight
  {
    var row, attempt := s.rows[id], s.inFlight[(worker, id)].attempt;
    s.(rows := s.rows[id := DeliverRow(row, worker, checkedAt, s.now, f)],
       notifications := if Notifies(row, worker, checkedAt, f) then Upsert(s.notifications, (row.alert, row.recipient)) else s.notifications,
       calls := s.calls + multiset{(id, attempt)},
       inFlight :=
         match DeliverResult(row, worker, checkedAt, s.now, f)
         case Done => s.inFlight - {(worker, id)}
         case Permanent(code) => s.inFlight[(worker, id) := Failed(attempt, false, code)]
         case Retryable(code) => s.inFlight[(worker, id) := Failed(attempt, true, code)])
  }

  // An exhausted message is settled without a delivery.
  function ToSettle(w: Work): (bool, ErrorCode) {
    match w
    case Claimed(_, _) => (false, AttemptsExhausted)
    case Failed(_, retryable, code) => (retryable, code)
  }

  function ApplySettle(s: System, worker: WorkerId, id: MessageId): System
    requires id in s.rows && (worker, id) in s.inFlight
  {
    var row, work := s.rows[id], s.inFlight[(worker, id)];
    var (retryable, code) := ToSettle(work);
    var dead := SettleOutcome(row, worker, s.now, work.attempt, retryable).DeadLettered?;
    s.(rows := s.rows[id := SettleRow(row, worker, s.now, work.attempt, retryable, code)],
       deadLetterEvents := s.deadLetterEvents + if dead then multiset{id} else multiset{},
       inFlight := s.inFlight - {(worker, id)})
  }

  function Apply(s: System, step: Step): System
    requires Enabled(s, step)
  {
    match step
    case Tick(ms) => s.(now := s.now + ms)
    case Enqueue(id, alert, recipient) => s.(rows := s.rows[id := Row(alert, recipient, Pending, 0, s.now, None, None)])
    case Claim(worker, id, leaseMs) => ApplyClaim(s, worker, id, leaseMs)
    case Deliver(worker, id, checkedAt, f) => ApplyDeliver(s, worker, id, checkedAt, f)
    case Settle(worker, id) => ApplySettle(s, worker, id)
    case Crash(worker, id) => s.(inFlight := s.inFlight - {(worker, id)})
  }

  // ---------- The invariant ----------

  ghost predicate RowOk(r: Row) {
    && r.attemptCount <= MAX_DELIVERY_ATTEMPTS
    && (r.status.Pending? ==> r.attemptCount < MAX_DELIVERY_ATTEMPTS)
    && (r.status.Processing? ==> r.attemptCount >= 1)
    && (r.status.Processing? <==> r.lease.Some?)
    && (r.status.DeadLetter? ==> r.lastError.Some? && r.lastError.value != LeaseLost)
  }

  // What a worker holds is about the message as it is, or its lease is gone.
  ghost predicate WorkOk(r: Row, worker: WorkerId, w: Work, now: int) {
    && 1 <= w.attempt <= r.attemptCount
    && (r.status.Processing? && r.lease.Some? && r.lease.value.0 == worker ==> r.attemptCount == w.attempt)
    && (w.Failed? && w.code == LeaseLost ==> !Owned(r, worker, now))
  }

  ghost predicate RowsOk(s: System) {
    forall id :: id in s.rows ==> RowOk(s.rows[id])
  }

  ghost predicate RecordsOk(s: System) {
    && (forall key :: s.notifications[key] <= 1)
    && (forall id :: id in s.rows && s.rows[id].status.Delivered? ==> s.notifications[(s.rows[id].alert, s.rows[id].recipient)] == 1)
    && (forall id :: s.deadLetterEvents[id] == if id in s.rows && s.rows[id].status.DeadLetter? then 1 else 0)
  }

  ghost predicate WorksOk(s: System) {
    forall worker: WorkerId, id: MessageId :: (worker, id) in s.inFlight ==>
      id in s.rows && WorkOk(s.rows[id], worker, s.inFlight[(worker, id)], s.now)
  }

  predicate ToDeliver(s: System, worker: WorkerId, id: MessageId) {
    (worker, id) in s.inFlight && s.inFlight[(worker, id)].Claimed? && !s.inFlight[(worker, id)].exhausted
  }

  // Every claim has an attempt of its own, and is delivered at most once.
  ghost predicate CallsOk(s: System) {
    && (forall id: MessageId, attempt: nat :: s.calls[(id, attempt)] <= 1)
    && (forall id: MessageId, attempt: nat :: (id, attempt) in s.calls ==> id in s.rows && 1 <= attempt <= s.rows[id].attemptCount)
    && (forall worker: WorkerId, id: MessageId :: ToDeliver(s, worker, id) ==> (id, s.inFlight[(worker, id)].attempt) !in s.calls)
    && (forall v: WorkerId, w: WorkerId, id: MessageId :: v != w && ToDeliver(s, v, id) && ToDeliver(s, w, id) ==>
          s.inFlight[(v, id)].attempt != s.inFlight[(w, id)].attempt)
  }

  ghost predicate Inv(s: System) {
    RowsOk(s) && RecordsOk(s) && WorksOk(s) && CallsOk(s)
  }

  // ---------- Every step keeps it ----------

  // Only the work of one worker on one message, and the row of that message, have changed.
  ghost predicate ChangedAt(s: System, t: System, worker: WorkerId, id: MessageId) {
    && id in s.rows && s.now == t.now && t.rows.Keys == s.rows.Keys
    && (forall other :: other in s.rows && other != id ==> t.rows[other] == s.rows[other])
    && (forall key :: key in t.inFlight && key != (worker, id) ==> key in s.inFlight && t.inFlight[key] == s.inFlight[key])
    && s.rows[id].attemptCount <= t.rows[id].attemptCount
    && (t.rows[id] == s.rows[id] || t.rows[id].lease.None? || t.rows[id].lease.value.0 == worker)
  }

  lemma WorksKept(s: System, t: System, worker: WorkerId, id: MessageId)
    requires WorksOk(s) && ChangedAt(s, t, worker, id)
    requires (worker, id) in t.inFlight ==> WorkOk(t.rows[id], worker, t.inFlight[(worker, id)], t.now)
    ensures WorksOk(t)
  {
    forall v: WorkerId, other: MessageId | (v, other) in t.inFlight
      ensures other in t.rows && WorkOk(t.rows[other], v, t.inFlight[(v, other)], t.now)
    {
      if (v, other) != (worker, id) {
        assert WorkOk(s.rows[other], v, s.inFlight[(v, other)], s.now);
      }
    }
  }

  lemma RowsKept(s: System, t: System, worker: WorkerId, id: MessageId)
    requires RowsOk(s) && ChangedAt(s, t, worker, id) && RowOk(t.rows[id])
    ensures RowsOk(t)
  {}

  // The message may become delivered, if its notification is there, or dead, if that is recorded.
  lemma RecordsKept(s: System, t: System, worker: WorkerId, id: MessageId)
    requires RecordsOk(s) && ChangedAt(s, t, worker, id)
    requires t.rows[id].alert == s.rows[id].alert && t.rows[id].recipient == s.rows[id].recipient
    requires t.notifications == s.notifications || t.notifications == Upsert(s.notifications, (t.rows[id].alert, t.rows[id].recipient))
    requires t.rows[id].status.Delivered? ==>
               s.rows[id].status.Delivered? || t.notifications == Upsert(s.notifications, (t.rows[id].alert, t.rows[id].recipient))
    requires t.deadLetterEvents ==
             s.deadLetterEvents + if t.rows[id].status.DeadLetter? && !s.rows[id].status.DeadLetter? then multiset{id} else multiset{}
    requires s.rows[id].status.DeadLetter? ==> t.rows[id].status.DeadLetter?
    ensures RecordsOk(t)
  {}

  // No new work to deliver, and no new call.
  lemma CallsKept(s: System, t: System)
    requires CallsOk(s) && t.calls == s.calls
    requires forall id :: id in s.rows ==> id in t.rows && s.rows[id].attemptCount <= t.rows[id].attemptCount
    requires forall v: WorkerId, id: MessageId :: ToDeliver(t, v, id) ==> ToDeliver(s, v, id) && t.inFlight[(v, id)] == s.inFlight[(v, id)]
    ensures CallsOk(t)
  {}

  // One piece of work has been delivered.
  lemma CallsGrown(s: System, t: System, worker: WorkerId, id: MessageId, attempt: nat)
    requires CallsOk(s) && ToDeliver(s, worker, id) && s.inFlight[(worker, id)].attempt == attempt
    requires t.calls == s.calls + multiset{(id, attempt)}
    requires id in s.rows && 1 <= attempt <= s.rows[id].attemptCount
    requires forall other :: other in s.rows ==> other in t.rows && s.rows[other].attemptCount <= t.rows[other].attemptCount
    requires forall v: WorkerId, other: MessageId :: ToDeliver(t, v, other) ==>
               ToDeliver(s, v, other) && t.inFlight[(v, other)] == s.inFlight[(v, other)] && (v, other) != (worker, id)
    ensures CallsOk(t)
  {}

  // A claim has an attempt that no other claim of the message has had.
  lemma CallsClaimed(s: System, t: System, worker: WorkerId, id: MessageId)
    requires CallsOk(s) && WorksOk(s) && t.calls == s.calls && id in s.rows
    requires forall other :: other in s.rows ==> other in t.rows && s.rows[other].attemptCount <= t.rows[other].attemptCount
    requires ToDeliver(t, worker, id) ==> t.inFlight[(worker, id)].attempt == s.rows[id].attemptCount + 1
    requires forall v: WorkerId, other: MessageId :: ToDeliver(t, v, other) && (v, other) != (worker, id) ==>
               ToDeliver(s, v, other) && t.inFlight[(v, other)] == s.inFlight[(v, other)]
    ensures CallsOk(t)
  {
    forall v: WorkerId, other: MessageId | ToDeliver(t, v, other) && (v, other) != (worker, id)
      ensures t.inFlight[(v, other)].attempt <= s.rows[other].attemptCount
    {
      assert WorkOk(s.rows[other], v, s.inFlight[(v, other)], s.now);
    }
  }

  lemma ClaimKeepsInv(s: System, worker: WorkerId, id: MessageId, leaseMs: nat)
    requires Inv(s) && Enabled(s, Claim(worker, id, leaseMs))
    ensures Inv(ApplyClaim(s, worker, id, leaseMs))
  {
    var t := ApplyClaim(s, worker, id, leaseMs);
    assert RowOk(s.rows[id]);
    assert ChangedAt(s, t, worker, id);
    RowsKept(s, t, worker, id);
    RecordsKept(s, t, worker, id);
    WorksKept(s, t, worker, id);
    CallsClaimed(s, t, worker, id);
  }

  lemma DeliveredRow(r: Row, worker: WorkerId, checkedAt: int, now: int, f: Findings, attempt: nat)
    requires RowOk(r) && WorkOk(r, worker, Claimed(attempt, false), now) && checkedAt <= now
    ensures RowOk(DeliverRow(r, worker, checkedAt, now, f))
    ensures match DeliverResult(r, worker, checkedAt, now, f)
            case Done => true
            case Permanent(code) => WorkOk(DeliverRow(r, worker, checkedAt, now, f), worker, Failed(attempt, false, code), now)
            case Retryable(code) => WorkOk(DeliverRow(r, worker, checkedAt, now, f), worker, Failed(attempt, true, code), now)
  {}

  lemma DeliverChanges(s: System, worker: WorkerId, id: MessageId, checkedAt: int, f: Findings)
    requires Inv(s) && Enabled(s, Deliver(worker, id, checkedAt, f))
    ensures var t := ApplyDeliver(s, worker, id, checkedAt, f);
            && ChangedAt(s, t, worker, id) && RowOk(t.rows[id])
            && ((worker, id) in t.inFlight ==> WorkOk(t.rows[id], worker, t.inFlight[(worker, id)], t.now))
            && !ToDeliver(t, worker, id)
  {
    assert RowOk(s.rows[id]) && WorkOk(s.rows[id], worker, s.inFlight[(worker, id)], s.now);
    DeliveredRow(s.rows[id], worker, checkedAt, s.now, f, s.inFlight[(worker, id)].attempt);
  }

  lemma DeliverKeepsInv(s: System, worker: WorkerId, id: MessageId, checkedAt: int, f: Findings)
    requires Inv(s) && Enabled(s, Deliver(worker, id, checkedAt, f))
    ensures Inv(ApplyDeliver(s, worker, id, checkedAt, f))
  {
    var t, attempt := ApplyDeliver(s, worker, id, checkedAt, f), s.inFlight[(worker, id)].attempt;
    assert WorkOk(s.rows[id], worker, s.inFlight[(worker, id)], s.now);
    DeliverChanges(s, worker, id, checkedAt, f);
    RowsKept(s, t, worker, id);
    RecordsKept(s, t, worker, id);
    WorksKept(s, t, worker, id);
    CallsGrown(s, t, worker, id, attempt);
  }

  lemma SettleKeepsInv(s: System, worker: WorkerId, id: MessageId)
    requires Inv(s) && Enabled(s, Settle(worker, id))
    ensures Inv(ApplySettle(s, worker, id))
  {
    var t := ApplySettle(s, worker, id);
    assert RowOk(s.rows[id]) && WorkOk(s.rows[id], worker, s.inFlight[(worker, id)], s.now);
    assert ChangedAt(s, t, worker, id);
    RowsKept(s, t, worker, id);
    RecordsKept(s, t, worker, id);
    WorksKept(s, t, worker, id);
    CallsKept(s, t);
  }

  lemma EnqueueKeepsInv(s: System, step: Step)
    requires Inv(s) && Enabled(s, step) && step.Enqueue?
    ensures Inv(Apply(s, step))
  {
    var t := Apply(s, step);
    forall v: WorkerId, other: MessageId | (v, other) in t.inFlight
      ensures other in t.rows && WorkOk(t.rows[other], v, t.inFlight[(v, other)], t.now)
    {
      assert WorkOk(s.rows[other], v, s.inFlight[(v, other)], s.now);
    }
    CallsKept(s, t);
  }

  lemma QuietStepKeepsInv(s: System, step: Step)
    requires Inv(s) && Enabled(s, step) && (step.Tick? || step.Crash?)
    ensures Inv(Apply(s, step))
  {
    var t := Apply(s, step);
    forall v: WorkerId, other: MessageId | (v, other) in t.inFlight
      ensures other in t.rows && WorkOk(t.rows[other], v, t.inFlight[(v, other)], t.now)
    {
      assert WorkOk(s.rows[other], v, s.inFlight[(v, other)], s.now);
    }
    CallsKept(s, t);
  }

  lemma StepKeepsInv(s: System, step: Step)
    requires Inv(s) && Enabled(s, step)
    ensures Inv(Apply(s, step))
  {
    match step {
      case Claim(worker, id, leaseMs) => ClaimKeepsInv(s, worker, id, leaseMs);
      case Deliver(worker, id, checkedAt, f) => DeliverKeepsInv(s, worker, id, checkedAt, f);
      case Settle(worker, id) => SettleKeepsInv(s, worker, id);
      case Enqueue(_, _, _) => EnqueueKeepsInv(s, step);
      case _ => QuietStepKeepsInv(s, step);
    }
  }

  // ---------- Runs ----------

  function Initial(now: int): System {
    System(map[], multiset{}, multiset{}, now, map[], multiset{})
  }

  // Every step of the run is enabled where it is made.
  ghost predicate IsRun(s: System, steps: seq<Step>)
    decreases |steps|
  {
    steps == [] || (Enabled(s, steps[0]) && IsRun(Apply(s, steps[0]), steps[1..]))
  }

  ghost function After(s: System, steps: seq<Step>): System
    requires IsRun(s, steps)
    decreases |steps|
  {
    if steps == [] then s else After(Apply(s, steps[0]), steps[1..])
  }

  lemma {:induction false} RunsKeepInv(s: System, steps: seq<Step>)
    requires Inv(s) && IsRun(s, steps)
    ensures Inv(After(s, steps))
    decreases |steps|
  {
    if steps != [] {
      StepKeepsInv(s, steps[0]);
      RunsKeepInv(Apply(s, steps[0]), steps[1..]);
    }
  }

  predicate IsSettled(r: Row) {
    r.status.Delivered? || r.status.DeadLetter?
  }

  // A message that is delivered or dead stays as it is, whatever the workers still do with it.
  lemma {:induction false} SettledForGood(s: System, steps: seq<Step>, id: MessageId)
    requires IsRun(s, steps) && id in s.rows && IsSettled(s.rows[id])
    ensures id in After(s, steps).rows && After(s, steps).rows[id] == s.rows[id]
    decreases |steps|
  {
    if steps != [] {
      SettledForGood(Apply(s, steps[0]), steps[1..], id);
    }
  }

  function CallsUpTo(calls: multiset<(MessageId, nat)>, id: MessageId, n: nat): nat {
    if n == 0 then 0 else CallsUpTo(calls, id, n - 1) + calls[(id, n)]
  }

  lemma {:induction false} FewCalls(calls: multiset<(MessageId, nat)>, id: MessageId, n: nat)
    requires forall attempt: nat :: calls[(id, attempt)] <= 1
    ensures CallsUpTo(calls, id, n) <= n
  {
    if n > 0 {
      FewCalls(calls, id, n - 1);
    }
  }

  // What holds of every message after every run: at most five attempts and five calls of the
  // delivery provider, none for an attempt beyond the fifth; no pending message has used up
  // its attempts; a delivered message has exactly one notification; a dead one is recorded
  // exactly once, and is not dead because of a lost lease.
  lemma EveryRunIsSafe(now: int, steps: seq<Step>, id: MessageId)
    requires IsRun(Initial(now), steps) && id in After(Initial(now), steps).rows
    ensures var s := After(Initial(now), steps);
            var r := s.rows[id];
            && r.attemptCount <= MAX_DELIVERY_ATTEMPTS
            && CallsUpTo(s.calls, id, MAX_DELIVERY_ATTEMPTS) <= MAX_DELIVERY_ATTEMPTS
            && (forall attempt: nat :: (id, attempt) in s.calls ==> 1 <= attempt <= MAX_DELIVERY_ATTEMPTS)
            && (r.status.Pending? ==> r.attemptCount < MAX_DELIVERY_ATTEMPTS)
            && (r.status.Delivered? ==> s.notifications[(r.alert, r.recipient)] == 1)
            && s.notifications[(r.alert, r.recipient)] <= 1
            && s.deadLetterEvents[id] == (if r.status.DeadLetter? then 1 else 0)
            && (r.status.DeadLetter? ==> r.lastError != Some(LeaseLost))
  {
    RunsKeepInv(Initial(now), steps);
    var s := After(Initial(now), steps);
    assert RowOk(s.rows[id]);
    FewCalls(s.calls, id, MAX_DELIVERY_ATTEMPTS);
  }

  function DueFrom(r: Row): int {
    if r.status.Processing? && r.lease.Some? then r.lease.value.1 else r.availableAt
  }

  // No message is ever stuck: one that is not settled is due from some time on.
  lemma NothingIsStuck(now: int, steps: seq<Step>, id: MessageId, t: int)
    requires IsRun(Initial(now), steps) && id in After(Initial(now), steps).rows
    requires !IsSettled(After(Initial(now), steps).rows[id])
    ensures Due(After(Initial(now), steps).rows[id], t) <==> t >= DueFrom(After(Initial(now), steps).rows[id])
  {
    RunsKeepInv(Initial(now), steps);
    assert RowOk(After(Initial(now), steps).rows[id]);
  }

  // ---------- What does not hold ----------

  const GOOD := Findings(true, true, true, true, true, true, false, false)

  // The lease runs out between the check and the mark, so the message is claimed again, and
  // by then the recipient has left.
  const UNLUCKY: seq<Step> := [
    Enqueue(7, 1, 2), Claim(0, 7, 5000), Tick(6000), Deliver(0, 7, 1000, GOOD), Settle(0, 7),
    Claim(0, 7, 5000), Deliver(0, 7, 6000, GOOD.(member := false)), Settle(0, 7)]

  function Snapshot(row: Row, notified: bool, now: int, work: Option<Work>, calls: nat): System {
    System(map[7 := row], if notified then multiset{(1, 2)} else multiset{},
           if row.status.DeadLetter? then multiset{7} else multiset{}, now,
           if work.Some? then map[(0, 7) := work.value] else map[],
           if calls == 0 then multiset{} else if calls == 1 then multiset{(7, 1)} else multiset{(7, 1), (7, 2)})
  }

  ghost predicate Moves(s: System, step: Step, t: System) {
    Enabled(s, step) && Apply(s, step) == t
  }

  const CLAIMED_ROW := Row(1, 2, Processing, 1, 0, Some((0, 5000)), None)
  const RECLAIMED_ROW := Row(1, 2, Processing, 2, 0, Some((0, 11000)), None)

  lemma UnluckyClaim(queued: System, claimed: System, late: System)
    requires queued == Snapshot(Row(1, 2, Pending, 0, 0, None, None), false, 0, None, 0)
    requires claimed == Snapshot(CLAIMED_ROW, false, 0, Some(Claimed(1, false)), 0)
    requires late == Snapshot(CLAIMED_ROW, false, 6000, Some(Claimed(1, false)), 0)
    ensures Moves(Initial(0), UNLUCKY[0], queued) && Moves(queued, UNLUCKY[1], claimed) && Moves(claimed, UNLUCKY[2], late)
  {}

  lemma UnluckyDelivery(late: System, failed: System)
    requires late == Snapshot(CLAIMED_ROW, false, 6000, Some(Claimed(1, false)), 0)
    requires failed == Snapshot(CLAIMED_ROW, true, 6000, Some(Failed(1, false, LeaseLost)), 1)
    ensures Moves(late, UNLUCKY[3], failed)
  {
    assert Notifies(CLAIMED_ROW, 0, 1000, GOOD) && !Owned(CLAIMED_ROW, 0, 6000);
    assert DeliverResult(CLAIMED_ROW, 0, 1000, 6000, GOOD) == Permanent(LeaseLost);
  }

  lemma UnluckySettlement(failed: System, free: System)
    requires failed == Snapshot(CLAIMED_ROW, true, 6000, Some(Failed(1, false, LeaseLost)), 1)
    requires free == Snapshot(CLAIMED_ROW, true, 6000, None, 1)
    ensures Moves(failed, UNLUCKY[4], free)
  {}

  lemma UnluckyReclaim(free: System, reclaimed: System)
    requires free == Snapshot(CLAIMED_ROW, true, 6000, None, 1)
    requires reclaimed == Snapshot(RECLAIMED_ROW, true, 6000, Some(Claimed(2, false)), 1)
    ensures Moves(free, UNLUCKY[5], reclaimed)
  {}

  lemma UnluckyRefusal(reclaimed: System, refused: System)
    requires reclaimed == Snapshot(RECLAIMED_ROW, true, 6000, Some(Claimed(2, false)), 1)
    requires refused == Snapshot(RECLAIMED_ROW, true, 6000, Some(Failed(2, false, MembershipRevoked)), 2)
    ensures Moves(reclaimed, UNLUCKY[6], refused)
  {
    assert DeliverResult(RECLAIMED_ROW, 0, 6000, 6000, GOOD.(member := false)) == Permanent(MembershipRevoked);
  }

  lemma UnluckyDeath(refused: System, dead: System)
    requires refused == Snapshot(RECLAIMED_ROW, true, 6000, Some(Failed(2, false, MembershipRevoked)), 2)
    requires dead == Snapshot(Row(1, 2, DeadLetter, 2, 0, None, Some(MembershipRevoked)), true, 6000, None, 2)
    ensures Moves(refused, UNLUCKY[7], dead)
  {}

  lemma RunFrom(s: System, step: Step, t: System, steps: seq<Step>)
    requires steps != [] && steps[0] == step && Moves(s, step, t) && IsRun(t, steps[1..])
    ensures IsRun(s, steps) && After(s, steps) == After(t, steps[1..])
  {}

  // A run through the given states.
  lemma {:induction false} RunThrough(states: seq<System>, steps: seq<Step>)
    requires |states| == |steps| + 1
    requires forall i: nat :: i < |steps| ==> Moves(states[i], steps[i], states[i + 1])
    ensures IsRun(states[0], steps) && After(states[0], steps) == states[|steps|]
    decreases |steps|
  {
    if steps != [] {
      assert Moves(states[0], steps[0], states[1]);
      forall i: nat | i < |steps[1..]| ensures Moves(states[1..][i], steps[1..][i], states[1..][i + 1]) {
        assert Moves(states[i + 1], steps[i + 1], states[i + 2]);
      }
      RunThrough(states[1..], steps[1..]);
      RunFrom(states[0], steps[0], states[1], steps);
    }
  }

  // So a recipient can have the notification of a message that ends up dead.
  lemma DeadButNotified()
    ensures IsRun(Initial(0), UNLUCKY)
    ensures var s := After(Initial(0), UNLUCKY);
            7 in s.rows && s.rows[7].status.DeadLetter? && s.notifications == multiset{(s.rows[7].alert, s.rows[7].recipient)}
  {
    var queued := Snapshot(Row(1, 2, Pending, 0, 0, None, None), false, 0, None, 0);
    var claimed := Snapshot(CLAIMED_ROW, false, 0, Some(Claimed(1, false)), 0);
    var late := Snapshot(CLAIMED_ROW, false, 6000, Some(Claimed(1, false)), 0);
    var failed := Snapshot(CLAIMED_ROW, true, 6000, Some(Failed(1, false, LeaseLost)), 1);
    var free := Snapshot(CLAIMED_ROW, true, 6000, None, 1);
    var reclaimed := Snapshot(RECLAIMED_ROW, true, 6000, Some(Claimed(2, false)), 1);
    var refused := Snapshot(RECLAIMED_ROW, true, 6000, Some(Failed(2, false, MembershipRevoked)), 2);
    var dead := Snapshot(Row(1, 2, DeadLetter, 2, 0, None, Some(MembershipRevoked)), true, 6000, None, 2);
    UnluckyClaim(queued, claimed, late);
    UnluckyDelivery(late, failed);
    UnluckySettlement(failed, free);
    UnluckyReclaim(free, reclaimed);
    UnluckyRefusal(reclaimed, refused);
    UnluckyDeath(refused, dead);
    EightMoves(Initial(0), queued, claimed, late, failed, free, reclaimed, refused, dead, UNLUCKY);
  }

  lemma EightMoves(
    a: System, b: System, c: System, d: System, e: System, f: System, g: System, h: System, i: System, steps: seq<Step>)
    requires |steps| == 8
    requires Moves(a, steps[0], b) && Moves(b, steps[1], c) && Moves(c, steps[2], d) && Moves(d, steps[3], e)
    requires Moves(e, steps[4], f) && Moves(f, steps[5], g) && Moves(g, steps[6], h) && Moves(h, steps[7], i)
    ensures IsRun(a, steps) && After(a, steps) == i
  {
    var states := [a, b, c, d, e, f, g, h, i];
    RunThrough(states, steps);
  }

  // Without the assumption of one processing in flight per worker, a late settlement can
  // leave a message that is never due again: exactly when the worker has meanwhile claimed
  // the message for its last attempt, and settles an earlier one as retryable.
  lemma StuckAfterSettlement(r: Row, worker: WorkerId, now: int, attempt: nat, retryable: bool, code: ErrorCode)
    requires RowOk(r)
    ensures (SettleRow(r, worker, now, attempt, retryable, code).status.Pending?
             && forall t :: !Due(SettleRow(r, worker, now, attempt, retryable, code), t))
       <==> Owned(r, worker, now) && retryable && 1 <= attempt < MAX_DELIVERY_ATTEMPTS && r.attemptCount == MAX_DELIVERY_ATTEMPTS
  {
    var after := SettleRow(r, worker, now, attempt, retryable, code);
    if after.status.Pending? && after.attemptCount < MAX_DELIVERY_ATTEMPTS {
      assert Due(after, after.availableAt);
    }
  }
}
