/** The notification outbox: a leased work queue shared by workers that may crash at any
    point. A row lock is held until its transaction commits, so a transaction is one step. */
module Outbox {
  import opened Outcomes
  import Sorting

  // Messages, workers, alerts and users by identifier; times are milliseconds of the database clock.
  type MessageId = nat
  type WorkerId = nat
  type AlertId = nat
  type UserId = nat

  const MAX_DELIVERY_ATTEMPTS := 5
  const RETRY_DELAYS_SECONDS: seq<nat> := [15, 60, 300, 900]

  datatype Status = Pending | Processing | Delivered | DeadLetter

  datatype ErrorCode =
    | LeaseLost | TemplateInvalid | ActionTargetInvalid | MembershipRevoked | NoLongerEligible
    | TimeUnavailable | Transient | AttemptsExhausted

  // The lease holds the worker and the time it runs out; only a message in processing has one.
  datatype Row = Row(
    alert: AlertId, recipient: UserId, status: Status, attemptCount: nat, availableAt: int,
    lease: Option<(WorkerId, int)>, lastError: Option<ErrorCode>)

  // ---------- Single rows ----------

  function RetryDelaySeconds(attemptCount: nat): (r: Option<nat>)
    ensures r.Some? <==> 1 <= attemptCount < MAX_DELIVERY_ATTEMPTS
    ensures attemptCount == 1 ==> r == Some(15)
    ensures attemptCount == 2 ==> r == Some(60)
    ensures attemptCount == 3 ==> r == Some(300)
    ensures attemptCount == 4 ==> r == Some(900)
  {
    if attemptCount < 1 || attemptCount >= MAX_DELIVERY_ATTEMPTS then None
    else Some(RETRY_DELAYS_SECONDS[attemptCount - 1])
  }

  predicate Exhausted(r: Row) {
    r.status.Processing? && r.attemptCount >= MAX_DELIVERY_ATTEMPTS
  }

  predicate Due(r: Row, now: int) {
    && ((r.status.Pending? && r.availableAt <= now)
        || (r.status.Processing? && r.lease.Some? && r.lease.value.1 <= now))
    && (r.attemptCount < MAX_DELIVERY_ATTEMPTS
        || (r.status.Processing? && r.attemptCount == MAX_DELIVERY_ATTEMPTS))
  }

  predicate Owned(r: Row, worker: WorkerId, now: int) {
    r.status.Processing? && r.lease.Some? && r.lease.value.0 == worker && r.lease.value.1 > now
  }

  function ClaimRow(r: Row, worker: WorkerId, now: int, leaseMs: nat): Row {
    r.(status := Processing,
       attemptCount := if Exhausted(r) then r.attemptCount else r.attemptCount + 1,
       lease := Some((worker, now + leaseMs)))
  }

  datatype Settlement = RetryScheduled | DeadLettered | LostLease

  function SettleOutcome(r: Row, worker: WorkerId, now: int, attempt: nat, retryable: bool): Settlement {
    if !Owned(r, worker, now) then LostLease
    else if retryable && RetryDelaySeconds(attempt).Some? then RetryScheduled
    else DeadLettered
  }

  function SettleRow(r: Row, worker: WorkerId, now: int, attempt: nat, retryable: bool, code: ErrorCode): Row {
    match SettleOutcome(r, worker, now, attempt, retryable)
    case LostLease => r
    case RetryScheduled =>
      r.(status := Pending, availableAt := now + RetryDelaySeconds(attempt).value * 1000, lease := None, lastError := Some(code))
    case DeadLettered => r.(status := DeadLetter, lease := None, lastError := Some(code))
  }

  // What a delivery finds out about the message and its recipient. The transaction may throw
  // and be rolled back, and the answer to its commit may be lost.
  datatype Findings = Findings(
    templateValid: bool, actionTargetValid: bool, member: bool, privileged: bool, creatorEligible: bool,
    timeAvailable: bool, throws: bool, answerLost: bool)

  datatype Delivery = Done | Permanent(code: ErrorCode) | Retryable(code: ErrorCode)

  // The verdict of the transaction before it writes anything; None when it goes on to write.
  function Refusal(r: Row, worker: WorkerId, checkedAt: int, f: Findings): Option<Delivery> {
    if !Owned(r, worker, checkedAt) then Some(Permanent(LeaseLost))
    else if !f.templateValid then Some(Permanent(TemplateInvalid))
    else if !f.actionTargetValid then Some(Permanent(ActionTargetInvalid))
    else if !f.member then Some(Permanent(MembershipRevoked))
    else if !f.privileged && !f.creatorEligible then Some(Permanent(NoLongerEligible))
    else if !f.timeAvailable then Some(Retryable(TimeUnavailable))
    else None
  }

  // Ownership is checked when the row is locked, and once more when the message is marked.
  function DeliverRow(r: Row, worker: WorkerId, checkedAt: int, deliveredAt: int, f: Findings): Row {
    if f.throws || Refusal(r, worker, checkedAt, f).Some? || !Owned(r, worker, deliveredAt) then r
    else r.(status := Delivered, lease := None, lastError := None)
  }

  predicate Notifies(r: Row, worker: WorkerId, checkedAt: int, f: Findings) {
    !f.throws && Refusal(r, worker, checkedAt, f).None?
  }

  function DeliverResult(r: Row, worker: WorkerId, checkedAt: int, deliveredAt: int, f: Findings): Delivery {
    if f.throws || f.answerLost then Retryable(Transient)
    else
      match Refusal(r, worker, checkedAt, f)
      case Some(d) => d
      case None => if Owned(r, worker, deliveredAt) then Done else Permanent(LeaseLost)
  }

  function Upsert<T>(m: multiset<T>, key: T): multiset<T> {
    if key in m then m else m + multiset{key}
  }

  // ---------- The tables and the statements on them ----------

  class Store {
    // The messages in the order of the table.
    var ids: seq<MessageId>
    var rows: map<MessageId, Row>
    var notifications: multiset<(AlertId, UserId)>
    var deadLetterEvents: multiset<MessageId>

    ghost predicate Valid()
      reads this
    {
      && (forall i, j :: 0 <= i < j < |ids| ==> ids[i] != ids[j])
      && (forall id :: id in ids <==> id in rows)
    }

    constructor ()
      ensures Valid() && rows == map[] && notifications == multiset{} && deadLetterEvents == multiset{}
    {
      ids, rows, notifications, deadLetterEvents := [], map[], multiset{}, multiset{};
    }

    method CollectDue(now: int, locked: set<MessageId>) returns (due: seq<MessageId>)
      requires Valid()
      ensures forall a, b :: 0 <= a < b < |due| ==> due[a] != due[b]
      ensures forall id :: id in due <==> id in rows && id !in locked && Due(rows[id], now)
    {
      due := [];
      for i := 0 to |ids|
        invariant forall id :: id in due ==> id in ids[..i]
        invariant forall id :: id in ids[..i] ==> id in rows && (id in due <==> id !in locked && Due(rows[id], now))
        invariant forall a, b :: 0 <= a < b < |due| ==> due[a] != due[b]
      {
        assert ids[..i + 1] == ids[..i] + [ids[i]];
        assert ids[i] !in ids[..i];
        if ids[i] !in locked && Due(rows[ids[i]], now) {
          due := due + [ids[i]];
        }
      }
      assert ids[..|ids|] == ids;
    }

    method ClaimAll(claimed: seq<MessageId>, worker: WorkerId, now: int, leaseMs: nat)
      requires Valid()
      requires forall id :: id in claimed ==> id in rows
      requires forall i, j :: 0 <= i < j < |claimed| ==> claimed[i] != claimed[j]
      modifies this`rows
      ensures Valid() && rows.Keys == old(rows).Keys
      ensures forall id :: id in rows ==>
                rows[id] == if id in claimed then ClaimRow(old(rows)[id], worker, now, leaseMs) else old(rows)[id]
    {
      ghost var table := rows;
      for i := 0 to |claimed|
        invariant Valid() && rows.Keys == table.Keys
        invariant forall id :: id in rows ==>
                    rows[id] == if id in claimed[..i] then ClaimRow(table[id], worker, now, leaseMs) else table[id]
      {
        var id := claimed[i];
        assert claimed[..i + 1] == claimed[..i] + [id];
        assert id !in claimed[..i];
        rows := rows[id := ClaimRow(rows[id], worker, now, leaseMs)];
      }
      assert claimed[..|claimed|] == claimed;
    }

    // Claims the first due messages that no other transaction has locked.
    method ClaimDue(worker: WorkerId, batchSize: int, leaseSeconds: int, now: int, locked: set<MessageId>)
      returns (claimed: seq<MessageId>)
      requires Valid()
      modifies this`rows
      ensures Valid() && rows.Keys == old(rows).Keys
      ensures |claimed| <= Batch(batchSize)
      ensures forall i, j :: 0 <= i < j < |claimed| ==> claimed[i] != claimed[j]
      ensures forall id :: id in claimed ==> id in old(rows) && id !in locked && Due(old(rows)[id], now)
      ensures forall id :: id in rows ==>
                rows[id] == if id in claimed then ClaimRow(old(rows)[id], worker, now, LeaseMs(leaseSeconds)) else old(rows)[id]
      ensures forall id :: id in old(rows) && id !in locked && Due(old(rows)[id], now) && id !in claimed ==>
                |claimed| == Batch(batchSize) && forall c :: c in claimed ==> Earlier(old(rows), c, id)
    {
      var due := CollectDue(now, locked);
      var table := rows;
      var sorted := Sorting.Sort((a: MessageId, b: MessageId) => Earlier(table, a, b), due);
      SortedDue(table, due);
      claimed := if |sorted| <= Batch(batchSize) then sorted else sorted[..Batch(batchSize)];
      FirstOfSorted(table, sorted, |claimed|);
      assert claimed == sorted[..|claimed|];
      ClaimAll(claimed, worker, now, LeaseMs(leaseSeconds));
    }

    method RetryOrDeadLetter(id: MessageId, worker: WorkerId, attempt: nat, retryable: bool, code: ErrorCode, now: int)
      returns (outcome: Settlement)
      requires Valid()
      modifies this`rows, this`deadLetterEvents
      ensures Valid() && rows.Keys == old(rows).Keys
      ensures id !in rows ==> outcome.LostLease?
      ensures id in rows ==> outcome == SettleOutcome(old(rows)[id], worker, now, attempt, retryable)
      ensures id in rows ==> rows[id] == SettleRow(old(rows)[id], worker, now, attempt, retryable, code)
      ensures forall other :: other in rows && other != id ==> rows[other] == old(rows)[other]
      ensures deadLetterEvents == old(deadLetterEvents) + if outcome.DeadLettered? then multiset{id} else multiset{}
    {
      if id !in rows || !Owned(rows[id], worker, now) {
        return LostLease;
      }
      var delay := if retryable then RetryDelaySeconds(attempt) else None;
      match delay {
        case Some(seconds) =>
          rows := rows[id := rows[id].(status := Pending, availableAt := now + seconds * 1000, lease := None, lastError := Some(code))];
          outcome := RetryScheduled;
        case None =>
          rows := rows[id := rows[id].(status := DeadLetter, lease := None, lastError := Some(code))];
          deadLetterEvents := deadLetterEvents + multiset{id};
          outcome := DeadLettered;
      }
    }

    method Deliver(id: MessageId, worker: WorkerId, checkedAt: int, deliveredAt: int, f: Findings) returns (result: Delivery)
      requires Valid()
      modifies this`rows, this`notifications
      ensures Valid() && rows.Keys == old(rows).Keys
      ensures id in rows ==> result == DeliverResult(old(rows)[id], worker, checkedAt, deliveredAt, f)
      ensures id !in rows ==> result == if f.throws || f.answerLost then Retryable(Transient) else Permanent(LeaseLost)
      ensures id in rows ==> rows[id] == DeliverRow(old(rows)[id], worker, checkedAt, deliveredAt, f)
      ensures forall other :: other in rows && other != id ==> rows[other] == old(rows)[other]
      ensures notifications == if id in rows && Notifies(old(rows)[id], worker, checkedAt, f)
                               then Upsert(old(notifications), (old(rows)[id].alert, old(rows)[id].recipient))
                               else old(notifications)
    {
      if f.throws {
        return Retryable(Transient);
      }
      result := Permanent(LeaseLost);
      if id in rows {
        var row := rows[id];
        match Refusal(row, worker, checkedAt, f) {
          case Some(refusal) => result := refusal;
          case None =>
            notifications := Upsert(notifications, (row.alert, row.recipient));
            if Owned(row, worker, deliveredAt) {
              rows := rows[id := row.(status := Delivered, lease := None, lastError := None)];
              result := Done;
            }
        }
      }
      if f.answerLost {
        result := Retryable(Transient);
      }
    }
  }

  function Batch(batchSize: int): nat {
    if batchSize < 1 then 1 else if batchSize > 100 then 100 else batchSize
  }

  function LeaseMs(leaseSeconds: int): nat {
    (if leaseSeconds < 5 then 5 else if leaseSeconds > 300 then 300 else leaseSeconds) * 1000
  }

  // The order in which due messages are claimed. Messages that do not exist come last.
  predicate Earlier(rows: map<MessageId, Row>, a: MessageId, b: MessageId) {
    if a !in rows || b !in rows then a in rows || (b !in rows && a <= b)
    else rows[a].availableAt < rows[b].availableAt || (rows[a].availableAt == rows[b].availableAt && a <= b)
  }

  lemma SortedDue(rows: map<MessageId, Row>, due: seq<MessageId>)
    requires forall a, b :: 0 <= a < b < |due| ==> due[a] != due[b]
    ensures var sorted := Sorting.Sort((a: MessageId, b: MessageId) => Earlier(rows, a, b), due);
            && (forall id :: id in sorted <==> id in due)
            && (forall i, j :: 0 <= i < j < |sorted| ==> Earlier(rows, sorted[i], sorted[j]) && sorted[i] != sorted[j])
  {
    var order := (a: MessageId, b: MessageId) => Earlier(rows, a, b);
    var sorted := Sorting.Sort(order, due);
    assert Sorting.TotalPreorder(order);
    Sorting.SortSorts(order, due);
    Sorting.SortMembers(order, due);
    var key := (id: MessageId) => id;
    Sorting.SortKeepsKeysDifferent(order, key, due);
    forall i, j | 0 <= i < j < |sorted| ensures Earlier(rows, sorted[i], sorted[j]) && sorted[i] != sorted[j] {
      assert order(sorted[i], sorted[j]) && key(sorted[i]) != key(sorted[j]);
    }
  }

  lemma FirstOfSorted(rows: map<MessageId, Row>, sorted: seq<MessageId>, n: nat)
    requires n <= |sorted|
    requires forall i, j :: 0 <= i < j < |sorted| ==> Earlier(rows, sorted[i], sorted[j]) && sorted[i] != sorted[j]
    ensures forall id :: id in sorted && id !in sorted[..n] ==> n < |sorted| && forall c :: c in sorted[..n] ==> Earlier(rows, c, id)
  {
    forall id | id in sorted && id !in sorted[..n] ensures n < |sorted| && forall c :: c in sorted[..n] ==> Earlier(rows, c, id) {
      assert sorted == sorted[..n] + sorted[n..];
      var j :| 0 <= j < |sorted| - n && sorted[n..][j] == id;
      assert sorted[n + j] == id;
    }
  }
}
