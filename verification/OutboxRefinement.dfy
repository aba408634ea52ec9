/** The statements on the tables of the outbox are steps of its transition system. */
module OutboxRefinement {
  import opened Outcomes
  import opened Outbox
  import opened OutboxRuns

  // The tables are those of the system.
  ghost predicate Shows(store: Store, s: System)
    reads store
  {
    && store.Valid() && store.rows == s.rows
    && store.notifications == s.notifications && store.deadLetterEvents == s.deadLetterEvents
  }

  function Claims(worker: WorkerId, claimed: seq<MessageId>, leaseMs: nat): (r: seq<Step>)
    ensures |r| == |claimed| && forall i :: 0 <= i < |r| ==> r[i] == Claim(worker, claimed[i], leaseMs)
  {
    seq(|claimed|, i requires 0 <= i < |claimed| => Claim(worker, claimed[i], leaseMs))
  }

  ghost predicate Claimable(s: System, worker: WorkerId, claimed: seq<MessageId>) {
    && (forall i, j :: 0 <= i < j < |claimed| ==> claimed[i] != claimed[j])
    && forall id :: id in claimed ==> id in s.rows && Due(s.rows[id], s.now) && (worker, id) !in s.inFlight
  }

  // Claiming distinct due messages one after the other is a run; it claims each of them, puts
  // it into the hands of the worker, and changes nothing else.
  lemma {:induction false} ClaimsAreARun(s: System, worker: WorkerId, claimed: seq<MessageId>, leaseMs: nat)
    requires Claimable(s, worker, claimed)
    ensures IsRun(s, Claims(worker, claimed, leaseMs))
    ensures var t := After(s, Claims(worker, claimed, leaseMs));
            && t.rows.Keys == s.rows.Keys
            && (forall id :: id in s.rows ==>
                  t.rows[id] == if id in claimed then ClaimRow(s.rows[id], worker, s.now, leaseMs) else s.rows[id])
            && t.notifications == s.notifications && t.deadLetterEvents == s.deadLetterEvents && t.now == s.now && t.calls == s.calls
            && (forall id :: id in claimed ==>
                  (worker, id) in t.inFlight
                  && t.inFlight[(worker, id)] == Claimed(t.rows[id].attemptCount, Exhausted(s.rows[id])))
            && (forall v: WorkerId, id: MessageId :: v != worker || id !in claimed ==>
                  ((v, id) in t.inFlight <==> (v, id) in s.inFlight)
                  && ((v, id) in s.inFlight ==> t.inFlight[(v, id)] == s.inFlight[(v, id)]))
    decreases |claimed|
  {
    if claimed != [] {
      var first := ApplyClaim(s, worker, claimed[0], leaseMs);
      assert claimed == [claimed[0]] + claimed[1..];
      assert claimed[0] !in claimed[1..];
      assert Claims(worker, claimed, leaseMs)[1..] == Claims(worker, claimed[1..], leaseMs);
      ClaimsAreARun(first, worker, claimed[1..], leaseMs);
    }
  }

  // The due messages that a worker claims in one statement are claimed by a run of the system.
  method ClaimDueRefines(
    store: Store, ghost s: System, worker: WorkerId, batchSize: int, leaseSeconds: int, now: int, locked: set<MessageId>)
    returns (claimed: seq<MessageId>)
    requires Shows(store, s) && now == s.now
    requires forall id :: id in s.rows && Due(s.rows[id], now) && id !in locked ==> (worker, id) !in s.inFlight
    modifies store
    ensures IsRun(s, Claims(worker, claimed, LeaseMs(leaseSeconds)))
    ensures Shows(store, After(s, Claims(worker, claimed, LeaseMs(leaseSeconds))))
  {
    claimed := store.ClaimDue(worker, batchSize, leaseSeconds, now, locked);
    ClaimsAreARun(s, worker, claimed, LeaseMs(leaseSeconds));
    assert store.rows == After(s, Claims(worker, claimed, LeaseMs(leaseSeconds))).rows;
  }

  // What the worker does next with the result of a delivery.
  function Remaining(result: Delivery, attempt: nat): Option<Work> {
    match result
    case Done => None
    case Permanent(code) => Some(Failed(attempt, false, code))
    case Retryable(code) => Some(Failed(attempt, true, code))
  }

  ghost predicate Holds(s: System, worker: WorkerId, id: MessageId, work: Option<Work>) {
    if work.Some? then (worker, id) in s.inFlight && s.inFlight[(worker, id)] == work.value else (worker, id) !in s.inFlight
  }

  // A delivery transaction is the delivery step, and its result says what is left to settle.
  method DeliverRefines(store: Store, ghost s: System, worker: WorkerId, id: MessageId, checkedAt: int, now: int, f: Findings)
    returns (result: Delivery)
    requires Shows(store, s) && now == s.now && Enabled(s, Deliver(worker, id, checkedAt, f))
    modifies store
    ensures Shows(store, Apply(s, Deliver(worker, id, checkedAt, f)))
    ensures Holds(Apply(s, Deliver(worker, id, checkedAt, f)), worker, id, Remaining(result, s.inFlight[(worker, id)].attempt))
  {
    result := store.Deliver(id, worker, checkedAt, now, f);
    assert store.rows == s.rows[id := DeliverRow(s.rows[id], worker, checkedAt, now, f)];
  }

  // Settling what a worker holds, as it holds it, is the settlement step.
  method SettleRefines(store: Store, ghost s: System, worker: WorkerId, id: MessageId, work: Work, now: int)
    returns (outcome: Settlement)
    requires Shows(store, s) && now == s.now && Enabled(s, Settle(worker, id)) && work == s.inFlight[(worker, id)]
    modifies store
    ensures Shows(store, Apply(s, Settle(worker, id)))
    ensures outcome.DeadLettered? <==> s.rows[id] != Apply(s, Settle(worker, id)).rows[id]
                                       && Apply(s, Settle(worker, id)).rows[id].status.DeadLetter?
  {
    var (retryable, code) := ToSettle(work);
    outcome := store.RetryOrDeadLetter(id, worker, work.attempt, retryable, code, now);
    assert store.rows == s.rows[id := SettleRow(s.rows[id], worker, now, work.attempt, retryable, code)];
  }
}
