/** One message of the outbox when a worker may have it in hand more than once: what can then
    go wrong for good, and exactly when. */
module OutboxOverlaps {
  import opened Outcomes
  import opened Outbox
  import opened OutboxRuns

  // The message, and what the workers hold of it.
  datatype Message = Message(row: Row, now: int, inHand: multiset<(WorkerId, Work)>)

  datatype Move =
    | Pass(ms: nat)
    | Take(worker: WorkerId, leaseMs: nat)
    | Attempt(worker: WorkerId, work: Work, checkedAt: int, findings: Findings)
    | Close(worker: WorkerId, work: Work)
    | Drop(worker: WorkerId, work: Work)

  predicate Possible(m: Message, move: Move) {
    match move
    case Pass(_) => true
    case Take(_, _) => Due(m.row, m.now)
    case Attempt(worker, work, checkedAt, _) =>
      (worker, work) in m.inHand && work.Claimed? && !work.exhausted && checkedAt <= m.now
    case Close(worker, work) => (worker, work) in m.inHand && (work.Failed? || work.exhausted)
    case Drop(worker, work) => (worker, work) in m.inHand
  }

  function AfterAttempt(result: Delivery, worker: WorkerId, attempt: nat): multiset<(WorkerId, Work)> {
    match result
    case Done => multiset{}
    case Permanent(code) => multiset{(worker, Failed(attempt, false, code))}
    case Retryable(code) => multiset{(worker, Failed(attempt, true, code))}
  }

  function Make(m: Message, move: Move): Message {
    match move
    case Pass(ms) => m.(now := m.now + ms)
    case Take(worker, leaseMs) =>
      var row := ClaimRow(m.row, worker, m.now, leaseMs);
      m.(row := row, inHand := m.inHand + multiset{(worker, Claimed(row.attemptCount, Exhausted(m.row)))})
    case Attempt(worker, work, checkedAt, f) =>
      m.(row := DeliverRow(m.row, worker, checkedAt, m.now, f),
         inHand := m.inHand - multiset{(worker, work)}
                   + AfterAttempt(DeliverResult(m.row, worker, checkedAt, m.now, f), worker, work.attempt))
    case Close(worker, work) =>
      var (retryable, code) := ToSettle(work);
      m.(row := SettleRow(m.row, worker, m.now, work.attempt, retryable, code), inHand := m.inHand - multiset{(worker, work)})
    case Drop(worker, work) => m.(inHand := m.inHand - multiset{(worker, work)})
  }

  ghost predicate IsCourse(m: Message, moves: seq<Move>)
    decreases |moves|
  {
    moves == [] || (Possible(m, moves[0]) && IsCourse(Make(m, moves[0]), moves[1..]))
  }

  function End(m: Message, moves: seq<Move>): Message
    decreases |moves|
  {
    if moves == [] then m else End(Make(m, moves[0]), moves[1..])
  }

  function Queued(alert: AlertId, recipient: UserId, now: int): Message {
    Message(Row(alert, recipient, Pending, 0, now, None, None), now, multiset{})
  }

  // ---------- Getting stuck ----------

  // Waiting to be claimed, but never due again.
  ghost predicate Stuck(r: Row) {
    r.status.Pending? && forall t :: !Due(r, t)
  }

  // An earlier attempt is settled as retryable by the worker that meanwhile holds the lease of
  // the last one.
  predicate SettlesTooLate(m: Message, move: Move) {
    && move.Close? && Owned(m.row, move.worker, m.now) && ToSettle(move.work).0
    && 1 <= move.work.attempt < MAX_DELIVERY_ATTEMPTS && m.row.attemptCount == MAX_DELIVERY_ATTEMPTS
  }

  ghost predicate EverTooLate(m: Message, moves: seq<Move>)
    decreases |moves|
  {
    moves != [] && (SettlesTooLate(m, moves[0]) || EverTooLate(Make(m, moves[0]), moves[1..]))
  }

  ghost predicate Shaped(r: Row) {
    && r.attemptCount <= MAX_DELIVERY_ATTEMPTS
    && (r.status.Processing? <==> r.lease.Some?) && (r.status.Processing? ==> r.attemptCount >= 1)
  }

  lemma StuckByCount(r: Row)
    requires Shaped(r)
    ensures Stuck(r) <==> r.status.Pending? && r.attemptCount == MAX_DELIVERY_ATTEMPTS
  {
    if r.status.Pending? && r.attemptCount < MAX_DELIVERY_ATTEMPTS {
      assert Due(r, r.availableAt);
    }
  }

  lemma MoveKeepsShape(m: Message, move: Move)
    requires Shaped(m.row) && Possible(m, move)
    ensures Shaped(Make(m, move).row)
  {}

  lemma StuckAfterMove(m: Message, move: Move)
    requires Shaped(m.row) && Possible(m, move)
    ensures Stuck(Make(m, move).row) <==> Stuck(m.row) || SettlesTooLate(m, move)
  {
    MoveKeepsShape(m, move);
    StuckByCount(m.row);
    StuckByCount(Make(m, move).row);
  }

  lemma {:induction false} StuckAfterMoves(m: Message, moves: seq<Move>)
    requires Shaped(m.row) && IsCourse(m, moves)
    ensures Stuck(End(m, moves).row) <==> Stuck(m.row) || EverTooLate(m, moves)
    decreases |moves|
  {
    if moves != [] {
      MoveKeepsShape(m, moves[0]);
      StuckAfterMove(m, moves[0]);
      StuckAfterMoves(Make(m, moves[0]), moves[1..]);
    }
  }

  // Whatever the workers do, a message is stuck in the end exactly when some settlement came
  // too late; and once stuck it stays so.
  lemma StuckExactlyWhen(alert: AlertId, recipient: UserId, now: int, moves: seq<Move>)
    requires IsCourse(Queued(alert, recipient, now), moves)
    ensures Stuck(End(Queued(alert, recipient, now), moves).row) <==> EverTooLate(Queued(alert, recipient, now), moves)
  {
    StuckByCount(Queued(alert, recipient, now).row);
    StuckAfterMoves(Queued(alert, recipient, now), moves);
  }

  // ---------- Without overlaps ----------

  // A worker takes the message only with nothing of it in hand.
  ghost predicate NeverOverlaps(m: Message, moves: seq<Move>)
    decreases |moves|
  {
    moves == []
    || ((moves[0].Take? ==> forall work :: (moves[0].worker, work) !in m.inHand) && NeverOverlaps(Make(m, moves[0]), moves[1..]))
  }

  // What a worker holds is about the last attempt, if the lease is the worker's.
  ghost predicate InHandOk(m: Message) {
    forall worker: WorkerId, work: Work :: (worker, work) in m.inHand ==>
      (m.row.lease.Some? && m.row.lease.value.0 == worker ==> work.attempt == m.row.attemptCount)
  }

  lemma MoveKeepsInHand(m: Message, move: Move)
    requires Shaped(m.row) && InHandOk(m) && Possible(m, move)
    requires move.Take? ==> forall work :: (move.worker, work) !in m.inHand
    ensures InHandOk(Make(m, move))
  {
    var t := Make(m, move);
    forall worker: WorkerId, work: Work | (worker, work) in t.inHand && t.row.lease.Some? && t.row.lease.value.0 == worker
      ensures work.attempt == t.row.attemptCount
    {
      if (worker, work) !in m.inHand && move.Attempt? {
        assert (move.worker, move.work) in m.inHand && move.worker == worker && move.work.attempt == work.attempt;
      }
    }
  }

  lemma {:induction false} NeverTooLate(m: Message, moves: seq<Move>)
    requires Shaped(m.row) && InHandOk(m) && IsCourse(m, moves) && NeverOverlaps(m, moves)
    ensures !EverTooLate(m, moves)
    decreases |moves|
  {
    if moves != [] {
      MoveKeepsShape(m, moves[0]);
      MoveKeepsInHand(m, moves[0]);
      NeverTooLate(Make(m, moves[0]), moves[1..]);
    }
  }

  // So a message only ever gets stuck when some worker takes it while still holding it.
  lemma StuckNeedsAnOverlap(alert: AlertId, recipient: UserId, now: int, moves: seq<Move>)
    requires IsCourse(Queued(alert, recipient, now), moves) && NeverOverlaps(Queued(alert, recipient, now), moves)
    ensures !Stuck(End(Queued(alert, recipient, now), moves).row)
  {
    NeverTooLate(Queued(alert, recipient, now), moves);
    StuckExactlyWhen(alert, recipient, now, moves);
  }

  // ---------- A message that gets stuck ----------

  lemma {:induction false} OneMoreMove(m: Message, moves: seq<Move>, move: Move)
    requires IsCourse(m, moves) && Possible(End(m, moves), move)
    ensures IsCourse(m, moves + [move]) && End(m, moves + [move]) == Make(End(m, moves), move)
    decreases |moves|
  {
    if moves == [] {
      assert [move][1..] == [];
    } else {
      assert (moves + [move])[1..] == moves[1..] + [move];
      OneMoreMove(Make(m, moves[0]), moves[1..], move);
    }
  }

  const LEASE: nat := 30000

  // One worker has taken the message n times, each time when the lease had run out, and none of
  // its processings has come to an end.
  function Hanging(n: nat): seq<Move> {
    if n == 0 then [] else Hanging(n - 1) + [Take(0, LEASE)] + [Pass(LEASE)]
  }

  function Held(n: nat): multiset<(WorkerId, Work)> {
    if n == 0 then multiset{} else Held(n - 1) + multiset{(0, Claimed(n, false))}
  }

  function Hung(n: nat): Message {
    if n == 0 then Queued(1, 2, 0)
    else Message(Row(1, 2, Processing, n, 0, Some((0, n * LEASE)), None), n * LEASE, Held(n))
  }

  lemma OneMoreHangs(n: nat)
    requires n < 4
    ensures Possible(Hung(n), Take(0, LEASE)) && Make(Make(Hung(n), Take(0, LEASE)), Pass(LEASE)) == Hung(n + 1)
  {}

  lemma TwoMoreMoves(m: Message, moves: seq<Move>, a: Move, b: Move)
    requires IsCourse(m, moves) && Possible(End(m, moves), a) && Possible(Make(End(m, moves), a), b)
    ensures IsCourse(m, moves + [a] + [b]) && End(m, moves + [a] + [b]) == Make(Make(End(m, moves), a), b)
  {
    OneMoreMove(m, moves, a);
    OneMoreMove(m, moves + [a], b);
  }

  lemma {:induction false} HangingIsACourse(n: nat)
    requires n <= 4
    ensures IsCourse(Queued(1, 2, 0), Hanging(n)) && End(Queued(1, 2, 0), Hanging(n)) == Hung(n)
  {
    if n > 0 {
      HangingIsACourse(n - 1);
      OneMoreHangs(n - 1);
      TwoMoreMoves(Queued(1, 2, 0), Hanging(n - 1), Take(0, LEASE), Pass(LEASE));
    }
  }

  const THROWS := GOOD.(throws := true)

  function FifthTaken(): Message {
    Message(Row(1, 2, Processing, 5, 0, Some((0, 150000)), None), 120000, Held(4) + multiset{(0, Claimed(5, false))})
  }

  function FourthFailed(): Message {
    FifthTaken().(inHand := FifthTaken().inHand - multiset{(0, Claimed(4, false))} + multiset{(0, Failed(4, true, Transient))})
  }

  lemma FifthIsTaken()
    ensures Possible(Hung(4), Take(0, LEASE)) && Make(Hung(4), Take(0, LEASE)) == FifthTaken()
  {}

  lemma FourthFails()
    ensures Possible(FifthTaken(), Attempt(0, Claimed(4, false), 120000, THROWS))
    ensures Make(FifthTaken(), Attempt(0, Claimed(4, false), 120000, THROWS)) == FourthFailed()
  {
    assert (0, Claimed(4, false)) in Held(4);
  }

  lemma FourthIsClosed()
    ensures Possible(FourthFailed(), Close(0, Failed(4, true, Transient)))
    ensures Stuck(Make(FourthFailed(), Close(0, Failed(4, true, Transient))).row)
  {
    StuckByCount(Make(FourthFailed(), Close(0, Failed(4, true, Transient))).row);
  }

  lemma ThreeMoreMoves(m: Message, moves: seq<Move>, a: Move, b: Move, c: Move)
    requires IsCourse(m, moves) && Possible(End(m, moves), a) && Possible(Make(End(m, moves), a), b)
    requires Possible(Make(Make(End(m, moves), a), b), c)
    ensures IsCourse(m, moves + [a] + [b] + [c])
    ensures End(m, moves + [a] + [b] + [c]) == Make(Make(Make(End(m, moves), a), b), c)
  {
    TwoMoreMoves(m, moves, a, b);
    OneMoreMove(m, moves + [a] + [b], c);
  }

  // The worker takes the message a fifth time; then the fourth processing fails and is settled.
  lemma AStuckMessage()
    ensures var moves := Hanging(4) + [Take(0, LEASE)] + [Attempt(0, Claimed(4, false), 120000, THROWS)] + [Close(0, Failed(4, true, Transient))];
            IsCourse(Queued(1, 2, 0), moves) && Stuck(End(Queued(1, 2, 0), moves).row)
  {
    HangingIsACourse(4);
    FifthIsTaken();
    FourthFails();
    FourthIsClosed();
    ThreeMoreMoves(
      Queued(1, 2, 0), Hanging(4), Take(0, LEASE), Attempt(0, Claimed(4, false), 120000, THROWS), Close(0, Failed(4, true, Transient)));
  }
}
