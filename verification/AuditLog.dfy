/** The audit log: events appended under a chain head, and verified against it. The
    hasher is arbitrary: it may refuse, and it need not be injective. */
module AuditLog {
  import opened Outcomes
  import opened CanonicalJson

  datatype AuditError =
    HashInvalid | TimestampInvalid | SequenceInvalid | PayloadTooLarge | SourceConflict

  datatype Actor = UserActor(userId: Text) | RunnerActor(runnerDeviceId: Text) | SystemActor(reason: Text)

  datatype Entity = Entity(kind: Text, id: Text)

  // The hashed part of an event; its schema version is always 1.
  datatype Content = Content(
    workspaceId: Text, sequence: int, eventType: Text, actor: Actor,
    primaryEntity: Entity, relatedEntities: seq<Entity>, occurredAt: Text,
    sourceId: Text, correlationId: Option<Text>, payloadDigest: Text, previousHash: Text)

  datatype Stored = Stored(id: Text, content: Content, payload: Json, eventHash: Text, createdAt: Text)

  // How a payload and the content of an event are hashed; a failure is an exception.
  datatype Hasher = Hasher(
    digest: Json -> Result<Text, AuditError>,
    event: Content -> Result<Text, AuditError>)

  const MAX_PAYLOAD_LENGTH := 4096
  const GENESIS_PREVIOUS_HASH: Text := ZeroDigits(64)

  function ZeroDigits(n: nat): (t: Text)
    ensures |t| == n && forall i :: 0 <= i < n ==> t[i] == 0x30
  {
    if n == 0 then [] else [0x30] + ZeroDigits(n - 1)
  }

  // ---------- Verification ----------

  datatype FailureCode =
    SequenceGap | PreviousHashMismatch | PayloadDigestMismatch | EventHashMismatch | HeadHashMismatch

  datatype Verification = Verification(
    valid: bool, checkedCount: nat, firstSequence: Option<int>, lastSequence: Option<int>,
    computedHeadHash: Text, storedHeadHash: Text, failure: Option<(FailureCode, int)>)

  // The checks on one event, in order; a hash that cannot be computed throws.
  function CheckEvent(h: Hasher, e: Stored, sequence: int, previousHash: Text): Result<Option<FailureCode>, AuditError> {
    if e.content.sequence != sequence then Ok(Some(SequenceGap))
    else if e.content.previousHash != previousHash then Ok(Some(PreviousHashMismatch))
    else
      match h.digest(e.payload)
      case Err(error) => Err(error)
      case Ok(digest) =>
        if digest != e.content.payloadDigest then Ok(Some(PayloadDigestMismatch))
        else
          match h.event(e.content)
          case Err(error) => Err(error)
          case Ok(hash) => if hash != e.eventHash then Ok(Some(EventHashMismatch)) else Ok(None)
  }

  // The event has its place in the chain and carries the hashes of what it stores.
  ghost predicate Linked(h: Hasher, e: Stored, sequence: int, previousHash: Text) {
    && e.content.sequence == sequence
    && e.content.previousHash == previousHash
    && h.digest(e.payload) == Ok(e.content.payloadDigest)
    && h.event(e.content) == Ok(e.eventHash)
  }

  ghost function HeadOf(events: seq<Stored>, previousHash: Text): Text {
    if events == [] then previousHash else events[|events| - 1].eventHash
  }

  ghost predicate Chain(h: Hasher, events: seq<Stored>, first: int, previousHash: Text) {
    events == [] ||
    (Linked(h, events[0], first, previousHash) && Chain(h, events[1..], first + 1, events[0].eventHash))
  }

  method VerifyAuditEventChain(h: Hasher, events: seq<Stored>, first: int, previous: Text, storedHead: Text, requireHead: bool)
    returns (r: Result<Verification, AuditError>)
    ensures r.Ok? && r.value.valid <==> Chain(h, events, first, previous) && (requireHead ==> HeadOf(events, previous) == storedHead)
    ensures r.Ok? ==>
      var v := r.value;
      && v.checkedCount <= |events|
      && Chain(h, events[..v.checkedCount], first, previous)
      && v.computedHeadHash == HeadOf(events[..v.checkedCount], previous) && v.storedHeadHash == storedHead
      && v.firstSequence == (if events == [] then None else Some(events[0].content.sequence))
      && v.lastSequence == (if v.checkedCount == 0 then None else Some(first + v.checkedCount - 1))
      && (v.valid <==> v.failure == None)
      && (!v.valid && v.checkedCount == |events| ==>
            v.failure == Some((HeadHashMismatch, if events == [] then first else events[|events| - 1].content.sequence)))
      && (v.checkedCount < |events| ==>
            var e := events[v.checkedCount];
            v.failure.Some? && v.failure.value.1 == e.content.sequence
            && CheckEvent(h, e, first + v.checkedCount, v.computedHeadHash) == Ok(Some(v.failure.value.0)))
    ensures r.Err? ==>
      exists k :: 0 <= k < |events| && Chain(h, events[..k], first, previous)
        && CheckEvent(h, events[k], first + k, HeadOf(events[..k], previous)) == Err(r.error)
  {
    var expectedSequence, previousHash := first, previous;
    var firstSequence := if events == [] then None else Some(events[0].content.sequence);
    var checkedCount := 0;
    while checkedCount < |events|
      invariant 0 <= checkedCount <= |events|
      invariant expectedSequence == first + checkedCount
      invariant previousHash == HeadOf(events[..checkedCount], previous)
      invariant Chain(h, events[..checkedCount], first, previous)
    {
      var event := events[checkedCount];
      var lastSequence := if checkedCount == 0 then None else Some(expectedSequence - 1);
      ChainStep(h, events, first, previous, checkedCount);
      match CheckEvent(h, event, expectedSequence, previousHash) {
        case Err(error) =>
          return Err(error);
        case Ok(Some(code)) =>
          return Ok(Verification(false, checkedCount, firstSequence, lastSequence, previousHash, storedHead,
            Some((code, event.content.sequence))));
        case Ok(None) =>
      }
      checkedCount := checkedCount + 1;
      expectedSequence := expectedSequence + 1;
      previousHash := event.eventHash;
    }
    assert events[..checkedCount] == events;
    if events != [] {
      LastSequence(h, events, first, previous);
    }
    var lastSequence := if events == [] then None else Some(events[|events| - 1].content.sequence);
    if requireHead && previousHash != storedHead {
      return Ok(Verification(false, checkedCount, firstSequence, lastSequence, previousHash, storedHead,
        Some((HeadHashMismatch, if events == [] then first else events[|events| - 1].content.sequence))));
    }
    r := Ok(Verification(true, checkedCount, firstSequence, lastSequence, previousHash, storedHead, None));
  }

  lemma ChainStep(h: Hasher, events: seq<Stored>, first: int, previous: Text, k: nat)
    requires k < |events|
    ensures Chain(h, events[..k + 1], first, previous) <==>
      Chain(h, events[..k], first, previous) && Linked(h, events[k], first + k, HeadOf(events[..k], previous))
    ensures Chain(h, events, first, previous) ==> Chain(h, events[..k + 1], first, previous)
  {
    ChainConcat(h, events[..k], [events[k]], first, previous);
    assert events[..k] + [events[k]] == events[..k + 1];
    ChainConcat(h, events[..k + 1], events[k + 1..], first, previous);
    assert events[..k + 1] + events[k + 1..] == events;
  }

  lemma {:induction false} LastSequence(h: Hasher, events: seq<Stored>, first: int, previous: Text)
    requires Chain(h, events, first, previous) && events != []
    ensures events[|events| - 1].content.sequence == first + |events| - 1
  {
    if |events| > 1 {
      LastSequence(h, events[1..], first + 1, events[0].eventHash);
    }
  }

  // Verifying a concatenation is verifying its first part, then its second part from
  // the head and the next sequence number of the first.
  lemma {:induction false} ChainConcat(h: Hasher, a: seq<Stored>, b: seq<Stored>, first: int, previous: Text)
    ensures Chain(h, a + b, first, previous) <==>
      Chain(h, a, first, previous) && Chain(h, b, first + |a|, HeadOf(a, previous))
    ensures HeadOf(a + b, previous) == HeadOf(b, HeadOf(a, previous))
  {
    if a == [] {
      assert a + b == b;
    } else {
      ChainConcat(h, a[1..], b, first + 1, a[0].eventHash);
      assert (a + b)[1..] == a[1..] + b;
    }
  }

  // ---------- Appending ----------

  datatype Input = Input(
    workspaceId: Text, eventType: Text, actor: Actor, primaryEntity: Entity,
    relatedEntities: seq<Entity>, occurredAt: Text, sourceId: Text,
    correlationId: Option<Text>, payload: Json)

  // The events of one workspace, and its chain head.
  datatype Log = Log(events: seq<Stored>, lastSequence: int, lastEventHash: Text)

  const EMPTY_LOG := Log([], 0, GENESIS_PREVIOUS_HASH)

  function FindSource(events: seq<Stored>, sourceId: Text): (r: Option<Stored>)
    ensures r.Some? ==> r.value in events && r.value.content.sourceId == sourceId
    ensures r.None? ==> forall e :: e in events ==> e.content.sourceId != sourceId
  {
    if events == [] then None
    else if events[0].content.sourceId == sourceId then Some(events[0])
    else FindSource(events[1..], sourceId)
  }

  predicate SourceMatches(stored: Stored, input: Input, digest: Text) {
    && stored.content.eventType == input.eventType
    && stored.content.primaryEntity == input.primaryEntity
    && stored.content.payloadDigest == digest
  }

  function NextContent(log: Log, input: Input, digest: Text): Content {
    Content(input.workspaceId, log.lastSequence + 1, input.eventType, input.actor, input.primaryEntity,
      input.relatedEntities, input.occurredAt, input.sourceId, input.correlationId, digest,
      if log.lastSequence == 0 then GENESIS_PREVIOUS_HASH else log.lastEventHash)
  }

  datatype Appended = Appended(log: Log, event: Stored, idempotent: bool)

  // The id and creation time are chosen by the database.
  function AppendEvent(h: Hasher, log: Log, input: Input, id: Text, createdAt: Text): Result<Appended, AuditError> {
    if |Serialize(input.payload)| > MAX_PAYLOAD_LENGTH then Err(PayloadTooLarge)
    else
      match h.digest(input.payload)
      case Err(e) => Err(e)
      case Ok(digest) =>
        match FindSource(log.events, input.sourceId)
        case Some(existing) =>
          if SourceMatches(existing, input, digest) then Ok(Appended(log, existing, true)) else Err(SourceConflict)
        case None =>
          var content := NextContent(log, input, digest);
          match h.event(content)
          case Err(e) => Err(e)
          case Ok(hash) =>
            var event := Stored(id, content, input.payload, hash, createdAt);
            Ok(Appended(Log(log.events + [event], content.sequence, hash), event, false))
  }

  class AuditStore {
    var logs: map<Text, Log>

    constructor ()
      ensures logs == map[]
    {
      logs := map[];
    }

    function LogOf(workspaceId: Text): Log
      reads this
    {
      if workspaceId in logs then logs[workspaceId] else EMPTY_LOG
    }

    // One transaction: it appends to the log of the input's workspace, or changes nothing.
    method AppendAuditEvent(h: Hasher, input: Input, id: Text, createdAt: Text)
      returns (r: Result<(Stored, bool), AuditError>)
      modifies this
      ensures match AppendEvent(h, old(LogOf(input.workspaceId)), input, id, createdAt)
              case Err(e) => r == Err(e) && logs == old(logs)
              case Ok(a) => r == Ok((a.event, a.idempotent)) && logs == old(logs)[input.workspaceId := a.log]
    {
      var canonicalPayload := Serialize(input.payload);
      if |canonicalPayload| > MAX_PAYLOAD_LENGTH {
        return Err(PayloadTooLarge);
      }
      var digest := h.digest(input.payload);
      if digest.Err? {
        return Err(digest.error);
      }
      var log := LogOf(input.workspaceId);
      var existing := FindSource(log.events, input.sourceId);
      if existing.Some? {
        if !SourceMatches(existing.value, input, digest.value) {
          return Err(SourceConflict);
        }
        logs := logs[input.workspaceId := log];
        return Ok((existing.value, true));
      }
      var content := NextContent(log, input, digest.value);
      var hash := h.event(content);
      if hash.Err? {
        return Err(hash.error);
      }
      var event := Stored(id, content, input.payload, hash.value, createdAt);
      logs := logs[input.workspaceId := Log(log.events + [event], content.sequence, hash.value)];
      r := Ok((event, false));
    }
  }

  ghost predicate UniqueSources(events: seq<Stored>) {
    forall i, j :: 0 <= i < j < |events| ==> events[i].content.sourceId != events[j].content.sourceId
  }

  // The log verifies from genesis against its stored head, and no source appears twice.
  ghost predicate Sound(h: Hasher, log: Log) {
    && Chain(h, log.events, 1, GENESIS_PREVIOUS_HASH)
    && log.lastEventHash == HeadOf(log.events, GENESIS_PREVIOUS_HASH)
    && log.lastSequence == |log.events|
    && UniqueSources(log.events)
  }

  ghost predicate Known(log: Log, sourceId: Text) {
    exists e :: e in log.events && e.content.sourceId == sourceId
  }

  // Appending keeps a log sound. It adds one event exactly when the source is new.
  lemma AppendKeepsSound(h: Hasher, log: Log, input: Input, id: Text, createdAt: Text)
    requires Sound(h, log) && AppendEvent(h, log, input, id, createdAt).Ok?
    ensures var a := AppendEvent(h, log, input, id, createdAt).value;
      && Sound(h, a.log) && a.event in a.log.events
      && a.event.content.sourceId == input.sourceId
      && (a.idempotent <==> Known(log, input.sourceId))
      && (a.idempotent ==> a.log == log)
      && (!a.idempotent ==> a.log.events == log.events + [a.event] && a.event.payload == input.payload)
  {
    var a := AppendEvent(h, log, input, id, createdAt).value;
    if !a.idempotent {
      ChainConcat(h, log.events, [a.event], 1, GENESIS_PREVIOUS_HASH);
      assert a.log.events[|log.events|] == a.event;
    }
  }

  // A known source is answered with its event, or refused if that event says something else.
  lemma KnownSourceOutcome(h: Hasher, log: Log, input: Input, e: Stored, id: Text, createdAt: Text)
    requires Sound(h, log) && e in log.events && e.content.sourceId == input.sourceId
    requires |Serialize(input.payload)| <= MAX_PAYLOAD_LENGTH && h.digest(input.payload).Ok?
    ensures AppendEvent(h, log, input, id, createdAt) ==
      if e.content.eventType == input.eventType && e.content.primaryEntity == input.primaryEntity
        && Ok(e.content.payloadDigest) == h.digest(input.payload)
      then Ok(Appended(log, e, true)) else Err(SourceConflict)
  {
    SourceUnique(log.events, e, FindSource(log.events, input.sourceId).value);
  }

  // A repeated append finds the event and leaves the log alone.
  lemma AppendTwice(h: Hasher, log: Log, input: Input, id: Text, at: Text, id2: Text, at2: Text)
    requires Sound(h, log) && AppendEvent(h, log, input, id, at).Ok?
    ensures var a := AppendEvent(h, log, input, id, at).value;
      AppendEvent(h, a.log, input, id2, at2) == Ok(Appended(a.log, a.event, true))
  {
    var a := AppendEvent(h, log, input, id, at).value;
    AppendKeepsSound(h, log, input, id, at);
    var found := FindSource(a.log.events, input.sourceId);
    SourceUnique(a.log.events, a.event, found.value);
  }

  lemma SourceUnique(events: seq<Stored>, e: Stored, f: Stored)
    requires UniqueSources(events) && e in events && f in events
    requires e.content.sourceId == f.content.sourceId
    ensures e == f
  {
    var i :| 0 <= i < |events| && events[i] == e;
    var j :| 0 <= j < |events| && events[j] == f;
    assert i == j || i < j || j < i;
  }

  datatype Request = Request(input: Input, id: Text, createdAt: Text)

  // A failed append rolls its transaction back.
  function AppendAll(h: Hasher, log: Log, requests: seq<Request>): Log
    decreases |requests|
  {
    if requests == [] then log
    else
      var q := requests[0];
      match AppendEvent(h, log, q.input, q.id, q.createdAt)
      case Err(_) => AppendAll(h, log, requests[1..])
      case Ok(a) => AppendAll(h, a.log, requests[1..])
  }

  lemma {:induction false} AppendAllKeepsSound(h: Hasher, log: Log, requests: seq<Request>)
    requires Sound(h, log)
    ensures Sound(h, AppendAll(h, log, requests))
    ensures log.events <= AppendAll(h, log, requests).events
    decreases |requests|
  {
    if requests != [] {
      var q := requests[0];
      match AppendEvent(h, log, q.input, q.id, q.createdAt) {
        case Err(_) =>
          AppendAllKeepsSound(h, log, requests[1..]);
        case Ok(a) =>
          AppendKeepsSound(h, log, q.input, q.id, q.createdAt);
          AppendAllKeepsSound(h, a.log, requests[1..]);
      }
    }
  }

  lemma {:induction false} ChainSequences(h: Hasher, events: seq<Stored>, first: int, previous: Text, i: nat)
    requires Chain(h, events, first, previous) && i < |events|
    ensures events[i].content.sequence == first + i
  {
    if i > 0 {
      ChainSequences(h, events[1..], first + 1, events[0].eventHash, i - 1);
    }
  }

  // Whatever was requested, the log verifies against its stored head, is numbered from one
  // without a gap and holds every source at most once; earlier events are never rewritten.
  lemma AppendedLogVerifies(h: Hasher, requests: seq<Request>, more: seq<Request>)
    ensures var log := AppendAll(h, EMPTY_LOG, requests);
      && Chain(h, log.events, 1, GENESIS_PREVIOUS_HASH)
      && HeadOf(log.events, GENESIS_PREVIOUS_HASH) == log.lastEventHash
      && (forall i :: 0 <= i < |log.events| ==> log.events[i].content.sequence == i + 1)
      && UniqueSources(log.events)
      && log.events <= AppendAll(h, log, more).events
  {
    AppendAllKeepsSound(h, EMPTY_LOG, requests);
    var log := AppendAll(h, EMPTY_LOG, requests);
    AppendAllKeepsSound(h, log, more);
    forall i | 0 <= i < |log.events| ensures log.events[i].content.sequence == i + 1 {
      ChainSequences(h, log.events, 1, GENESIS_PREVIOUS_HASH, i);
    }
  }
}
