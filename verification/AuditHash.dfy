/** The text hashed for an audit event, and what a verified chain of hashes proves.
    SHA-256 and timestamp parsing are arbitrary functions. */
module AuditHash {
  import opened Outcomes
  import opened CanonicalJson
  import opened AuditLog
  import Decimal

  datatype Crypto = Crypto(sha256Hex: Text -> Text, isoTime: Text -> Option<Text>)

  const MAX_SAFE_INTEGER := 0x1F_FFFF_FFFF_FFFF

  // ---------- Hashing ----------

  predicate IsSha256Hex(t: Text) {
    |t| == 64 && forall i :: 0 <= i < 64 ==> 0x30 <= t[i] <= 0x39 || 0x61 <= t[i] <= 0x66
  }

  function HashText(cr: Crypto, t: Text): Result<Text, AuditError> {
    if IsSha256Hex(cr.sha256Hex(t)) then Ok(cr.sha256Hex(t)) else Err(HashInvalid)
  }

  function PayloadDigest(cr: Crypto, payload: Json): Result<Text, AuditError> {
    HashText(cr, Serialize(payload))
  }

  // The code unit of a character of the basic plane.
  function UnitOf(c: char): Unit {
    if c as int < 0x10000 then c as int else 0xFFFD
  }

  function Units(s: string): (t: Text)
    ensures |t| == |s| && forall i :: 0 <= i < |s| ==> t[i] == UnitOf(s[i])
  {
    seq(|s|, i requires 0 <= i < |s| => UnitOf(s[i]))
  }

  function Key(name: string, v: Json): Field { Field(Units(name), v) }

  function Integer(n: nat): Json { Num(Units(Decimal.Text(n))) }

  function ActorJson(a: Actor): Json {
    match a
    case UserActor(id) => Obj([Key("type", Str(Units("user"))), Key("userId", Str(id))])
    case RunnerActor(id) => Obj([Key("type", Str(Units("runner"))), Key("runnerDeviceId", Str(id))])
    case SystemActor(reason) => Obj([Key("type", Str(Units("system"))), Key("reason", Str(reason))])
  }

  function EntityJson(e: Entity): Json {
    Obj([Key("kind", Str(e.kind)), Key("id", Str(e.id))])
  }

  function EntityList(es: seq<Entity>): seq<Json> {
    seq(|es|, i requires 0 <= i < |es| => EntityJson(es[i]))
  }

  function ContentJson(c: Content, time: Text): Json
    requires c.sequence >= 0
  {
    Obj(ContentFields(c, time))
  }

  function ContentFields(c: Content, time: Text): seq<Field>
    requires c.sequence >= 0
  {
        [Key("actor", ActorJson(c.actor)),
         Key("eventType", Str(c.eventType)),
         Key("occurredAt", Str(time)),
         Key("payloadDigest", Str(c.payloadDigest)),
         Key("previousHash", Str(c.previousHash)),
         Key("primaryEntity", EntityJson(c.primaryEntity)),
         Key("relatedEntities", Arr(EntityList(c.relatedEntities))),
         Key("schemaVersion", Integer(1)),
         Key("sequence", Integer(c.sequence)),
         Key("sourceId", Str(c.sourceId)),
         Key("workspaceId", Str(c.workspaceId))]
        + (if c.correlationId.None? then [] else [Key("correlationId", Str(c.correlationId.value))])
  }

  function ContentText(cr: Crypto, c: Content): Result<Text, AuditError> {
    if cr.isoTime(c.occurredAt).None? then Err(TimestampInvalid)
    else if !IsSha256Hex(c.payloadDigest) || !IsSha256Hex(c.previousHash) then Err(HashInvalid)
    else if c.sequence < 1 || c.sequence > MAX_SAFE_INTEGER then Err(SequenceInvalid)
    else Ok(Serialize(ContentJson(c, cr.isoTime(c.occurredAt).value)))
  }

  function EventHash(cr: Crypto, c: Content): Result<Text, AuditError> {
    match ContentText(cr, c)
    case Err(e) => Err(e)
    case Ok(text) => HashText(cr, text)
  }

  // ---------- The hashed text determines the hashed content ----------

  lemma SameField(fs: seq<Field>, gs: seq<Field>, i: nat, j: nat)
    requires Same(Obj(fs), Obj(gs)) && DistinctKeys(gs)
    requires i < |fs| && j < |gs| && fs[i].key == gs[j].key
    ensures Same(fs[i].value, gs[j].value)
  {
    var k :| 0 <= k < |gs| && gs[k].key == fs[i].key && Same(fs[i].value, gs[k].value);
  }

  lemma IntegerInjective(m: nat, n: nat)
    requires Same(Integer(m), Integer(n))
    ensures m == n
  {
    var s, t := Decimal.Text(m), Decimal.Text(n);
    assert Units(s) == Units(t);
    forall i | 0 <= i < |s| ensures s[i] == t[i] {
      assert Units(s)[i] == Units(t)[i];
    }
    assert s == t;
    Decimal.TextInjective(m, n);
  }

  lemma EntityInjective(e: Entity, f: Entity)
    requires Same(EntityJson(e), EntityJson(f))
    ensures e == f
  {
    var fs, gs := EntityJson(e).fields, EntityJson(f).fields;
    assert gs[0].key[0] != gs[1].key[0];
    SameField(fs, gs, 0, 0);
    SameField(fs, gs, 1, 1);
  }

  lemma ActorInjective(a: Actor, b: Actor)
    requires Same(ActorJson(a), ActorJson(b))
    ensures a == b
  {
    var fs, gs := ActorJson(a).fields, ActorJson(b).fields;
    assert gs[0].key[0] != gs[1].key[0];
    SameField(fs, gs, 0, 0);
    assert fs[0].value == gs[0].value;
    assert Units("user")[0] != Units("runner")[0] && Units("user")[0] != Units("system")[0];
    assert Units("runner")[0] != Units("system")[0];
    SameField(fs, gs, 1, 1);
  }

  lemma ContentKeysDistinct(c: Content, time: Text)
    requires c.sequence >= 0
    ensures DistinctKeys(ContentFields(c, time))
  {
    var fs := ContentFields(c, time);
    assert |fs[0].key| == 5 && |fs[1].key| == 9 && |fs[2].key| == 10 && |fs[4].key| == 12 && |fs[6].key| == 15 && |fs[10].key| == 11;
    assert |fs[3].key| == |fs[5].key| == |fs[7].key| == 13 && |fs[8].key| == |fs[9].key| == 8;
    assert fs[3].key[1] != fs[5].key[1] && fs[3].key[1] != fs[7].key[1] && fs[5].key[1] != fs[7].key[1];
    assert fs[8].key[1] != fs[9].key[1];
    if |fs| == 12 {
      assert |fs[11].key| == 13;
      assert fs[11].key[1] != fs[3].key[1] && fs[11].key[1] != fs[5].key[1] && fs[11].key[1] != fs[7].key[1];
    }
  }

  lemma IntegerWellFormed(n: nat)
    ensures WellFormed(Integer(n))
  {
    var token := Units(Decimal.Text(n));
    forall i | 0 <= i < |token| ensures IsDigit(token[i]) {
      assert '0' <= Decimal.Text(n)[i] <= '9';
    }
  }

  lemma KeysDiffer()
    ensures Units("type") != Units("userId") && Units("type") != Units("runnerDeviceId")
    ensures Units("type") != Units("reason") && Units("kind") != Units("id")
  {
    assert Units("type")[0] != Units("userId")[0] && Units("type")[0] != Units("runnerDeviceId")[0];
    assert Units("type")[0] != Units("reason")[0] && Units("kind")[0] != Units("id")[0];
  }

  lemma EntityListWellFormed(es: seq<Entity>)
    ensures WellFormed(Arr(EntityList(es)))
  {
    KeysDiffer();
    forall v | v in EntityList(es) ensures WellFormed(v) {
      var i :| 0 <= i < |es| && EntityList(es)[i] == v;
    }
  }

  lemma ContentWellFormed(c: Content, time: Text)
    requires c.sequence >= 0
    ensures WellFormed(ContentJson(c, time))
  {
    ContentKeysDistinct(c, time);
    var fs := ContentFields(c, time);
    forall i | 0 <= i < |fs| ensures WellFormed(fs[i].value) {
      FieldWellFormed(c, time, i);
    }
  }

  lemma FieldWellFormed(c: Content, time: Text, i: nat)
    requires c.sequence >= 0 && i < |ContentFields(c, time)|
    ensures WellFormed(ContentFields(c, time)[i].value)
  {
    if i == 0 || i == 5 {
      KeysDiffer();
    } else if i == 6 {
      EntityListWellFormed(c.relatedEntities);
    } else if i == 7 {
      IntegerWellFormed(1);
    } else if i == 8 {
      IntegerWellFormed(c.sequence);
    }
  }

  // Equality up to the way the timestamp is written.
  ghost predicate SameContent(cr: Crypto, c: Content, d: Content) {
    cr.isoTime(c.occurredAt) == cr.isoTime(d.occurredAt) && c == d.(occurredAt := c.occurredAt)
  }

  lemma ContentFieldsInjective(c: Content, d: Content, t: Text, u: Text)
    requires c.sequence >= 0 && d.sequence >= 0
    requires Same(ContentJson(c, t), ContentJson(d, u))
    ensures t == u && c == d.(occurredAt := c.occurredAt)
  {
    ContentFieldsSame(c, d, t, u);
    ContentFieldsListed(c, t);
    ContentFieldsListed(d, u);
    ListedInjective(ContentFields(c, t), ContentFields(d, u), c, d, t, u);
  }

  lemma ContentFieldsSame(c: Content, d: Content, t: Text, u: Text)
    requires c.sequence >= 0 && d.sequence >= 0
    requires Same(ContentJson(c, t), ContentJson(d, u))
    ensures var fs, gs := ContentFields(c, t), ContentFields(d, u);
      |fs| == |gs| && forall i :: 0 <= i < |fs| ==> Same(fs[i].value, gs[i].value)
  {
    ContentKeysDistinct(d, u);
    ContentKeysAlign(c, t, d, u);
    AllFieldsSame(ContentFields(c, t), ContentFields(d, u));
  }

  lemma ContentFieldsListed(c: Content, t: Text)
    requires c.sequence >= 0
    ensures Lists(ContentFields(c, t), c, t)
  {}

  lemma ContentKeysAlign(c: Content, t: Text, d: Content, u: Text)
    requires c.sequence >= 0 && d.sequence >= 0
    ensures var fs, gs := ContentFields(c, t), ContentFields(d, u);
      forall i :: 0 <= i < |fs| && i < |gs| ==> fs[i].key == gs[i].key
  {}

  lemma AllFieldsSame(fs: seq<Field>, gs: seq<Field>)
    requires Same(Obj(fs), Obj(gs)) && DistinctKeys(gs)
    requires forall i :: 0 <= i < |fs| && i < |gs| ==> fs[i].key == gs[i].key
    ensures |fs| == |gs|
    ensures forall i :: 0 <= i < |fs| ==> Same(fs[i].value, gs[i].value)
  {
    forall i: nat | i < |fs| ensures Same(fs[i].value, gs[i].value) {
      SameField(fs, gs, i, i);
    }
  }

  ghost predicate Lists(fs: seq<Field>, c: Content, t: Text) {
    && c.sequence >= 0
    && |fs| == (if c.correlationId.None? then 11 else 12)
    && fs[0].value == ActorJson(c.actor)
    && fs[1].value == Str(c.eventType) && fs[2].value == Str(t)
    && fs[3].value == Str(c.payloadDigest) && fs[4].value == Str(c.previousHash)
    && fs[5].value == EntityJson(c.primaryEntity) && fs[6].value == Arr(EntityList(c.relatedEntities))
    && fs[8].value == Integer(c.sequence)
    && fs[9].value == Str(c.sourceId) && fs[10].value == Str(c.workspaceId)
    && (c.correlationId.Some? ==> fs[11].value == Str(c.correlationId.value))
  }

  lemma ListedInjective(fs: seq<Field>, gs: seq<Field>, c: Content, d: Content, t: Text, u: Text)
    requires Lists(fs, c, t) && Lists(gs, d, u) && |fs| == |gs|
    requires forall i :: 0 <= i < |fs| ==> Same(fs[i].value, gs[i].value)
    ensures t == u && c == d.(occurredAt := c.occurredAt)
  {
    assert c.actor == d.actor by {
      assert Same(fs[0].value, gs[0].value);
      ActorInjective(c.actor, d.actor);
    }
    assert c.primaryEntity == d.primaryEntity by {
      assert Same(fs[5].value, gs[5].value);
      EntityInjective(c.primaryEntity, d.primaryEntity);
    }
    assert c.relatedEntities == d.relatedEntities by {
      assert Same(fs[6].value, gs[6].value);
      EntityListInjective(c.relatedEntities, d.relatedEntities);
    }
    assert c.sequence == d.sequence by {
      assert Same(fs[8].value, gs[8].value);
      IntegerInjective(c.sequence, d.sequence);
    }
    TextsEqual(fs, gs);
    assert Str(c.eventType) == Str(d.eventType) && Str(t) == Str(u);
    assert Str(c.payloadDigest) == Str(d.payloadDigest) && Str(c.previousHash) == Str(d.previousHash);
    assert Str(c.sourceId) == Str(d.sourceId) && Str(c.workspaceId) == Str(d.workspaceId);
  }

  lemma TextsEqual(fs: seq<Field>, gs: seq<Field>)
    requires |fs| == |gs|
    requires forall i :: 0 <= i < |fs| ==> Same(fs[i].value, gs[i].value)
    ensures forall i :: 0 <= i < |fs| && fs[i].value.Str? ==> fs[i].value == gs[i].value
  {}

  lemma EntityListInjective(es: seq<Entity>, ds: seq<Entity>)
    requires Same(Arr(EntityList(es)), Arr(EntityList(ds)))
    ensures es == ds
  {
    forall i | 0 <= i < |es| ensures es[i] == ds[i] {
      assert Same(EntityList(es)[i], EntityList(ds)[i]);
      EntityInjective(es[i], ds[i]);
    }
  }

  // The text that is hashed for an event determines everything it was built from.
  lemma ContentTextInjective(cr: Crypto, c: Content, d: Content)
    requires ContentText(cr, c).Ok? && ContentText(cr, d).Ok?
    ensures ContentText(cr, c) == ContentText(cr, d) <==> SameContent(cr, c, d)
  {
    var t, u := cr.isoTime(c.occurredAt).value, cr.isoTime(d.occurredAt).value;
    ContentWellFormed(c, t);
    ContentWellFormed(d, u);
    SerializeInjective(ContentJson(c, t), ContentJson(d, u));
    if ContentText(cr, c) == ContentText(cr, d) {
      ContentFieldsInjective(c, d, t, u);
    }
  }

  // ---------- Tamper evidence ----------

  function Sha256Hasher(cr: Crypto): Hasher {
    Hasher((payload: Json) => PayloadDigest(cr, payload), (c: Content) => EventHash(cr, c))
  }

  // The text was hashed while the event was appended or verified.
  ghost predicate HashedFor(cr: Crypto, events: seq<Stored>, t: Text) {
    exists e :: e in events && (t == Serialize(e.payload) || ContentText(cr, e.content) == Ok(t))
  }

  // Two different texts, one hashed for each log, have the same hash.
  ghost predicate Collision(cr: Crypto, a: seq<Stored>, b: seq<Stored>) {
    exists t, u :: HashedFor(cr, a, t) && HashedFor(cr, b, u) && t != u && cr.sha256Hex(t) == cr.sha256Hex(u)
  }

  // A text hashed for the log has the all-zero hash that stands for "no event yet".
  ghost predicate HashesToGenesis(cr: Crypto, events: seq<Stored>) {
    exists t :: HashedFor(cr, events, t) && cr.sha256Hex(t) == GENESIS_PREVIOUS_HASH
  }

  // Everything the hashes protect: all content but the spelling of the timestamp, and the
  // payload up to key order. The row id and creation time are not among it.
  ghost predicate SameEvent(cr: Crypto, e: Stored, f: Stored) {
    SameContent(cr, e.content, f.content) && Same(e.payload, f.payload) && e.eventHash == f.eventHash
  }

  ghost predicate SameLog(cr: Crypto, a: seq<Stored>, b: seq<Stored>) {
    |a| == |b| && forall i :: 0 <= i < |a| ==> SameEvent(cr, a[i], b[i])
  }

  ghost predicate PayloadsWellFormed(events: seq<Stored>) {
    forall e :: e in events ==> WellFormed(e.payload)
  }

  lemma LinkedHashes(cr: Crypto, e: Stored, sequence: int, previousHash: Text)
    requires Linked(Sha256Hasher(cr), e, sequence, previousHash)
    ensures ContentText(cr, e.content).Ok?
    ensures e.eventHash == cr.sha256Hex(ContentText(cr, e.content).value)
    ensures e.content.payloadDigest == cr.sha256Hex(Serialize(e.payload))
    ensures HashedFor(cr, [e], ContentText(cr, e.content).value) && HashedFor(cr, [e], Serialize(e.payload))
  {
    assert e in [e];
  }

  // Equal event hashes mean equal events, or a collision.
  lemma EqualHashes(cr: Crypto, e: Stored, f: Stored, m: int, n: int, p: Text, q: Text)
    requires Linked(Sha256Hasher(cr), e, m, p) && Linked(Sha256Hasher(cr), f, n, q)
    requires WellFormed(e.payload) && WellFormed(f.payload) && e.eventHash == f.eventHash
    requires !Collision(cr, [e], [f])
    ensures SameEvent(cr, e, f) && m == n && p == q
  {
    LinkedHashes(cr, e, m, p);
    LinkedHashes(cr, f, n, q);
    var t, u := ContentText(cr, e.content).value, ContentText(cr, f.content).value;
    assert t == u;
    ContentTextInjective(cr, e.content, f.content);
    assert e.content.payloadDigest == f.content.payloadDigest;
    assert Serialize(e.payload) == Serialize(f.payload);
    SerializeInjective(e.payload, f.payload);
  }

  lemma CollisionGrows(cr: Crypto, a: seq<Stored>, b: seq<Stored>, c: seq<Stored>, d: seq<Stored>)
    requires Collision(cr, a, b)
    requires (forall e :: e in a ==> e in c) && (forall e :: e in b ==> e in d)
    ensures Collision(cr, c, d)
  {
    var t, u :| HashedFor(cr, a, t) && HashedFor(cr, b, u) && t != u && cr.sha256Hex(t) == cr.sha256Hex(u);
    HashedGrows(cr, a, c, t);
    HashedGrows(cr, b, d, u);
  }

  lemma HashedGrows(cr: Crypto, a: seq<Stored>, c: seq<Stored>, t: Text)
    requires HashedFor(cr, a, t) && forall e :: e in a ==> e in c
    ensures HashedFor(cr, c, t)
  {
    var e :| e in a && (t == Serialize(e.payload) || ContentText(cr, e.content) == Ok(t));
  }

  lemma LastLinked(cr: Crypto, a: seq<Stored>)
    requires a != [] && Chain(Sha256Hasher(cr), a, 1, GENESIS_PREVIOUS_HASH)
    ensures var n := |a| - 1;
      && Chain(Sha256Hasher(cr), a[..n], 1, GENESIS_PREVIOUS_HASH)
      && Linked(Sha256Hasher(cr), a[n], 1 + n, HeadOf(a[..n], GENESIS_PREVIOUS_HASH))
  {
    LastOfChain(Sha256Hasher(cr), a, 1, GENESIS_PREVIOUS_HASH);
  }

  lemma LastOfChain(h: Hasher, a: seq<Stored>, first: int, previous: Text)
    requires a != [] && Chain(h, a, first, previous)
    ensures var n := |a| - 1;
      Chain(h, a[..n], first, previous) && Linked(h, a[n], first + n, HeadOf(a[..n], previous))
  {
    ChainStep(h, a, first, previous, |a| - 1);
  }

  lemma GenesisHead(cr: Crypto, a: seq<Stored>)
    requires a != [] && Chain(Sha256Hasher(cr), a, 1, GENESIS_PREVIOUS_HASH)
    requires HeadOf(a, GENESIS_PREVIOUS_HASH) == GENESIS_PREVIOUS_HASH
    ensures HashesToGenesis(cr, a)
  {
    LastLinked(cr, a);
    var e, n := a[|a| - 1], |a| - 1;
    LinkedHashes(cr, e, 1 + n, HeadOf(a[..n], GENESIS_PREVIOUS_HASH));
    HashedGrows(cr, [e], a, ContentText(cr, e.content).value);
  }

  // Two logs that verify from genesis against the same head store the same events, unless
  // a hash collision or a preimage of the genesis value can be read off the two logs.
  lemma {:induction false} TamperEvidence(cr: Crypto, a: seq<Stored>, b: seq<Stored>)
    requires PayloadsWellFormed(a) && PayloadsWellFormed(b)
    requires Chain(Sha256Hasher(cr), a, 1, GENESIS_PREVIOUS_HASH)
    requires Chain(Sha256Hasher(cr), b, 1, GENESIS_PREVIOUS_HASH)
    requires HeadOf(a, GENESIS_PREVIOUS_HASH) == HeadOf(b, GENESIS_PREVIOUS_HASH)
    ensures SameLog(cr, a, b) || Collision(cr, a, b) || HashesToGenesis(cr, a) || HashesToGenesis(cr, b)
    decreases |a|
  {
    if a == [] || b == [] {
      if a != [] {
        GenesisHead(cr, a);
      } else if b != [] {
        GenesisHead(cr, b);
      }
    } else {
      var m, n := |a| - 1, |b| - 1;
      var e, f, p, q := a[m], b[n], a[..m], b[..n];
      LastLinked(cr, a);
      LastLinked(cr, b);
      if Collision(cr, [e], [f]) {
        CollisionGrows(cr, [e], [f], a, b);
      } else {
        EqualHashes(cr, e, f, 1 + m, 1 + n, HeadOf(p, GENESIS_PREVIOUS_HASH), HeadOf(q, GENESIS_PREVIOUS_HASH));
        TamperEvidence(cr, p, q);
        ExtendEvidence(cr, a, b);
      }
    }
  }

  lemma ExtendEvidence(cr: Crypto, a: seq<Stored>, b: seq<Stored>)
    requires a != [] && |a| == |b| && SameEvent(cr, a[|a| - 1], b[|b| - 1])
    ensures var p, q := a[..|a| - 1], b[..|b| - 1];
      && (SameLog(cr, p, q) ==> SameLog(cr, a, b))
      && (Collision(cr, p, q) ==> Collision(cr, a, b))
      && (HashesToGenesis(cr, p) ==> HashesToGenesis(cr, a))
      && (HashesToGenesis(cr, q) ==> HashesToGenesis(cr, b))
  {
    var p, q := a[..|a| - 1], b[..|b| - 1];
    if Collision(cr, p, q) {
      CollisionGrows(cr, p, q, a, b);
    }
    if HashesToGenesis(cr, p) {
      var t :| HashedFor(cr, p, t) && cr.sha256Hex(t) == GENESIS_PREVIOUS_HASH;
      HashedGrows(cr, p, a, t);
    }
    if HashesToGenesis(cr, q) {
      var t :| HashedFor(cr, q, t) && cr.sha256Hex(t) == GENESIS_PREVIOUS_HASH;
      HashedGrows(cr, q, b, t);
    }
    if SameLog(cr, p, q) {
      forall i | 0 <= i < |a| ensures SameEvent(cr, a[i], b[i]) {
        if i < |p| {
          assert SameEvent(cr, p[i], q[i]);
        }
      }
    }
  }

  lemma SameEventLinks(cr: Crypto, e: Stored, f: Stored, sequence: int, previousHash: Text)
    requires SameEvent(cr, e, f) && WellFormed(e.payload) && WellFormed(f.payload)
    requires Linked(Sha256Hasher(cr), e, sequence, previousHash)
    ensures Linked(Sha256Hasher(cr), f, sequence, previousHash)
  {
    SerializeInjective(e.payload, f.payload);
    assert ContentText(cr, e.content) == ContentText(cr, f.content);
  }

  // Verification sees no more than that: logs with the same protected content verify alike.
  lemma {:induction false} VerifiesAlike(cr: Crypto, a: seq<Stored>, b: seq<Stored>, first: int, previous: Text)
    requires PayloadsWellFormed(a) && PayloadsWellFormed(b) && SameLog(cr, a, b)
    requires Chain(Sha256Hasher(cr), a, first, previous)
    ensures Chain(Sha256Hasher(cr), b, first, previous)
    ensures HeadOf(a, previous) == HeadOf(b, previous)
  {
    if a != [] {
      SameEventLinks(cr, a[0], b[0], first, previous);
      forall i | 0 <= i < |a[1..]| ensures SameEvent(cr, a[1..][i], b[1..][i]) {
        assert SameEvent(cr, a[i + 1], b[i + 1]);
      }
      VerifiesAlike(cr, a[1..], b[1..], first + 1, a[0].eventHash);
    }
  }

  // An event with another row id, creation time and spelling of its timestamp.
  function Respelled(e: Stored, id: Text, createdAt: Text, occurredAt: Text): Stored {
    Stored(id, e.content.(occurredAt := occurredAt), e.payload, e.eventHash, createdAt)
  }

  // So a changed row id, creation time or timestamp spelling stays unnoticed, in whatever event
  // of whatever log: the log verifies exactly as it did, to the same head.
  lemma UnprotectedFields(
    cr: Crypto, a: seq<Stored>, i: nat, id: Text, createdAt: Text, occurredAt: Text, first: int, previous: Text)
    requires i < |a|
    ensures var b := a[i := Respelled(a[i], id, createdAt, occurredAt)];
            PayloadsWellFormed(a) && cr.isoTime(occurredAt) == cr.isoTime(a[i].content.occurredAt) ==>
              && (Chain(Sha256Hasher(cr), b, first, previous) <==> Chain(Sha256Hasher(cr), a, first, previous))
              && (Chain(Sha256Hasher(cr), a, first, previous) ==> HeadOf(b, previous) == HeadOf(a, previous))
  {
    var b := a[i := Respelled(a[i], id, createdAt, occurredAt)];
    if PayloadsWellFormed(a) && cr.isoTime(occurredAt) == cr.isoTime(a[i].content.occurredAt) {
      forall e | e in b ensures WellFormed(e.payload) {
        var k :| 0 <= k < |b| && b[k] == e;
        assert a[k] in a;
      }
      forall k | 0 <= k < |a| ensures SameEvent(cr, a[k], b[k]) && SameEvent(cr, b[k], a[k]) {
        assert a[k] in a;
        SameImpliesItself(a[k].payload);
      }
      if Chain(Sha256Hasher(cr), a, first, previous) {
        VerifiesAlike(cr, a, b, first, previous);
      } else if Chain(Sha256Hasher(cr), b, first, previous) {
        VerifiesAlike(cr, b, a, first, previous);
      }
    }
  }

  lemma SameImpliesItself(v: Json)
    requires WellFormed(v)
    ensures Same(v, v)
  {
    CanonEqualImpliesSame(v, v);
  }
}
