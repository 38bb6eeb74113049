/**
 * The Store of internal/keystore/nats.go over a bucket object. Each operation takes the entries other replicas
 * commit between its read and its write (`others`). If the history with those is serial, it is still serial
 * after the operation's own write.
 */
module KeyStore {
  import opened Common
  import Text
  import opened KeyRecords
  import opened CredentialLog
  import opened CredentialProtocol

  /** A JetStream key-value bucket: values are never overwritten, only superseded by a newer revision. */
  class Bucket {
    var log: Log

    constructor ()
      ensures log == []
    {
      log := [];
    }

    /** The value and revision of a live key; a deleted key reads like an absent one. */
    method Get(key: string) returns (r: Option<(Payload, nat)>)
      ensures r.Some? <==> Live(log, key)
      ensures r.Some? ==> LastIndex(log, key) == Some(r.value.1 - 1) && log[r.value.1 - 1].op == Put(r.value.0)
    {
      var at := LastIndex(log, key);
      if at.None? || !log[at.value].op.Put? {
        return None;
      }
      return Some((log[at.value].op.payload, at.value + 1));
    }

    /** Every live key once, in some order. */
    method Keys() returns (keys: seq<string>)
      ensures ListsLiveKeys(log, keys)
    {
      keys := [];
      for i := 0 to |log|
        invariant forall k :: k in keys <==> Live(log, k) && LastIndex(log, k).value < i
        invariant forall a, b | 0 <= a < b < |keys| :: keys[a] != keys[b]
      {
        if LastIndex(log, log[i].key) == Some(i) && log[i].op.Put? {
          keys := keys + [log[i].key];
        }
      }
    }

    /** Writes when no live value exists. The caller learns the revision only if the reply arrives. */
    method Create(key: string, payload: Payload, reply: Reply) returns (r: Option<nat>)
      modifies this
      ensures r == if !old(Live(log, key)) && reply.Acknowledged? then Some(|log|) else None
      ensures log == if old(Live(log, key)) || reply.Refused? then old(log) else old(log) + [Entry(key, Put(payload))]
    {
      if Live(log, key) || reply.Refused? {
        return None;
      }
      log := log + [Entry(key, Put(payload))];
      r := if reply.Acknowledged? then Some(|log|) else None;
    }

    /** Writes when the newest revision of the key is the given one. */
    method Update(key: string, payload: Payload, revision: nat, reply: Reply) returns (r: Option<nat>)
      requires revision > 0
      modifies this
      ensures var wins := old(LastIndex(log, key)) == Some(revision - 1) && !reply.Refused?;
        && log == (if wins then old(log) + [Entry(key, Put(payload))] else old(log))
        && r == if wins && reply.Acknowledged? then Some(|log|) else None
    {
      if LastIndex(log, key) != Some(revision - 1) || reply.Refused? {
        return None;
      }
      log := log + [Entry(key, Put(payload))];
      r := if reply.Acknowledged? then Some(|log|) else None;
    }

    /** What the other replicas commit while this one is between two calls. */
    method OtherReplicas(entries: Log)
      modifies this
      ensures log == old(log) + entries
    {
      log := log + entries;
    }
  }

  datatype StoreError =
    | InvalidID | NotFound | Unavailable | BadRecord(error: DecodeError) | AlreadyRevoked | NoRandomness | WriteFailed

  /** A stored record with its revision, and the one-time token of a Create or Rotate. */
  datatype Issued = Issued(record: Record, revision: nat, token: string)

  /** What the outside does to one call: a failing read, no randomness, a badly answered write. */
  datatype Weather = Weather(readFails: bool, random: Option<Random>, reply: Reply)

  /** The log gained one entry: what a Create was asked for, what a Rotate or a Revoke makes of a record. */
  ghost predicate CreationStored(
      hash: Hash, before: Log, after: Log, input: CreateInput, secret: string, now: Instant) {
    exists draft :: after == before + [EntryFor(draft)] && AsRequested(draft, input, now)
                    && Matches(hash, draft, secret)
  }

  ghost predicate RotationStored(hash: Hash, before: Log, after: Log, prior: Record, secret: string, now: Instant) {
    exists draft :: after == before + [EntryFor(draft)] && RotationOf(prior, draft) && draft.rotatedAt == Some(now)
                    && Matches(hash, draft, secret)
  }

  ghost predicate RevocationStored(before: Log, after: Log, prior: Record, now: Instant, reason: string) {
    exists draft :: after == before + [EntryFor(draft)] && RevocationOf(prior, draft) && draft.revokedAt == Some(now)
                    && draft.revocationReason == Text.TrimSpace(reason)
  }

  class Store {
    const kv: Bucket
    const hash: Hash

    constructor (kv: Bucket, hash: Hash)
      ensures this.kv == kv && this.hash == hash
    {
      this.kv := kv;
      this.hash := hash;
    }

    method Create(
        input: CreateInput, now: Instant, others: Log, weather: Weather) returns (r: Result<Issued, StoreError>)
      modifies kv
      ensures Serial(old(kv.log) + others) ==> Serial(kv.log)
      // writes exactly when the id is valid and unused when the write arrives, and then what was asked for
      ensures var written := ValidID(input.id) && weather.random.Some? && !weather.reply.Refused?
                             && !Live(old(kv.log) + others, input.id);
        && (!written ==> kv.log == old(kv.log) + others)
        && (written ==>
              CreationStored(hash, old(kv.log) + others, kv.log, input, SecretOf(weather.random.value), now))
        && (r.Ok? <==> written && weather.reply.Acknowledged?)
      ensures r.Ok? ==>
        && kv.log == old(kv.log) + others + [EntryFor(r.value.record)] && r.value.revision == |kv.log|
        && r.value.record.id == input.id && r.value.record.expiresAt == input.expiresAt
        && r.value.record.displayName == Text.TrimSpace(input.displayName)
        && r.value.record.owner == Text.TrimSpace(input.owner)
        && r.value.record.environment == Text.TrimSpace(input.environment)
        && r.value.record.createdAt == now && Fresh(r.value.record)
        && Matches(hash, r.value.record, SecretOf(weather.random.value))
        && r.value.token == Token(input.id, SecretOf(weather.random.value))
      // the ids the store takes: 1 to 64 letters, digits, '-' or '_'
      ensures r == Err(InvalidID) <==>
                || input.id == "" || |input.id| > 64
                || exists c :: c in input.id && !('A' <= c <= 'Z' || 'a' <= c <= 'z' || '0' <= c <= '9' || c in "-_")
    {
      kv.OtherReplicas(others);
      ValidIDMeans(input.id);
      if !ValidID(input.id) {
        return Err(InvalidID);
      }
      if weather.random.None? {
        return Err(NoRandomness);
      }
      var secret := SecretOf(weather.random.value);
      var record := Created(input, DigestOf(hash, secret), now);
      ghost var before := kv.log;
      CreationIsLegit(hash, before, input, secret, now, record);
      var revision := kv.Create(record.id, Document(record), weather.reply);
      if revision.None? {
        return Err(WriteFailed);
      }
      return Ok(Issued(record, revision.value, Token(record.id, secret)));
    }

    method Rotate(id: string, now: Instant, others: Log, weather: Weather) returns (r: Result<Issued, StoreError>)
      modifies kv
      ensures Serial(old(kv.log) + others) ==> Serial(kv.log)
      // writes exactly when the id is active and nobody committed to it between the read and the write
      ensures var written := !weather.readFails && weather.random.Some? && !weather.reply.Refused?
                             && IsActive(old(kv.log), id)
                             && LastIndex(old(kv.log) + others, id) == LastIndex(old(kv.log), id);
        && (!written ==> kv.log == old(kv.log) + others)
        && (written ==>
              RotationStored(hash, old(kv.log) + others, kv.log, Current(old(kv.log), id).value,
                             SecretOf(weather.random.value), now))
        && (r.Ok? <==> written && weather.reply.Acknowledged?)
      ensures r.Ok? ==>
        && kv.log == old(kv.log) + others + [EntryFor(r.value.record)] && r.value.revision == |kv.log|
        && r.value.record.rotatedAt == Some(now)
        && RotationOf(Current(old(kv.log), id).value, r.value.record)
        && Current(old(kv.log) + others, id) == Current(old(kv.log), id)
        && Matches(hash, r.value.record, SecretOf(weather.random.value))
        && r.value.token == Token(id, SecretOf(weather.random.value))
      ensures r == Err(Unavailable) <==> weather.readFails
      ensures r == Err(NotFound) <==> !weather.readFails && !Live(old(kv.log), id)
      ensures r == Err(AlreadyRevoked) <==> !weather.readFails && IsRevoked(old(kv.log), id)
    {
      ghost var first := kv.log;
      var entry := kv.Get(id);
      kv.OtherReplicas(others);
      if weather.readFails {
        return Err(Unavailable);
      }
      if entry.None? {
        return Err(NotFound);
      }
      var decoded := DecodePayload(id, entry.value.0);
      if decoded.Err? {
        return Err(BadRecord(decoded.error));
      }
      var record := decoded.value;
      if record.revokedAt.Some? {
        return Err(AlreadyRevoked);
      }
      if weather.random.None? {
        return Err(NoRandomness);
      }
      var secret := SecretOf(weather.random.value);
      record := record.(secretSHA256 := DigestOf(hash, secret));
      record := record.(rotatedAt := Some(now));
      RotationIsLegit(hash, first, others, id, secret, now, record);
      var revision := kv.Update(id, Document(record), entry.value.1, weather.reply);
      if revision.None? {
        return Err(WriteFailed);
      }
      return Ok(Issued(record, revision.value, Token(id, secret)));
    }

    /** Revoking an already revoked id succeeds without writing. */
    method Revoke(
        id: string, now: Instant, reason: string, others: Log, weather: Weather) returns (r: Result<Record, StoreError>)
      modifies kv
      ensures Serial(old(kv.log) + others) ==> Serial(kv.log)
      // writes exactly when the id is active and nobody committed to it between the read and the write
      ensures var written := !weather.readFails && !weather.reply.Refused? && IsActive(old(kv.log), id)
                             && LastIndex(old(kv.log) + others, id) == LastIndex(old(kv.log), id);
        && (!written ==> kv.log == old(kv.log) + others)
        && (written ==>
              RevocationStored(old(kv.log) + others, kv.log, Current(old(kv.log), id).value, now, reason))
        && (r.Ok? <==> (written && weather.reply.Acknowledged?)
                       || (!weather.readFails && IsRevoked(old(kv.log), id)))
      // whatever was acknowledged is the id's current record, revoked, and by RevocationIsFinal stays so
      ensures r.Ok? ==>
        r.value.revokedAt.Some? && (Serial(old(kv.log) + others) ==> Current(kv.log, id) == Some(r.value))
      ensures r.Ok? && IsActive(old(kv.log), id) ==>
        && RevocationOf(Current(old(kv.log), id).value, r.value)
        && r.value.revokedAt == Some(now) && r.value.revocationReason == Text.TrimSpace(reason)
        && kv.log == old(kv.log) + others + [EntryFor(r.value)]
      ensures r.Ok? && IsRevoked(old(kv.log), id) ==> r.value == Current(old(kv.log), id).value
      ensures r == Err(Unavailable) <==> weather.readFails
      ensures r == Err(NotFound) <==> !weather.readFails && !Live(old(kv.log), id)
    {
      ghost var first := kv.log;
      var entry := kv.Get(id);
      kv.OtherReplicas(others);
      if weather.readFails {
        return Err(Unavailable);
      }
      if entry.None? {
        return Err(NotFound);
      }
      var decoded := DecodePayload(id, entry.value.0);
      if decoded.Err? {
        return Err(BadRecord(decoded.error));
      }
      var record := decoded.value;
      if record.revokedAt.Some? {
        if Serial(first + others) {
          RevokedStaysCurrent(first + others, LastIndex(first, id).value);
        }
        return Ok(record);
      }
      record := record.(revokedAt := Some(now));
      record := record.(revocationReason := Text.TrimSpace(reason));
      StaleOrLegit(first, others, id, record);
      var revision := kv.Update(id, Document(record), entry.value.1, weather.reply);
      if revision.None? {
        return Err(WriteFailed);
      }
      NewestIs(kv.log, |kv.log| - 1);
      return Ok(record);
    }
  }

  lemma CreationIsLegit(hash: Hash, before: Log, input: CreateInput, secret: string, now: Instant, draft: Record)
    requires ValidID(input.id) && draft == Created(input, DigestOf(hash, secret), now)
    ensures AsRequested(draft, input, now) && Matches(hash, draft, secret)
    ensures CreationStored(hash, before, before + [EntryFor(draft)], input, secret, now)
    ensures Serial(before) && !Live(before, draft.id) ==> Serial(before + [EntryFor(draft)])
  {
    DigestOfDecodes(hash, secret);
    assert RecordOf(EntryFor(draft)) == Some(draft);
    if Serial(before) && !Live(before, draft.id) {
      SerialExtends(before, EntryFor(draft));
    }
  }

  lemma RotationIsLegit(
      hash: Hash, first: Log, others: Log, id: string, secret: string, now: Instant, draft: Record)
    requires IsActive(first, id) && draft == Rotated(Current(first, id).value, DigestOf(hash, secret), now)
    ensures RotationOf(Current(first, id).value, draft) && draft.rotatedAt == Some(now) && Matches(hash, draft, secret)
    ensures RotationStored(hash, first + others, first + others + [EntryFor(draft)], Current(first, id).value,
                           secret, now)
    ensures LastIndex(first + others, id) == LastIndex(first, id) ==>
              && Current(first + others, id) == Current(first, id)
              && (Serial(first + others) ==> Serial(first + others + [EntryFor(draft)]))
  {
    DigestOfDecodes(hash, secret);
    StaleOrLegit(first, others, id, draft);
  }

  /** A draft made from a read is a legitimate write, or the revision has moved on and the compare-and-set fails. */
  lemma StaleOrLegit(first: Log, others: Log, id: string, draft: Record)
    requires Current(first, id).Some? && Current(first, id).value.revokedAt.None?
    requires RecordOf(EntryFor(draft)) == Some(draft) && draft.id == id
    requires RotationOf(Current(first, id).value, draft) || RevocationOf(Current(first, id).value, draft)
    ensures LastIndex(first + others, id) == LastIndex(first, id) ==>
              && Current(first + others, id) == Current(first, id)
              && (Serial(first + others) ==> Serial(first + others + [EntryFor(draft)]))
  {
    if LastIndex(first + others, id) == LastIndex(first, id) && Serial(first + others) {
      SerialExtends(first + others, EntryFor(draft));
    }
  }
}
