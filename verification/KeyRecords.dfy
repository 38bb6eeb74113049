/** Managed-key records as internal/keystore/nats.go stores, decodes and redrafts them. */
module KeyRecords {
  import opened Common
  import opened Text
  import opened Encoding

  /** The hash applied to secrets: an arbitrary function, injective only where a lemma says so. */
  type Hash = string -> Sum

  /** The stored document. The revision is not part of it: it belongs to the log position. */
  datatype Record = Record(
    id: string,
    secretSHA256: string,
    displayName: string,
    owner: string,
    environment: string,
    createdAt: Instant,
    rotatedAt: Option<Instant>,
    expiresAt: Option<Instant>,
    revokedAt: Option<Instant>,
    revocationReason: string)

  datatype CreateInput = CreateInput(
    id: string, displayName: string, owner: string, environment: string, expiresAt: Option<Instant>)

  /** A stored value: either JSON that decodes into a record, or anything else. */
  datatype Payload = Undecodable | Document(record: Record)

  datatype Operation = Put(payload: Payload) | Delete | Purge

  datatype Entry = Entry(key: string, op: Operation)

  predicate ValidIDChar(c: char) {
    UrlLetter(c)
  }

  /** ValidateID. Every accepted character is one byte long, so Go's byte count is the character count. */
  predicate ValidID(id: string) {
    1 <= |id| <= 64 && forall i | 0 <= i < |id| :: ValidIDChar(id[i])
  }

  lemma ValidIDMeans(id: string)
    ensures ValidID(id) <==>
              1 <= |id| <= 64
              && forall c | c in id :: 'A' <= c <= 'Z' || 'a' <= c <= 'z' || '0' <= c <= '9' || c in "-_"
  {
    if ValidID(id) {
      forall c | c in id ensures ValidIDChar(c) {
        var i :| 0 <= i < |id| && id[i] == c;
      }
    } else if i :| 0 <= i < |id| && !ValidIDChar(id[i]) {
      assert id[i] in id;
    }
  }

  predicate DigestShape(hex: string) {
    |hex| == 64 && HexDecode(hex).Some?
  }

  datatype DecodeError = BadJson | KeyMismatch | BadID | BadDigest

  /** decodeEntry, for an entry that carries a value. */
  function DecodePayload(key: string, payload: Payload): (r: Result<Record, DecodeError>)
    ensures r.Ok? ==>
      payload == Document(r.value) && r.value.id == key && ValidID(key) && DigestShape(r.value.secretSHA256)
  {
    match payload
    case Undecodable => Err(BadJson)
    case Document(record) =>
      if record.id != key then Err(KeyMismatch)
      else if !ValidID(record.id) then Err(BadID)
      else if !DigestShape(record.secretSHA256) then Err(BadDigest)
      else Ok(record)
  }

  /** The record an entry holds, if it is a value and decodes. */
  function RecordOf(e: Entry): (r: Option<Record>)
    ensures r.Some? ==>
      e.op == Put(Document(r.value)) && r.value.id == e.key && ValidID(e.key) && DigestShape(r.value.secretSHA256)
  {
    if e.op.Put? && DecodePayload(e.key, e.op.payload).Ok? then Some(DecodePayload(e.key, e.op.payload).value) else None
  }

  function EntryFor(r: Record): Entry {
    Entry(r.id, Put(Document(r)))
  }

  // ---------------------------------------------------------------- secrets

  /** 32 random bytes. */
  type Random = b: Bytes | |b| == 32 witness seq(32, _ => 0)

  function SecretOf(random: Random): string {
    UrlEncode(random)
  }

  function DigestOf(hash: Hash, secret: string): (hex: string)
    ensures |hex| == 64
  {
    HexEncode(hash(secret))
  }

  function Token(id: string, secret: string): string {
    id + "." + secret
  }

  lemma DigestOfDecodes(hash: Hash, secret: string)
    ensures HexDecode(DigestOf(hash, secret)) == Some(hash(secret))
    ensures DigestShape(DigestOf(hash, secret))
  {
    HexRoundTrip(hash(secret));
  }

  // ---------------------------------------------------------------- drafts

  function Created(input: CreateInput, digest: string, now: Instant): Record {
    Record(input.id, digest, TrimSpace(input.displayName), TrimSpace(input.owner), TrimSpace(input.environment),
           now, None, input.expiresAt, None, "")
  }

  function Rotated(prior: Record, digest: string, now: Instant): Record {
    prior.(secretSHA256 := digest, rotatedAt := Some(now))
  }

  function Revoked(prior: Record, now: Instant, reason: string): Record {
    prior.(revokedAt := Some(now), revocationReason := TrimSpace(reason))
  }

  /** What one record may turn into: only the digest by a rotation, only the revocation fields by a revocation. */
  predicate RotationOf(prior: Record, next: Record) {
    next.rotatedAt.Some? && next == prior.(secretSHA256 := next.secretSHA256, rotatedAt := next.rotatedAt)
  }

  predicate RevocationOf(prior: Record, next: Record) {
    next.revokedAt.Some? && next == prior.(revokedAt := next.revokedAt, revocationReason := next.revocationReason)
  }

  predicate Fresh(r: Record) {
    r.rotatedAt.None? && r.revokedAt.None? && r.revocationReason == ""
  }

  /** What a Create promises its caller about the record. */
  predicate AsRequested(r: Record, input: CreateInput, now: Instant) {
    && r.id == input.id && r.createdAt == now && r.expiresAt == input.expiresAt
    && r.displayName == TrimSpace(input.displayName) && r.owner == TrimSpace(input.owner)
    && r.environment == TrimSpace(input.environment) && Fresh(r)
  }
}
