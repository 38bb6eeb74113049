/**
 * The three mutations of internal/adminhttp/server.go: store first, then refresh this replica's verifier. A refresh
 * that fails leaves the stored change in place and is reported as a warning.
 */
module AdminKeys {
  import opened Common
  import opened Text
  import Encoding
  import opened KeyRecords
  import opened CredentialLog
  import opened CredentialProtocol
  import opened Verifier
  import opened KeyStore
  import opened AdminRefresh
  import CredentialTokens
  import RevocationSpread

  datatype Answer<T> = Invalid | Reserved | Rejected(error: StoreError) | Stored(value: T, refreshed: bool)

  /** While a record is still the newest of its id, it is what the refresh installed for the id. */
  lemma NewestIsInstalled(before: Log, after: Log, managed: Managed, r: Record)
    requires before <= after && |before| > 0 && before[|before| - 1] == EntryFor(r)
    requires RecordOf(EntryFor(r)) == Some(r) && LastIndex(after, r.id) == Some(|before| - 1)
    requires Refreshed(before, after, managed)
    ensures r.id in managed && managed[r.id] == CredentialFor(r)
  {
    forall n | |before| <= n <= |after|
      ensures Live(after[..n], r.id) && Current(after[..n], r.id) == Some(r)
    {
      assert after[..n][|before| - 1] == before[|before| - 1];
      NewestIs(after[..n], |before| - 1);
    }
    assert LiveThroughout(before, after, r.id);
    var read: Record :| read.id == r.id && ReadDuring(before, after, read) && managed[r.id] == CredentialFor(read);
    var n :| |before| <= n <= |after| && Current(after[..n], read.id) == Some(read);
  }

  /** A revoked record that was current before the refresh is what the refresh installed, or nothing is. */
  lemma RevokedIsInstalled(before: Log, after: Log, managed: Managed, r: Record)
    requires before <= after && Serial(after) && Current(before, r.id) == Some(r) && r.revokedAt.Some?
    requires Refreshed(before, after, managed)
    ensures RevocationSpread.RefusedBy(managed, r.id)
  {
    var i := LastIndex(before, r.id).value;
    if r.id in managed {
      var read: Record :| read.id == r.id && ReadDuring(before, after, read) && managed[r.id] == CredentialFor(read);
      var n :| |before| <= n <= |after| && Current(after[..n], read.id) == Some(read);
      assert after[..n][i] == before[i];
      SerialPrefix(after[..n], after);
      RevokedStaysCurrent(after[..n], i);
    }
  }

  lemma OneMoreIsFree(fixed: Fixed, log: Log, e: Entry)
    requires FreeOfStaticIDs(fixed, log) && e.key !in fixed
    ensures FreeOfStaticIDs(fixed, log + [e])
  {
  }

  /** With its record installed, the issued token is answered as its id exactly while the record is in force. */
  lemma IssuedTokenWorks(hash: Hash, fixed: Fixed, managed: Managed, r: Record, random: Random, now: Instant)
    requires RecordOf(EntryFor(r)) == Some(r) && Matches(hash, r, SecretOf(random))
    requires r.id in managed && managed[r.id] == CredentialFor(r)
    ensures Authorize(hash, fixed, managed, PREFIX + Token(r.id, SecretOf(random)), now) == Some(r.id)
            <==> (r.revokedAt.None? && (r.expiresAt.Some? ==> now < r.expiresAt.value))
  {
    var token := Token(r.id, SecretOf(random));
    TokenRoundTrip(hash, fixed, managed, r, random, now, "", "");
    assert PREFIX + "" + token + "" == PREFIX + token;
    CredentialTokens.DigestBytesMatch(hash, r, SecretOf(random));
  }

  /** The token is accepted at exactly the times before the record's expiry: always, when it has none. */
  ghost predicate WorksUntilExpiry(hash: Hash, fixed: Fixed, managed: Managed, issued: Issued) {
    forall at: Instant ::
      Authorize(hash, fixed, managed, PREFIX + issued.token, at) == Some(issued.record.id)
      <==> (issued.record.expiresAt.Some? ==> at < issued.record.expiresAt.value)
  }

  lemma IssuedDecodes(hash: Hash, r: Record, random: Random)
    requires ValidID(r.id) && Matches(hash, r, SecretOf(random))
    ensures RecordOf(EntryFor(r)) == Some(r)
  {
    DigestOfDecodes(hash, SecretOf(random));
  }

  /** A refresh after a Create or Rotate that nobody overtook: the record is installed and its token works. */
  lemma IssueTakesEffect(
      hash: Hash, fixed: Fixed, before: Log, after: Log, managed: Managed, issued: Issued, random: Random)
    requires ValidID(issued.record.id) && Matches(hash, issued.record, SecretOf(random))
    requires issued.record.revokedAt.None?
    requires issued.token == Token(issued.record.id, SecretOf(random))
    requires before <= after && |before| > 0 && before[|before| - 1] == EntryFor(issued.record)
    requires LastIndex(after, issued.record.id) == Some(|before| - 1) && Refreshed(before, after, managed)
    ensures issued.record.id in managed && managed[issued.record.id] == CredentialFor(issued.record)
    ensures WorksUntilExpiry(hash, fixed, managed, issued)
  {
    IssuedDecodes(hash, issued.record, random);
    NewestIsInstalled(before, after, managed, issued.record);
    forall at: Instant
      ensures Authorize(hash, fixed, managed, PREFIX + issued.token, at) == Some(issued.record.id)
              <==> (issued.record.expiresAt.Some? ==> at < issued.record.expiresAt.value)
    {
      IssuedTokenWorks(hash, fixed, managed, issued.record, random, at);
    }
  }

  class AdminServer {
    const keys: Store
    const auth: BearerVerifier

    constructor (keys: Store, auth: BearerVerifier)
      ensures this.keys == keys && this.auth == auth
    {
      this.keys := keys;
      this.auth := auth;
    }

    /** A listing that always gets its answers, of a bucket without static ids that only the store wrote. */
    ghost predicate Smooth(feed: Feed)
      reads keys.kv
    {
      AlwaysReachable(feed) && Serial(keys.kv.log) && FreeOfStaticIDs(auth.fixed, keys.kv.log)
    }

    method IsReserved(id: string) returns (reserved: bool)
      requires ValidID(id)
      ensures reserved <==> id in auth.fixed
    {
      StoreIDsAreAcceptable(id);
      StaticIDsAreReserved(auth.fixed, id);
      reserved := auth.HasStaticID(id);
    }

    /** The refresh after an issued key was stored. If nobody overtook the key, it is installed and its token works. */
    method RefreshFor(issued: Issued, ghost random: Random, feed: Feed) returns (refreshed: bool)
      requires auth.hash == keys.hash && ValidID(issued.record.id) && issued.record.revokedAt.None?
      requires Matches(auth.hash, issued.record, SecretOf(random))
      requires issued.token == Token(issued.record.id, SecretOf(random))
      requires |keys.kv.log| > 0 && keys.kv.log[|keys.kv.log| - 1] == EntryFor(issued.record)
      modifies keys.kv, auth
      ensures old(keys.kv.log) <= keys.kv.log
      ensures Smooth(feed) ==> refreshed
      ensures !refreshed ==> auth.managed == old(auth.managed)
      ensures refreshed && LastIndex(keys.kv.log, issued.record.id) == Some(|old(keys.kv.log)| - 1) ==>
        && issued.record.id in auth.managed && auth.managed[issued.record.id] == CredentialFor(issued.record)
        && WorksUntilExpiry(auth.hash, auth.fixed, auth.managed, issued)
    {
      ghost var stored := keys.kv.log;
      refreshed := RefreshVerifier(keys.kv, auth, feed);
      if refreshed && LastIndex(keys.kv.log, issued.record.id) == Some(|stored| - 1) {
        IssueTakesEffect(auth.hash, auth.fixed, stored, keys.kv.log, auth.managed, issued, random);
      }
    }

    /**
     * createKey. A static id is refused before anything is written, so a bucket free of this replica's static ids
     * stays so. A created key whose refresh went through authenticates here at once, by the returned token, until
     * the expiry asked for.
     */
    method CreateKey(input: CreateInput, now: Instant, others: Log, weather: Weather, feed: Feed)
      returns (a: Answer<Issued>, ghost stored: Log)
      requires auth.hash == keys.hash
      modifies keys.kv, auth
      ensures stored <= keys.kv.log
      ensures FreeOfStaticIDs(auth.fixed, old(keys.kv.log) + others) ==> FreeOfStaticIDs(auth.fixed, stored)
      ensures a.Invalid? <==>
                !ValidID(TrimSpace(input.id)) || (input.expiresAt.Some? && input.expiresAt.value <= now)
      ensures a.Reserved? <==> !a.Invalid? && TrimSpace(input.id) in auth.fixed
      ensures a.Stored? <==>
                && !a.Invalid? && !a.Reserved? && weather.random.Some? && weather.reply.Acknowledged?
                && !Live(old(keys.kv.log) + others, TrimSpace(input.id))
      ensures a.Invalid? || a.Reserved? ==> keys.kv.log == old(keys.kv.log)
      ensures a.Rejected? && !weather.reply.ReplyLost? ==> stored == old(keys.kv.log) + others
      ensures !a.Stored? ==> auth.managed == old(auth.managed) && keys.kv.log == stored
      ensures a.Stored? ==>
        && AsRequested(a.value.record, input.(id := TrimSpace(input.id)), now)
        && a.value.record.expiresAt == input.expiresAt
        && Matches(keys.hash, a.value.record, SecretOf(weather.random.value))
        && a.value.token == Token(TrimSpace(input.id), SecretOf(weather.random.value))
        && stored == old(keys.kv.log) + others + [EntryFor(a.value.record)] && a.value.revision == |stored|
      ensures a.Stored? ==>
        && (Smooth(feed) ==> a.refreshed)
        && (!a.refreshed ==> auth.managed == old(auth.managed))
        && (a.refreshed && LastIndex(keys.kv.log, a.value.record.id) == Some(|stored| - 1) ==>
              WorksUntilExpiry(auth.hash, auth.fixed, auth.managed, a.value))
    {
      stored := keys.kv.log;
      var trimmed := input.(id := TrimSpace(input.id));
      if !ValidID(trimmed.id) || (input.expiresAt.Some? && !(now < input.expiresAt.value)) {
        FreePrefix(auth.fixed, stored, others);
        return Invalid, stored;
      }
      var reserved := IsReserved(trimmed.id);
      if reserved {
        FreePrefix(auth.fixed, stored, others);
        return Reserved, stored;
      }
      var r := keys.Create(trimmed, now, others, weather);
      stored := keys.kv.log;
      CreationKeepsFree(auth.fixed, keys.hash, old(keys.kv.log) + others, stored, trimmed, weather, now);
      if r.Err? {
        return Rejected(r.error), stored;
      }
      var refreshed := RefreshFor(r.value, weather.random.value, feed);
      return Stored(r.value, refreshed), stored;
    }

    /** rotateKey. After a rotation whose refresh went through, its record is installed and its token accepted here. */
    method RotateKey(id: string, now: Instant, others: Log, weather: Weather, feed: Feed)
      returns (a: Answer<Issued>, ghost stored: Log)
      requires auth.hash == keys.hash
      modifies keys.kv, auth
      ensures stored <= keys.kv.log
      ensures a.Invalid? <==> !ValidID(TrimSpace(id))
      ensures !a.Reserved?
      ensures a.Stored? <==>
                && ValidID(TrimSpace(id)) && !weather.readFails && weather.random.Some? && weather.reply.Acknowledged?
                && IsActive(old(keys.kv.log), TrimSpace(id))
                && LastIndex(old(keys.kv.log) + others, TrimSpace(id)) == LastIndex(old(keys.kv.log), TrimSpace(id))
      ensures a.Invalid? ==> keys.kv.log == old(keys.kv.log)
      ensures a.Rejected? && !weather.reply.ReplyLost? ==> stored == old(keys.kv.log) + others
      ensures !a.Stored? ==> auth.managed == old(auth.managed) && keys.kv.log == stored
      ensures a.Stored? ==>
        && RotationOf(Current(old(keys.kv.log), TrimSpace(id)).value, a.value.record)
        && a.value.record.id == TrimSpace(id) && a.value.record.rotatedAt == Some(now)
        && Matches(keys.hash, a.value.record, SecretOf(weather.random.value))
        && a.value.token == Token(TrimSpace(id), SecretOf(weather.random.value))
        && stored == old(keys.kv.log) + others + [EntryFor(a.value.record)] && a.value.revision == |stored|
      ensures a.Stored? ==>
        && (Smooth(feed) ==> a.refreshed)
        && (!a.refreshed ==> auth.managed == old(auth.managed))
        && (a.refreshed && LastIndex(keys.kv.log, a.value.record.id) == Some(|stored| - 1) ==>
              && a.value.record.id in auth.managed
              && auth.managed[a.value.record.id] == CredentialFor(a.value.record)
              && WorksUntilExpiry(auth.hash, auth.fixed, auth.managed, a.value))
    {
      stored := keys.kv.log;
      if !ValidID(TrimSpace(id)) {
        return Invalid, stored;
      }
      var r := keys.Rotate(TrimSpace(id), now, others, weather);
      stored := keys.kv.log;
      if r.Err? {
        return Rejected(r.error), stored;
      }
      var refreshed := RefreshFor(r.value, weather.random.value, feed);
      return Stored(r.value, refreshed), stored;
    }

    /**
     * revokeKey. When it answers without a warning, then on a log that only these operations wrote no header
     * authenticates as the id on this replica, at any time on the clock.
     */
    method RevokeKey(id: string, now: Instant, reason: string, others: Log, weather: Weather, feed: Feed)
      returns (a: Answer<Record>, ghost stored: Log)
      modifies keys.kv, auth
      ensures stored <= keys.kv.log
      ensures a.Invalid? <==> !ValidID(TrimSpace(id))
      ensures !a.Reserved?
      ensures a.Stored? <==>
                && ValidID(TrimSpace(id)) && !weather.readFails && Current(old(keys.kv.log), TrimSpace(id)).Some?
                && (Current(old(keys.kv.log), TrimSpace(id)).value.revokedAt.Some?
                    || (weather.reply.Acknowledged?
                        && LastIndex(old(keys.kv.log) + others, TrimSpace(id))
                           == LastIndex(old(keys.kv.log), TrimSpace(id))))
      ensures a.Invalid? ==> keys.kv.log == old(keys.kv.log)
      ensures a.Rejected? && !weather.reply.ReplyLost? ==> stored == old(keys.kv.log) + others
      ensures !a.Stored? ==> auth.managed == old(auth.managed) && keys.kv.log == stored
      ensures a.Stored? && IsActive(old(keys.kv.log), TrimSpace(id)) ==>
        && RevocationOf(Current(old(keys.kv.log), TrimSpace(id)).value, a.value)
        && a.value.revokedAt == Some(now) && a.value.revocationReason == TrimSpace(reason)
        && stored == old(keys.kv.log) + others + [EntryFor(a.value)]
      ensures a.Stored? && IsRevoked(old(keys.kv.log), TrimSpace(id)) ==>
        && a.value == Current(old(keys.kv.log), TrimSpace(id)).value
        && stored == old(keys.kv.log) + others
      ensures a.Stored? ==>
        && a.value.id == TrimSpace(id) && a.value.revokedAt.Some?
        && (Smooth(feed) ==> a.refreshed)
        && (!a.refreshed ==> auth.managed == old(auth.managed))
        && (a.refreshed && Serial(keys.kv.log) && TrimSpace(id) !in auth.fixed ==>
              forall header, at :: Authorize(auth.hash, auth.fixed, auth.managed, header, at) != Some(TrimSpace(id)))
    {
      stored := keys.kv.log;
      if !ValidID(TrimSpace(id)) {
        return Invalid, stored;
      }
      var r := keys.Revoke(TrimSpace(id), now, reason, others, weather);
      stored := keys.kv.log;
      if r.Err? {
        return Rejected(r.error), stored;
      }
      var refreshed := RefreshVerifier(keys.kv, auth, feed);
      if refreshed && Serial(keys.kv.log) && TrimSpace(id) !in auth.fixed {
        SerialPrefix(old(keys.kv.log) + others, keys.kv.log);
        RevokedIsInstalled(stored, keys.kv.log, auth.managed, r.value);
        forall header, at
          ensures Authorize(auth.hash, auth.fixed, auth.managed, header, at) != Some(TrimSpace(id))
        {
          RevocationSpread.RefusedIsUnauthorized(auth.hash, auth.fixed, auth.managed, TrimSpace(id), header, at);
        }
      }
      return Stored(r.value, refreshed), stored;
    }
  }

  /** Every id the key store accepts is acceptable to the verifier. */
  lemma StoreIDsAreAcceptable(id: string)
    requires ValidID(id)
    ensures AcceptableID(id)
  {
    forall i | 0 <= i < |id| ensures id[i] != '.' && id[i] != ':' {
      Encoding.UrlLetterPlain(id[i]);
    }
  }

  lemma FreePrefix(fixed: Fixed, log: Log, others: Log)
    ensures FreeOfStaticIDs(fixed, log + others) ==> FreeOfStaticIDs(fixed, log)
  {
    forall i | 0 <= i < |log| ensures (log + others)[i] == log[i] {
    }
  }

  /** A Create adds no entry of a static id when its own id is not one. */
  lemma CreationKeepsFree(
      fixed: Fixed, hash: Hash, log: Log, stored: Log, input: CreateInput, weather: Weather, now: Instant)
    requires input.id !in fixed
    requires stored == log
             || (weather.random.Some?
                 && CreationStored(hash, log, stored, input, SecretOf(weather.random.value), now))
    ensures FreeOfStaticIDs(fixed, log) ==> FreeOfStaticIDs(fixed, stored)
  {
    if FreeOfStaticIDs(fixed, log) && stored != log {
      var draft :| stored == log + [EntryFor(draft)] && AsRequested(draft, input, now);
      OneMoreIsFree(fixed, log, EntryFor(draft));
    }
  }
}
