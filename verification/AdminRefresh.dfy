/**
 * List and refreshVerifier as one admin request performs them: the keys, then a read per key, the log growing in
 * between. `ReadDuring` and `LiveThroughout` speak of the moments of the bucket from the start to the end of a call.
 */
module AdminRefresh {
  import opened Common
  import opened KeyRecords
  import opened CredentialLog
  import opened Verifier
  import opened KeyStore

  /** What the bucket does during one listing: whether it answers, and what others commit before each read. */
  datatype Feed = Feed(keysReachable: bool, reachable: nat -> bool, others: nat -> Log)

  ghost predicate AlwaysReachable(feed: Feed) {
    feed.keysReachable && forall i: nat :: feed.reachable(i)
  }

  /** The record was its id's current one at some moment of the call. */
  ghost predicate ReadDuring(before: Log, after: Log, r: Record) {
    exists n :: |before| <= n <= |after| && Current(after[..n], r.id) == Some(r)
  }

  /** The key was live at every moment of the call. */
  ghost predicate LiveThroughout(before: Log, after: Log, key: string) {
    forall n | |before| <= n <= |after| :: Live(after[..n], key)
  }

  ghost predicate Lists(records: seq<Record>, id: string) {
    exists i :: 0 <= i < |records| && records[i].id == id
  }

  lemma ReadEarlier(before: Log, middle: Log, after: Log, r: Record)
    requires middle <= after && ReadDuring(before, middle, r)
    ensures ReadDuring(before, after, r)
  {
    var n :| |before| <= n <= |middle| && Current(middle[..n], r.id) == Some(r);
    assert after[..n] == middle[..n];
  }

  lemma LiveEarlier(before: Log, middle: Log, after: Log, key: string)
    requires before <= middle <= after && LiveThroughout(before, after, key)
    ensures LiveThroughout(before, middle, key) && Live(middle, key)
  {
    forall n | |before| <= n <= |middle| ensures Live(middle[..n], key) {
      assert after[..n] == middle[..n];
    }
    assert middle[..|middle|] == middle;
  }

  /** On a log that only Create, Rotate and Revoke write, what is live stays live. */
  lemma SerialKeepsLive(before: Log, after: Log, key: string)
    requires Serial(after) && before <= after && Live(before, key)
    ensures LiveThroughout(before, after, key)
  {
    forall n | |before| <= n <= |after| ensures Live(after[..n], key) {
      var i := LastIndex(before, key).value;
      assert after[..n][i].key == key;
      SerialPrefix(after[..n], after);
      SerialIsLive(after[..n], key);
    }
  }

  lemma SerialReads(middle: Log, after: Log, key: string)
    requires Serial(after) && middle <= after && Live(middle, key)
    ensures Current(middle, key).Some?
  {
    SerialPrefix(middle, after);
    SerialIsLive(middle, key);
  }

  /** What a listing that has worked through some of the keys has to show for it. */
  ghost predicate Listing(before: Log, after: Log, keys: seq<string>, i: nat, records: seq<Record>)
    requires i <= |keys|
  {
    && (forall j | 0 <= j < |records| :: records[j].id in keys[..i] && ReadDuring(before, after, records[j]))
    && (forall a, b | 0 <= a < b < |records| :: records[a].id != records[b].id)
    && (forall j | 0 <= j < i && LiveThroughout(before, after, keys[j]) :: Lists(records, keys[j]))
  }

  lemma ListingGrows(before: Log, middle: Log, after: Log, keys: seq<string>, i: nat, records: seq<Record>)
    requires i <= |keys| && before <= middle <= after && Listing(before, middle, keys, i, records)
    ensures Listing(before, after, keys, i, records)
  {
    forall j | 0 <= j < |records| ensures records[j].id in keys[..i] && ReadDuring(before, after, records[j]) {
      ReadEarlier(before, middle, after, records[j]);
    }
    forall j | 0 <= j < i && LiveThroughout(before, after, keys[j]) ensures Lists(records, keys[j]) {
      LiveEarlier(before, middle, after, keys[j]);
    }
  }

  lemma ListingSkips(before: Log, after: Log, keys: seq<string>, i: nat, records: seq<Record>)
    requires i < |keys| && before <= after && Listing(before, after, keys, i, records) && !Live(after, keys[i])
    ensures Listing(before, after, keys, i + 1, records)
  {
    assert keys[..i + 1] == keys[..i] + [keys[i]];
    assert after[..|after|] == after;
  }

  lemma ListingAdds(before: Log, after: Log, keys: seq<string>, i: nat, records: seq<Record>, r: Record)
    requires i < |keys| && before <= after && Listing(before, after, keys, i, records)
    requires forall j | 0 <= j < i :: keys[j] != keys[i]
    requires Current(after, keys[i]) == Some(r) && r.id == keys[i]
    ensures Listing(before, after, keys, i + 1, records + [r])
  {
    var longer := records + [r];
    assert keys[..i + 1] == keys[..i] + [keys[i]];
    assert after[..|after|] == after;
    assert ReadDuring(before, after, r);
    forall j | 0 <= j < i + 1 && LiveThroughout(before, after, keys[j]) ensures Lists(longer, keys[j]) {
      if j < i {
        assert Lists(records, keys[j]);
        var k :| 0 <= k < |records| && records[k].id == keys[j];
        assert longer[k].id == keys[j];
      } else {
        assert longer[|records|].id == keys[j];
      }
    }
  }

  /**
   * One Get per key of a snapshot of the keys. Whatever others commit meanwhile, each returned record was current
   * at some moment of the call, none is returned twice, and no key that was live all along is missing.
   */
  method List(kv: Bucket, feed: Feed) returns (r: Result<seq<Record>, StoreError>)
    modifies kv
    ensures old(kv.log) <= kv.log
    ensures r.Ok? ==>
      && (forall i | 0 <= i < |r.value| :: ReadDuring(old(kv.log), kv.log, r.value[i]))
      && (forall i, j | 0 <= i < j < |r.value| :: r.value[i].id != r.value[j].id)
      && (forall id | LiveThroughout(old(kv.log), kv.log, id) :: Lists(r.value, id))
    ensures !feed.keysReachable ==> r.Err?
    ensures AlwaysReachable(feed) && Serial(kv.log) ==> r.Ok?
  {
    ghost var start := kv.log;
    var keys := kv.Keys();
    if !feed.keysReachable {
      return Err(Unavailable);
    }
    var records: seq<Record> := [];
    for i := 0 to |keys|
      invariant start <= kv.log && Listing(start, kv.log, keys, i, records)
    {
      ghost var middle := kv.log;
      kv.OtherReplicas(feed.others(i));
      ListingGrows(start, middle, kv.log, keys, i, records);
      if !feed.reachable(i) {
        return Err(Unavailable);
      }
      var entry := kv.Get(keys[i]);
      if entry.None? {
        ListingSkips(start, kv.log, keys, i, records);
        continue;
      }
      var decoded := DecodePayload(keys[i], entry.value.0);
      if decoded.Err? {
        if Serial(kv.log) {
          SerialReads(kv.log, kv.log, keys[i]);
        }
        return Err(BadRecord(decoded.error));
      }
      ListingAdds(start, kv.log, keys, i, records, decoded.value);
      records := records + [decoded.value];
    }
    forall id | LiveThroughout(start, kv.log, id) ensures Lists(records, id) {
      assert kv.log[..|start|] == start;
      assert Live(start, id);
    }
    return Ok(records);
  }

  /** A managed key read at some moment of the call. */
  ghost predicate HoldsRead(before: Log, after: Log, id: string, c: Credential) {
    exists r: Record :: r.id == id && ReadDuring(before, after, r) && c == CredentialFor(r)
  }

  /** The verifier holds what one listing found. */
  ghost predicate Refreshed(before: Log, after: Log, managed: Managed) {
    && (forall id | id in managed :: HoldsRead(before, after, id, managed[id]))
    && (forall id | LiveThroughout(before, after, id) :: id in managed)
  }

  /** On a log that only Create, Rotate and Revoke wrote, a refresh misses nothing that was there when it began. */
  lemma SerialRefreshIsComplete(before: Log, after: Log, managed: Managed)
    requires Serial(after) && before <= after && Refreshed(before, after, managed)
    ensures forall id | Live(before, id) :: id in managed
  {
    forall id | Live(before, id) ensures id in managed {
      SerialKeepsLive(before, after, id);
    }
  }

  function KeysFor(records: seq<Record>): (keys: seq<ManagedKey>)
    ensures |keys| == |records| && forall i | 0 <= i < |keys| :: keys[i] == KeyFor(records[i])
  {
    seq(|records|, i requires 0 <= i < |records| => KeyFor(records[i]))
  }

  lemma InstalledIsRefreshed(before: Log, after: Log, records: seq<Record>, managed: Managed)
    requires Projects(KeysFor(records), managed)
    requires forall i | 0 <= i < |records| :: ReadDuring(before, after, records[i])
    requires forall id | LiveThroughout(before, after, id) :: Lists(records, id)
    ensures Refreshed(before, after, managed)
  {
    var keys := KeysFor(records);
    forall id | id in managed ensures HoldsRead(before, after, id, managed[id]) {
      assert Listed(keys, id);
      var i :| 0 <= i < |keys| && keys[i].id == id;
      assert records[i].id == id && managed[id] == CredentialOf(keys[i]) == CredentialFor(records[i]);
    }
    forall id | LiveThroughout(before, after, id) ensures id in managed {
      var i :| 0 <= i < |records| && records[i].id == id;
      assert keys[i].id == id;
    }
  }

  lemma ReadRecordDecodes(before: Log, after: Log, r: Record)
    requires ReadDuring(before, after, r)
    ensures DecodeDigest(r.secretSHA256).Some? && AcceptableID(r.id)
  {
    var n :| |before| <= n <= |after| && Current(after[..n], r.id) == Some(r);
    RecordKeyDecodes(r);
  }

  /** Records that were read decode, so the verifier refuses the list only for a static id. */
  lemma ReadKeysAcceptable(fixed: Fixed, before: Log, after: Log, records: seq<Record>)
    requires forall i | 0 <= i < |records| :: ReadDuring(before, after, records[i])
    requires forall i, j | 0 <= i < j < |records| :: records[i].id != records[j].id
    ensures Acceptable(fixed, KeysFor(records)) <==> forall i | 0 <= i < |records| :: records[i].id !in fixed
  {
    var keys := KeysFor(records);
    forall i | 0 <= i < |records| ensures KeyAcceptable(fixed, keys[i]) <==> records[i].id !in fixed {
      ReadRecordDecodes(before, after, records[i]);
    }
    assert Acceptable(fixed, keys) ==> forall i | 0 <= i < |records| :: KeyAcceptable(fixed, keys[i]);
  }

  /** No static id was ever in the bucket during the call. */
  ghost predicate FreeOfStaticIDs(fixed: Fixed, log: Log) {
    forall i | 0 <= i < |log| :: log[i].key !in fixed
  }

  lemma ReadsAreFree(fixed: Fixed, before: Log, after: Log, r: Record)
    requires FreeOfStaticIDs(fixed, after) && ReadDuring(before, after, r)
    ensures r.id !in fixed
  {
    var n :| |before| <= n <= |after| && Current(after[..n], r.id) == Some(r);
    assert after[..n][LastIndex(after[..n], r.id).value].key == r.id;
  }

  /**
   * Replaces the verifier's map by what List returned: everything live throughout the call, each key as it was at
   * some moment of it. On any failure the verifier keeps what it had; a serial log with no static id, read
   * without failure, gives none.
   */
  method RefreshVerifier(kv: Bucket, verifier: BearerVerifier, feed: Feed) returns (ok: bool)
    modifies kv, verifier
    ensures old(kv.log) <= kv.log
    ensures ok ==> Refreshed(old(kv.log), kv.log, verifier.managed)
    ensures !ok ==> verifier.managed == old(verifier.managed)
    ensures !feed.keysReachable ==> !ok
    ensures AlwaysReachable(feed) && Serial(kv.log) && FreeOfStaticIDs(verifier.fixed, kv.log) ==> ok
  {
    ghost var start := kv.log;
    var records := List(kv, feed);
    if records.Err? {
      return false;
    }
    var managed: seq<ManagedKey> := [];
    for i := 0 to |records.value|
      invariant |managed| == i && forall j | 0 <= j < i :: managed[j] == KeyFor(records.value[j])
    {
      managed := managed + [KeyFor(records.value[i])];
    }
    assert managed == KeysFor(records.value);
    ReadKeysAcceptable(verifier.fixed, start, kv.log, records.value);
    if FreeOfStaticIDs(verifier.fixed, kv.log) {
      forall i | 0 <= i < |records.value| ensures records.value[i].id !in verifier.fixed {
        ReadsAreFree(verifier.fixed, start, kv.log, records.value[i]);
      }
    }
    var r := verifier.ReplaceManaged(managed);
    if r.Ok? {
      InstalledIsRefreshed(start, kv.log, records.value, verifier.managed);
    }
    return r.Ok?;
  }
}
