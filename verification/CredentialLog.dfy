/**
 * The key-value bucket as a log: entry i has revision i + 1 and the value of a key is its last entry.
 * `Serial` is the history an atomic store would produce; what holds of every serial log is proved here.
 */
module CredentialLog {
  import opened Common
  import opened KeyRecords

  type Log = seq<Entry>

  /** Position of the newest entry of a key. */
  function LastIndex(log: Log, key: string): (r: Option<nat>)
    ensures r.Some? ==> r.value < |log| && log[r.value].key == key
    ensures r.Some? ==> forall j | r.value < j < |log| :: log[j].key != key
    ensures r.None? ==> forall j | 0 <= j < |log| :: log[j].key != key
  {
    if log == [] then None
    else if log[|log| - 1].key == key then Some(|log| - 1)
    else LastIndex(log[..|log| - 1], key)
  }

  lemma NewestIs(log: Log, i: nat)
    requires i < |log| && forall j | i < j < |log| :: log[j].key != log[i].key
    ensures LastIndex(log, log[i].key) == Some(i)
  {
    var r := LastIndex(log, log[i].key);
    assert r.Some?;
  }

  /** A key is live when its newest entry is a value, not a deletion marker. */
  predicate Live(log: Log, key: string) {
    LastIndex(log, key).Some? && log[LastIndex(log, key).value].op.Put?
  }

  /** kv.Keys: every live key once, in some order. */
  ghost predicate ListsLiveKeys(log: Log, keys: seq<string>) {
    && (forall k :: k in keys <==> Live(log, k))
    && (forall i, j | 0 <= i < j < |keys| :: keys[i] != keys[j])
  }

  /** The record a reader of the bucket obtains for a key. */
  function Current(log: Log, key: string): Option<Record> {
    if LastIndex(log, key).Some? then RecordOf(log[LastIndex(log, key).value]) else None
  }

  /** A reader finds the id with an unrevoked record, or with a revoked one. */
  predicate IsActive(log: Log, id: string) {
    Current(log, id).Some? && Current(log, id).value.revokedAt.None?
  }

  predicate IsRevoked(log: Log, id: string) {
    Current(log, id).Some? && Current(log, id).value.revokedAt.Some?
  }

  /** One atomic Create, Rotate or Revoke. */
  predicate Legit(prefix: Log, e: Entry) {
    && RecordOf(e).Some?
    && var r := RecordOf(e).value;
       if !Live(prefix, e.key) then Fresh(r)
       else
         && Current(prefix, e.key).Some?
         && var prior := Current(prefix, e.key).value;
            prior.revokedAt.None? && (RotationOf(prior, r) || RevocationOf(prior, r))
  }

  ghost predicate Serial(log: Log) {
    forall i | 0 <= i < |log| :: Legit(log[..i], log[i])
  }

  lemma SerialExtends(log: Log, e: Entry)
    requires Serial(log) && Legit(log, e)
    ensures Serial(log + [e])
  {
    var longer := log + [e];
    forall i | 0 <= i < |longer| ensures Legit(longer[..i], longer[i]) {
      if i < |log| {
        assert longer[..i] == log[..i];
      } else {
        assert longer[..i] == log;
      }
    }
  }

  lemma SerialPrefix(shorter: Log, log: Log)
    requires Serial(log) && shorter <= log
    ensures Serial(shorter)
  {
    forall i | 0 <= i < |shorter| ensures Legit(shorter[..i], shorter[i]) {
      assert shorter[..i] == log[..i];
    }
  }

  lemma SerialDecodes(log: Log, i: nat)
    requires Serial(log) && i < |log|
    ensures RecordOf(log[i]).Some?
  {
    assert Legit(log[..i], log[i]);
  }

  /** The entry an atomic operation replaced: the newest older entry of the same key, unrevoked. */
  lemma Predecessor(log: Log, i: nat, j: nat) returns (p: nat)
    requires Serial(log) && i < j < |log| && log[i].key == log[j].key
    ensures i <= p < j && log[p].key == log[j].key && LastIndex(log[..j], log[j].key) == Some(p)
    ensures RecordOf(log[p]).Some? && RecordOf(log[j]).Some?
    ensures RecordOf(log[p]).value.revokedAt.None?
    ensures var prior, next := RecordOf(log[p]).value, RecordOf(log[j]).value;
      RotationOf(prior, next) || RevocationOf(prior, next)
  {
    var prefix := log[..j];
    assert prefix[i].key == log[j].key;
    p := LastIndex(prefix, log[j].key).value;
    SerialDecodes(log, p);
    assert prefix[p] == log[p];
    assert Legit(log[..j], log[j]);
  }

  /** A committed revocation is the last word on its id: no later entry of that key exists at all. */
  lemma {:induction false} RevocationIsFinal(log: Log, i: nat, j: nat)
    requires Serial(log) && i < j < |log|
    requires RecordOf(log[i]).Some? && RecordOf(log[i]).value.revokedAt.Some?
    ensures log[j].key != log[i].key
    decreases j
  {
    if log[j].key == log[i].key {
      var p := Predecessor(log, i, j);
      if p > i {
        RevocationIsFinal(log, i, p);
      }
      assert false;
    }
  }

  lemma RevokedStaysCurrent(log: Log, i: nat)
    requires Serial(log) && i < |log|
    requires RecordOf(log[i]).Some? && RecordOf(log[i]).value.revokedAt.Some?
    ensures LastIndex(log, log[i].key) == Some(i)
    ensures Current(log, log[i].key) == RecordOf(log[i])
  {
    forall j | i < j < |log| ensures log[j].key != log[i].key {
      RevocationIsFinal(log, i, j);
    }
    NewestIs(log, i);
  }

  /** Id, metadata, creation and expiry times are fixed by the creation and never change. */
  lemma {:induction false} IdentityIsImmutable(log: Log, i: nat, j: nat)
    requires Serial(log) && i <= j < |log| && log[i].key == log[j].key
    ensures RecordOf(log[i]).Some? && RecordOf(log[j]).Some?
    ensures var a, b := RecordOf(log[i]).value, RecordOf(log[j]).value;
      && a.id == b.id && a.displayName == b.displayName && a.owner == b.owner && a.environment == b.environment
      && a.createdAt == b.createdAt && a.expiresAt == b.expiresAt
    decreases j
  {
    SerialDecodes(log, i);
    if i < j {
      var p := Predecessor(log, i, j);
      IdentityIsImmutable(log, i, p);
    }
  }

  /** A bucket that only the three operations write never loses a key: present means live and decodable. */
  lemma SerialIsLive(log: Log, key: string)
    requires Serial(log) && LastIndex(log, key).Some?
    ensures Live(log, key) && Current(log, key).Some?
  {
    SerialDecodes(log, LastIndex(log, key).value);
  }

  /** The three operations and an operator's deletions: every entry is legitimate or a delete marker. */
  ghost predicate WithDeletions(log: Log) {
    forall i | 0 <= i < |log| :: Legit(log[..i], log[i]) || !log[i].op.Put?
  }

  predicate DeletesKey(e: Entry, key: string) {
    e.key == key && !e.op.Put?
  }

  /** A value after a revocation of its key has a deletion of the key in between. */
  lemma {:induction false} ReopeningNeedsADeletion(log: Log, i: nat, j: nat)
    requires WithDeletions(log) && i < j < |log| && log[j].key == log[i].key && log[j].op.Put?
    requires RecordOf(log[i]).Some? && RecordOf(log[i]).value.revokedAt.Some?
    ensures exists m :: i < m < j && DeletesKey(log[m], log[i].key)
    decreases j
  {
    var prefix := log[..j];
    assert prefix[i].key == log[j].key;
    var p := LastIndex(prefix, log[j].key).value;
    assert prefix[p] == log[p] && i <= p;
    if !log[p].op.Put? {
      assert DeletesKey(log[p], log[i].key);
    } else {
      assert Legit(prefix, log[j]);
      ReopeningNeedsADeletion(log, i, p);
    }
  }

  /** With deletions allowed, a revocation is its id's last entry if and only if the key is never deleted after it. */
  lemma RevocationLastsIff(log: Log, i: nat)
    requires WithDeletions(log) && i < |log|
    requires RecordOf(log[i]).Some? && RecordOf(log[i]).value.revokedAt.Some?
    ensures LastIndex(log, log[i].key) == Some(i)
       <==> !exists m :: i < m < |log| && DeletesKey(log[m], log[i].key)
  {
    var key := log[i].key;
    var last := LastIndex(log, key).value;
    assert i <= last;
    if i < last {
      LaterEntryMeansDeleted(log, i, last);
    }
  }

  lemma LaterEntryMeansDeleted(log: Log, i: nat, last: nat)
    requires WithDeletions(log) && i < last < |log| && log[last].key == log[i].key
    requires RecordOf(log[i]).Some? && RecordOf(log[i]).value.revokedAt.Some?
    ensures exists m :: i < m < |log| && DeletesKey(log[m], log[i].key)
  {
    if log[last].op.Put? {
      ReopeningNeedsADeletion(log, i, last);
    } else {
      assert DeletesKey(log[last], log[i].key);
    }
  }

  /**
   * Finality rests on nobody deleting keys: after an operator's deletion the same id can be created again,
   * unrevoked, by an otherwise atomic Create.
   */
  lemma DeletionReopensAnID(log: Log, revoked: Record, again: Record)
    requires RecordOf(EntryFor(revoked)).Some? && revoked.revokedAt.Some?
    requires RecordOf(EntryFor(again)).Some? && again.id == revoked.id && Fresh(again)
    ensures Current(log + [EntryFor(revoked)], revoked.id) == Some(revoked)
    ensures !Legit(log + [EntryFor(revoked)], EntryFor(again))
    ensures Legit(log + [EntryFor(revoked), Entry(revoked.id, Delete)], EntryFor(again))
  {
    var before := log + [EntryFor(revoked)];
    var after := log + [EntryFor(revoked), Entry(revoked.id, Delete)];
    assert LastIndex(before, revoked.id) == Some(|log|);
    assert LastIndex(after, revoked.id) == Some(|log| + 1);
  }
}
