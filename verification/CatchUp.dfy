/**
 * What a replica can always do, however it got where it is: take the snapshot, follow the log, refresh itself
 * through the admin server. And what a failed refresh can never do.
 */
module CatchUp {
  import opened Common
  import opened KeyRecords
  import opened CredentialLog
  import opened Verifier
  import WatchSync
  import opened Replicas
  import opened DrainedWatch
  import opened AdminRefresh

  // ---------------------------------------------------------------- the snapshot

  predicate OncePerKey(consumed: seq<WatchSync.Delivery>) {
    forall i, j | 0 <= i < j < |consumed| :: consumed[i].key != consumed[j].key
  }

  /** The delivery is of its key's newest entry, which is among the first n. */
  predicate OfNewest(log: Log, d: WatchSync.Delivery, n: nat) {
    LastIndex(log, d.key).Some? && LastIndex(log, d.key).value < n
    && d == WatchSync.DeliveryOf(log[LastIndex(log, d.key).value])
  }

  /** A watch opened on the log that has worked through its first entries and not yet seen the marker. */
  ghost predicate Replaying(s: State, log: Log) {
    && s == State(log, s.sync, s.next, |log|, map[]) && s.next <= |log|
    && s.sync == WatchSync.Started.(cache := s.sync.cache, consumed := s.sync.consumed)
    && (forall k | k in s.sync.cache :: LastIndex(log, k).Some?)
    && OncePerKey(s.sync.consumed)
    && (forall i | 0 <= i < |s.sync.consumed| :: OfNewest(log, s.sync.consumed[i], s.next))
  }

  /** A value, delivered before the marker, is only put into the map. */
  lemma EarlyValueIsKept(fixed: Fixed, s: WatchSync.State, d: WatchSync.Delivery)
    requires s.running && !s.initialized && d.change.Value?
    ensures WatchSync.Step(fixed, s, WatchSync.Update(d))
         == s.(consumed := s.consumed + [d], cache := s.cache[d.key := d.change.record])
  {
  }

  lemma NewestIsDelivered(s: State, log: Log, sync: WatchSync.State)
    requires Replaying(s, log) && s.next < |log| && LastIndex(log, log[s.next].key) == Some(s.next)
    requires var d := WatchSync.DeliveryOf(log[s.next]);
      && d.change.Value?
      && sync == s.sync.(consumed := s.sync.consumed + [d], cache := s.sync.cache[d.key := d.change.record])
    ensures Replaying(s.(sync := sync, next := s.next + 1), log)
  {
    var d := WatchSync.DeliveryOf(log[s.next]);
    forall i | 0 <= i < |s.sync.consumed| ensures s.sync.consumed[i].key != d.key {
      assert OfNewest(log, s.sync.consumed[i], s.next);
    }
    forall i | 0 <= i < |sync.consumed| ensures OfNewest(log, sync.consumed[i], s.next + 1) {
      if i < |s.sync.consumed| {
        assert OfNewest(log, s.sync.consumed[i], s.next);
      }
    }
  }

  /** What is not superseded is delivered; what is, is skipped. */
  lemma ReplayStep(fixed: Fixed, s: State, log: Log) returns (e: Event)
    requires Serial(log) && Replaying(s, log) && s.next < |log|
    ensures Replaying(Apply(fixed, s, e), log) && Apply(fixed, s, e).next == s.next + 1
  {
    if Superseded(s) {
      e := WatchSkip;
    } else {
      e := WatchNext;
      NewestIs(log, s.next);
      SerialDecodes(log, s.next);
      EarlyValueIsKept(fixed, s.sync, WatchSync.DeliveryOf(log[s.next]));
      NewestIsDelivered(s, log, Apply(fixed, s, e).sync);
    }
  }

  /** The marker after the last entry installs the snapshot, unless a static id is in it. */
  lemma MarkerInstalls(fixed: Fixed, s: State, log: Log)
    requires Replaying(s, log) && s.next == |log| && FreeOfStaticIDs(fixed, log)
    ensures var t := Apply(fixed, s, WatchMarker);
      && t.log == log && UpToDate(t) && t.sync.running && t.sync.initialized
      && t.sync.ready == [WatchSync.SnapshotInstalled] && t.sync.consumed == s.sync.consumed
  {
    assert !WatchSync.Collides(fixed, s.sync.cache) by {
      forall k | k in s.sync.cache ensures k !in fixed {
        assert log[LastIndex(log, k).value].key == k;
      }
    }
  }

  lemma {:induction false} ReplayRest(fixed: Fixed, s: State, log: Log) returns (events: seq<Event>)
    requires Serial(log) && FreeOfStaticIDs(fixed, log) && Replaying(s, log)
    ensures var t := Run(fixed, s, events);
      && t.log == log && UpToDate(t) && t.sync.running && t.sync.initialized
      && t.sync.ready == [WatchSync.SnapshotInstalled] && OncePerKey(t.sync.consumed)
    decreases |log| - s.next
  {
    if s.next == |log| {
      MarkerInstalls(fixed, s, log);
      events := [WatchMarker];
      assert events[1..] == [];
    } else {
      var e := ReplayStep(fixed, s, log);
      var more := ReplayRest(fixed, Apply(fixed, s, e), log);
      events := [e] + more;
      assert events[1..] == more;
    }
  }

  /**
   * On every log that only Create, Rotate and Revoke wrote, without static ids, a starting replica reaches the state
   * in which it is healthy and its verifier equals the store, and for that it is sent each key at most once.
   */
  lemma SnapshotCatchesUp(fixed: Fixed, log: Log) returns (events: seq<Event>)
    requires Serial(log) && FreeOfStaticIDs(fixed, log)
    ensures var t := Run(fixed, Start(log), events);
      && t.log == log && UpToDate(t) && t.sync.ready == [WatchSync.SnapshotInstalled]
      && (forall i, j | 0 <= i < j < |t.sync.consumed| :: t.sync.consumed[i].key != t.sync.consumed[j].key)
      && forall id :: VerifierAgreesAt(t.sync.managed, log, id)
  {
    events := ReplayRest(fixed, Start(log), log);
    forall id ensures VerifierAgreesAt(Run(fixed, Start(log), events).sync.managed, log, id) {
      DrainedVerifierEqualsSerialStore(fixed, log, events, id);
    }
  }

  // ---------------------------------------------------------------- one more commit

  lemma DeliveredCommitIsInstalled(fixed: Fixed, s: State, e: Entry)
    requires s.sync.running && s.sync.initialized && s.next == |s.log| && RecordOf(e).Some?
    requires !WatchSync.Collides(fixed, s.sync.cache[e.key := RecordOf(e).value])
    ensures var t := Apply(fixed, Apply(fixed, s, Commit(e)), WatchNext);
      t.log == s.log + [e] && UpToDate(t) && t.refreshes == s.refreshes
  {
    var committed := Apply(fixed, s, Commit(e));
    assert committed.log[s.next] == e && WatchSync.DeliveryOf(e).change == WatchSync.Value(RecordOf(e).value);
  }

  /** An up-to-date replica is up to date again as soon as the next commit has been delivered to it. */
  lemma CommitIsFollowed(fixed: Fixed, log: Log, events: seq<Event>, e: Entry)
    requires var s := Run(fixed, Start(log), events);
      UpToDate(s) && Serial(s.log + [e]) && FreeOfStaticIDs(fixed, s.log + [e])
    ensures var s := Run(fixed, Start(log), events);
      var t := Apply(fixed, Apply(fixed, s, Commit(e)), WatchNext);
      t.log == s.log + [e] && UpToDate(t) && t.refreshes == s.refreshes
  {
    var s := Run(fixed, Start(log), events);
    RunKeepsLoopInv(fixed, Start(log), events);
    SerialPrefix(s.log, s.log + [e]);
    SerialDecodes(s.log + [e], |s.log|);
    var cache := s.sync.cache[e.key := RecordOf(e).value];
    forall k | k in cache ensures k !in fixed {
      if k == e.key {
        assert (s.log + [e])[|s.log|].key == k;
      } else {
        CachedKeyIsLogged(fixed, log, events, k);
        var i := LastIndex(s.log, k).value;
        assert (s.log + [e])[i].key == k;
      }
    }
    assert !WatchSync.Collides(fixed, cache);
    DeliveredCommitIsInstalled(fixed, s, e);
  }

  lemma CachedKeyIsLogged(fixed: Fixed, log: Log, events: seq<Event>, k: string)
    requires var s := Run(fixed, Start(log), events);
      UpToDate(s) && Serial(s.log) && k in s.sync.cache
    ensures LastIndex(Run(fixed, Start(log), events).log, k).Some?
  {
    var s := Run(fixed, Start(log), events);
    RunKeepsLoopInv(fixed, Start(log), events);
    DrainedWatchEqualsStore(fixed, log, events, k);
    if LastIndex(s.log, k).Some? {
      SerialDecodes(s.log, LastIndex(s.log, k).value);
    }
  }

  // ---------------------------------------------------------------- a refresh nobody disturbs

  /** What a refresh in flight has read is current, and what it has still to read is live. */
  ghost predicate ReadsSoFar(log: Log, f: Refresh) {
    && (forall k | k in f.got :: Current(log, k) == Some(f.got[k]))
    && (forall k | k in f.pending :: Live(log, k))
  }

  /** The next read of a refresh: a live key of a serial log decodes. */
  function AfterRead(log: Log, f: Refresh): Refresh
    requires f.pending != [] && Current(log, f.pending[0]).Some?
  {
    Refresh(f.pending[1..], f.got[f.pending[0] := Current(log, f.pending[0]).value])
  }

  lemma ReadEffect(fixed: Fixed, s: State, r: nat)
    requires r in s.refreshes && s.refreshes[r].pending != []
    requires Live(s.log, s.refreshes[r].pending[0]) && Current(s.log, s.refreshes[r].pending[0]).Some?
    ensures Apply(fixed, s, ListGet(r, false)) == s.(refreshes := s.refreshes[r := AfterRead(s.log, s.refreshes[r])])
  {
  }

  lemma ReadKeepsReads(log: Log, f: Refresh)
    requires Serial(log) && f.pending != [] && ReadsSoFar(log, f)
    ensures Live(log, f.pending[0]) && Current(log, f.pending[0]).Some?
    ensures ReadsSoFar(log, AfterRead(log, f))
  {
    assert f.pending[0] in f.pending;
    SerialIsLive(log, f.pending[0]);
    forall k | k in f.pending[1..] ensures k in f.pending {
    }
  }

  lemma ReadKeysAreFree(fixed: Fixed, log: Log, f: Refresh)
    requires FreeOfStaticIDs(fixed, log) && ReadsSoFar(log, f)
    ensures !WatchSync.Collides(fixed, f.got)
  {
    forall k | k in f.got ensures k !in fixed {
      assert log[LastIndex(log, k).value].key == k;
    }
  }

  /** The map holds exactly the refresh's keys, read and still to read, each as it is in the store. */
  ghost predicate HoldsAll(log: Log, managed: Managed, f: Refresh) {
    forall id ::
      && (id in managed <==> id in f.got || id in f.pending)
      && (id in managed ==> Current(log, id).Some? && managed[id] == CredentialFor(Current(log, id).value))
  }

  lemma InstallHoldsAll(fixed: Fixed, s: State, r: nat)
    requires FreeOfStaticIDs(fixed, s.log) && r in s.refreshes && s.refreshes[r].pending == []
    requires ReadsSoFar(s.log, s.refreshes[r])
    ensures var t := Apply(fixed, s, RefreshInstall(r));
      && t == s.(sync := s.sync.(managed := t.sync.managed, adminSince := true), refreshes := s.refreshes - {r})
      && HoldsAll(s.log, t.sync.managed, s.refreshes[r])
  {
    ReadKeysAreFree(fixed, s.log, s.refreshes[r]);
  }

  lemma ReadKeepsHoldsAll(log: Log, managed: Managed, f: Refresh, g: Refresh)
    requires f.pending != [] && Current(log, f.pending[0]).Some? && g == AfterRead(log, f)
    requires HoldsAll(log, managed, g)
    ensures HoldsAll(log, managed, f)
  {
    assert f.pending == [f.pending[0]] + g.pending;
  }

  lemma {:induction false} RefreshRest(fixed: Fixed, s: State, r: nat) returns (events: seq<Event>)
    requires Serial(s.log) && FreeOfStaticIDs(fixed, s.log) && r in s.refreshes
    requires ReadsSoFar(s.log, s.refreshes[r])
    ensures var t := Run(fixed, s, events);
      && t == s.(sync := s.sync.(managed := t.sync.managed, adminSince := true), refreshes := s.refreshes - {r})
      && HoldsAll(s.log, t.sync.managed, s.refreshes[r])
    decreases |s.refreshes[r].pending|
  {
    var f := s.refreshes[r];
    if f.pending == [] {
      events := [RefreshInstall(r)];
      assert events[1..] == [];
      InstallHoldsAll(fixed, s, r);
    } else {
      ReadKeepsReads(s.log, f);
      ReadEffect(fixed, s, r);
      var t := Apply(fixed, s, ListGet(r, false));
      assert t.refreshes - {r} == s.refreshes - {r};
      var more := RefreshRest(fixed, t, r);
      events := [ListGet(r, false)] + more;
      assert events[1..] == more;
      ReadKeepsHoldsAll(s.log, Run(fixed, t, more).sync.managed, f, t.refreshes[r]);
    }
  }

  /** A refresh that is neither disturbed nor refused leaves the verifier equal to the store, whatever it was before. */
  lemma RefreshEqualsStore(fixed: Fixed, s: State, r: nat, keys: seq<string>) returns (events: seq<Event>)
    requires Serial(s.log) && FreeOfStaticIDs(fixed, s.log) && r !in s.refreshes && ListsLiveKeys(s.log, keys)
    ensures events != [] && events[0] == ListStart(r, keys)
    ensures var t := Run(fixed, s, events);
      && t.log == s.log && t.refreshes == s.refreshes && t.sync.cache == s.sync.cache
      && forall id :: VerifierAgreesAt(t.sync.managed, s.log, id)
  {
    var started := Apply(fixed, s, ListStart(r, keys));
    var more := RefreshRest(fixed, started, r);
    events := [ListStart(r, keys)] + more;
    assert events[1..] == more;
    assert started == s.(refreshes := s.refreshes[r := Refresh(keys, map[])]);
    assert started.refreshes - {r} == s.refreshes;
    HoldingAllAgrees(s.log, Run(fixed, started, more).sync.managed, keys);
  }

  lemma HoldingAllAgrees(log: Log, managed: Managed, keys: seq<string>)
    requires ListsLiveKeys(log, keys) && HoldsAll(log, managed, Refresh(keys, map[]))
    ensures forall id :: VerifierAgreesAt(managed, log, id)
  {
    forall id ensures VerifierAgreesAt(managed, log, id) {
      assert id in keys <==> Live(log, id);
    }
  }

  // ---------------------------------------------------------------- a refresh that fails

  /** A refresh begins only with the keys that are live at that moment. */
  lemma RefreshesListLiveKeys(fixed: Fixed, s: State, r: nat, keys: seq<string>)
    requires Apply(fixed, s, ListStart(r, keys)) != s
    ensures r !in s.refreshes && ListsLiveKeys(s.log, keys)
  {
  }

  predicate DoesNotStart(events: seq<Event>, r: nat) {
    forall i | 0 <= i < |events| :: !(events[i].ListStart? && events[i].refresh == r)
  }

  lemma {:induction false} StaysOver(fixed: Fixed, s: State, events: seq<Event>, r: nat)
    requires r !in s.refreshes && DoesNotStart(events, r)
    ensures r !in Run(fixed, s, events).refreshes
    decreases |events|
  {
    if events != [] {
      StaysOver(fixed, Apply(fixed, s, events[0]), events[1..], r);
    }
  }

  /** Once a read of a refresh fails, or finds a malformed entry, that refresh never installs anything. */
  lemma FailedRefreshNeverInstalls(fixed: Fixed, s: State, r: nat, fails: bool, events: seq<Event>)
    requires r in s.refreshes && s.refreshes[r].pending != [] && DoesNotStart(events, r)
    requires fails || WatchSync.NewestMalformed(s.log, s.refreshes[r].pending[0])
    ensures var t := Run(fixed, Apply(fixed, s, ListGet(r, fails)), events);
      Apply(fixed, t, RefreshInstall(r)) == t
    ensures Apply(fixed, s, ListGet(r, fails)).sync == s.sync
  {
    StaysOver(fixed, Apply(fixed, s, ListGet(r, fails)), events, r);
  }

  /** And a refresh that has installed its list does not install it again. */
  lemma RefreshInstallsOnce(fixed: Fixed, s: State, r: nat, events: seq<Event>)
    requires r in s.refreshes && s.refreshes[r].pending == [] && DoesNotStart(events, r)
    ensures var t := Run(fixed, Apply(fixed, s, RefreshInstall(r)), events); Apply(fixed, t, RefreshInstall(r)) == t
  {
    StaysOver(fixed, Apply(fixed, s, RefreshInstall(r)), events, r);
  }
}
