/** A replica whose watch is drained: what its loop and its verifier then know of the store. */
module DrainedWatch {
  import opened Common
  import opened KeyRecords
  import opened CredentialLog
  import opened Verifier
  import WatchSync
  import opened Replicas

  // ---------------------------------------------------------------- the drained watch

  predicate SameAt(a: WatchSync.Cache, b: WatchSync.Cache, k: string) {
    (k in a <==> k in b) && (k in a ==> a[k] == b[k])
  }

  /** No entry of the key remains in the part of the initial snapshot not yet delivered. */
  predicate NoPending(s: State, k: string)
    requires s.watchFrom <= |s.log|
  {
    forall i | s.next <= i < s.watchFrom :: s.log[i].key != k
  }

  /** What the loop has replayed equals the whole log prefix, although superseded entries were never delivered. */
  ghost predicate Follows(s: State) {
    && s.next <= |s.log| && s.watchFrom <= |s.log|
    && (s.sync.running && s.next < s.watchFrom ==> !s.sync.initialized)
    && (s.sync.running ==>
          forall k | NoPending(s, k) ::
            SameAt(s.sync.cache, WatchSync.Replay(WatchSync.Deliveries(s.log[..s.next])), k))
  }

  lemma PrefixDelivers(log: Log, n: nat)
    requires n < |log|
    ensures WatchSync.Replay(WatchSync.Deliveries(log[..n + 1]))
            == WatchSync.Absorb(WatchSync.Replay(WatchSync.Deliveries(log[..n])), WatchSync.DeliveryOf(log[n]))
  {
    assert WatchSync.Deliveries(log[..n + 1]) == WatchSync.Deliveries(log[..n]) + [WatchSync.DeliveryOf(log[n])];
    WatchSync.ReplayOneMore(WatchSync.Deliveries(log[..n]), WatchSync.DeliveryOf(log[n]));
  }

  /** Absorbing the same delivery keeps two maps alike at a key, or makes them alike if it is about that key. */
  lemma AbsorbAlike(a: WatchSync.Cache, b: WatchSync.Cache, d: WatchSync.Delivery, k: string)
    requires SameAt(a, b, k) || (k == d.key && !d.change.Malformed?)
    ensures SameAt(WatchSync.Absorb(a, d), WatchSync.Absorb(b, d), k)
  {
  }

  lemma NextKeepsFollowing(s: State, t: State)
    requires Follows(s) && s.next < |s.log| && t == s.(sync := t.sync, next := s.next + 1)
    requires WatchSync.Tracks(s.sync, t.sync, WatchSync.Update(WatchSync.DeliveryOf(s.log[s.next])))
    requires (t.sync.running ==> s.sync.running) && t.sync.initialized == s.sync.initialized
    ensures Follows(t)
  {
    var d := WatchSync.DeliveryOf(s.log[s.next]);
    PrefixDelivers(s.log, s.next);
    if t.sync.running {
      forall k | NoPending(t, k)
        ensures SameAt(t.sync.cache, WatchSync.Replay(WatchSync.Deliveries(t.log[..t.next])), k)
      {
        if k != d.key || d.change.Malformed? {
          assert NoPending(s, k);
        }
        AbsorbAlike(s.sync.cache, WatchSync.Replay(WatchSync.Deliveries(s.log[..s.next])), d, k);
      }
    }
  }

  /** Skipping an entry of another key changes nothing about a key. */
  lemma SkipIsSilentElsewhere(log: Log, n: nat, cache: WatchSync.Cache, k: string)
    requires n < |log| && log[n].key != k
    requires SameAt(cache, WatchSync.Replay(WatchSync.Deliveries(log[..n])), k)
    ensures SameAt(cache, WatchSync.Replay(WatchSync.Deliveries(log[..n + 1])), k)
  {
    PrefixDelivers(log, n);
  }

  lemma SkipKeepsFollowing(s: State)
    requires Follows(s) && Superseded(s)
    ensures Follows(s.(next := s.next + 1))
  {
    var t := s.(next := s.next + 1);
    var j :| s.next < j < s.watchFrom && s.log[j].key == s.log[s.next].key;
    if t.sync.running {
      forall k | NoPending(t, k)
        ensures SameAt(t.sync.cache, WatchSync.Replay(WatchSync.Deliveries(t.log[..t.next])), k)
      {
        assert k != s.log[s.next].key;
        assert NoPending(s, k);
        SkipIsSilentElsewhere(s.log, s.next, s.sync.cache, k);
      }
    }
  }

  lemma CommitKeepsFollowing(s: State, entry: Entry)
    requires Follows(s)
    ensures Follows(s.(log := s.log + [entry]))
  {
    var t := s.(log := s.log + [entry]);
    assert t.log[..t.next] == s.log[..s.next];
    forall k | NoPending(t, k) ensures NoPending(s, k) {
      forall i | s.next <= i < s.watchFrom ensures s.log[i].key != k {
        assert t.log[i] == s.log[i];
      }
    }
  }

  lemma DeliveryKeepsFollowing(fixed: Fixed, s: State)
    requires Follows(s) && WatchSync.StartupOk(s.sync) && s.next < |s.log|
    ensures Follows(Apply(fixed, s, WatchNext)) && WatchSync.StartupOk(Apply(fixed, s, WatchNext).sync)
  {
    var turn := WatchSync.Update(WatchSync.DeliveryOf(s.log[s.next]));
    WatchSync.StepKeepsStartup(fixed, s.sync, turn);
    WatchSync.StepTracks(fixed, s.sync, turn);
    UpdateKeepsInitialized(fixed, s.sync, turn);
    NextKeepsFollowing(s, Apply(fixed, s, WatchNext));
  }

  lemma ApplyKeepsFollowing(fixed: Fixed, s: State, e: Event)
    requires Follows(s) && WatchSync.StartupOk(s.sync)
    ensures Follows(Apply(fixed, s, e)) && WatchSync.StartupOk(Apply(fixed, s, e).sync)
  {
    match e
    case Commit(entry) => CommitKeepsFollowing(s, entry);
    case WatchNext => if s.next < |s.log| { DeliveryKeepsFollowing(fixed, s); }
    case WatchSkip => if Superseded(s) { SkipKeepsFollowing(s); }
    case WatchMarker => if s.next >= s.watchFrom { QuietTurn(fixed, s, WatchSync.Marker); }
    case WatchTrouble(trouble) => if !trouble.Update? && !trouble.Marker? { QuietTurn(fixed, s, trouble); }
    case RefreshInstall(r) =>
      if r in s.refreshes {
        var rest := s.(refreshes := s.refreshes - {r});
        QuietTurn(fixed, rest, WatchSync.AdminReplace(WatchSync.Projection(s.refreshes[r].got)));
      }
    case _ =>
  }

  lemma UpdateKeepsInitialized(fixed: Fixed, s: WatchSync.State, e: WatchSync.Event)
    requires e.Update?
    ensures var t := WatchSync.Step(fixed, s, e); (t.running ==> s.running) && t.initialized == s.initialized
  {
  }

  /** A turn that consumes nothing; the marker comes only after the whole snapshot. */
  lemma QuietTurn(fixed: Fixed, s: State, e: WatchSync.Event)
    requires Follows(s) && WatchSync.StartupOk(s.sync) && !e.Update? && (e.Marker? ==> s.next >= s.watchFrom)
    ensures Follows(Watch(fixed, s, e)) && WatchSync.StartupOk(Watch(fixed, s, e).sync)
  {
    WatchSync.StepKeepsStartup(fixed, s.sync, e);
    WatchSync.StepTracks(fixed, s.sync, e);
    var t := Watch(fixed, s, e);
    assert t.sync.running ==> s.sync.running;
    assert !e.Marker? ==> t.sync.initialized == s.sync.initialized;
    forall k | NoPending(t, k) ensures NoPending(s, k) {
    }
  }

  lemma {:induction false} RunKeepsFollowing(fixed: Fixed, s: State, events: seq<Event>)
    requires Follows(s) && WatchSync.StartupOk(s.sync)
    ensures Follows(Run(fixed, s, events))
    decreases |events|
  {
    if events != [] {
      ApplyKeepsFollowing(fixed, s, events[0]);
      RunKeepsFollowing(fixed, Apply(fixed, s, events[0]), events[1..]);
    }
  }

  /**
   * A running, drained watch knows of every key exactly what the store holds, unless the key's newest entry is
   * malformed, although the snapshot skipped superseded entries and admin refreshes may interleave anywhere.
   */
  lemma DrainedWatchEqualsStore(fixed: Fixed, log: Log, events: seq<Event>, key: string)
    requires var s := Run(fixed, Start(log), events); s.sync.running && s.sync.initialized && s.next == |s.log|
    ensures var s := Run(fixed, Start(log), events);
      WatchSync.AgreesAt(s.sync.cache, s.log, key)
      <==> !WatchSync.NewestMalformed(s.log, key)
  {
    var s := Run(fixed, Start(log), events);
    assert WatchSync.Deliveries(log[..0]) == [];
    RunKeepsFollowing(fixed, Start(log), events);
    assert NoPending(s, key);
    assert s.log[..s.next] == s.log;
    WatchSync.ReplayAgreesIff(s.log, key);
  }

  // ---------------------------------------------------------------- the drained verifier

  lemma ApplyStepsTheLoop(fixed: Fixed, s: State, e: Event)
    requires WatchSync.Inv(fixed, s.sync)
    ensures WatchSync.Inv(fixed, Apply(fixed, s, e).sync)
  {
    match e
    case WatchNext =>
      if s.next < |s.log| {
        WatchSync.StepKeepsInv(fixed, s.sync, WatchSync.Update(WatchSync.DeliveryOf(s.log[s.next])));
      }
    case WatchMarker => WatchSync.StepKeepsInv(fixed, s.sync, WatchSync.Marker);
    case WatchTrouble(trouble) => WatchSync.StepKeepsInv(fixed, s.sync, trouble);
    case RefreshInstall(r) =>
      if r in s.refreshes {
        WatchSync.StepKeepsInv(fixed, s.sync, WatchSync.AdminReplace(WatchSync.Projection(s.refreshes[r].got)));
      }
    case _ =>
  }

  lemma {:induction false} RunKeepsLoopInv(fixed: Fixed, s: State, events: seq<Event>)
    requires WatchSync.Inv(fixed, s.sync)
    ensures WatchSync.Inv(fixed, Run(fixed, s, events).sync)
    decreases |events|
  {
    if events != [] {
      ApplyStepsTheLoop(fixed, s, events[0]);
      RunKeepsLoopInv(fixed, Apply(fixed, s, events[0]), events[1..]);
    }
  }

  /** The verifier knows the id if and only if the store holds it live, and then by its current record. */
  predicate VerifierAgreesAt(managed: Managed, log: Log, id: string) {
    && (id in managed <==> Live(log, id))
    && (id in managed ==> Current(log, id).Some? && managed[id] == CredentialFor(Current(log, id).value))
  }

  /** Healthy, with nothing left to deliver and no admin refresh since the loop's last install. */
  predicate UpToDate(s: State) {
    s.sync.healthy && s.next == |s.log| && !s.sync.adminSince
  }

  /**
   * A drained, healthy replica answers from exactly what the store holds: in every run, skipped entries and
   * admin refreshes included, its verifier agrees with the store at an id if and only if the id's newest
   * entry is not malformed.
   */
  lemma DrainedVerifierEqualsStore(fixed: Fixed, log: Log, events: seq<Event>, id: string)
    requires UpToDate(Run(fixed, Start(log), events))
    ensures var s := Run(fixed, Start(log), events);
      VerifierAgreesAt(s.sync.managed, s.log, id) <==> !WatchSync.NewestMalformed(s.log, id)
  {
    var s := Run(fixed, Start(log), events);
    RunKeepsLoopInv(fixed, Start(log), events);
    assert s.sync.managed == WatchSync.Projection(s.sync.cache);
    DrainedWatchEqualsStore(fixed, log, events, id);
  }

  /** On a log that only Create, Rotate and Revoke wrote there is no exception: the two agree everywhere. */
  lemma DrainedVerifierEqualsSerialStore(fixed: Fixed, log: Log, events: seq<Event>, id: string)
    requires var s := Run(fixed, Start(log), events); UpToDate(s) && Serial(s.log)
    ensures var s := Run(fixed, Start(log), events); VerifierAgreesAt(s.sync.managed, s.log, id)
  {
    var s := Run(fixed, Start(log), events);
    DrainedVerifierEqualsStore(fixed, log, events, id);
    if LastIndex(s.log, id).Some? {
      SerialDecodes(s.log, LastIndex(s.log, id).value);
    }
  }
}
