/** When a revocation has taken hold on a replica for good, and when it has not. */
module RevocationSpread {
  import opened Common
  import opened KeyRecords
  import opened CredentialLog
  import opened Verifier
  import WatchSync
  import opened Replicas

  // ---------------------------------------------------------------- a revocation taking hold

  predicate OnlyRevoked(cache: WatchSync.Cache, id: string) {
    id in cache ==> cache[id].revokedAt.Some?
  }

  predicate RefusedBy(managed: Managed, id: string) {
    id in managed ==> managed[id].revokedAt.Some?
  }

  /** Log entry j revoked the id. */
  predicate RevokedAt(log: Log, id: string, j: nat) {
    j < |log| && log[j].key == id && RecordOf(log[j]).Some? && RecordOf(log[j]).value.revokedAt.Some?
  }

  /**
   * A refresh that will bring back an unrevoked copy if its reads succeed: it has read one, will not read the key
   * again, and neither holds nor is about to read a static id, for which the verifier would refuse the list.
   */
  ghost predicate CanRevive(fixed: Fixed, log: Log, f: Refresh, id: string) {
    && !OnlyRevoked(f.got, id) && id !in f.pending && !WatchSync.Collides(fixed, f.got)
    && forall k | k in f.pending && Live(log, k) :: k !in fixed
  }

  ghost predicate NoneCanRevive(fixed: Fixed, s: State, id: string) {
    forall r | r in s.refreshes :: !CanRevive(fixed, s.log, s.refreshes[r], id)
  }

  /** The replica has taken the revocation in, and nothing it still holds can bring the id back. */
  ghost predicate TakenHold(fixed: Fixed, s: State, id: string, j: nat) {
    && RevokedAt(s.log, id, j) && j < s.next
    && (s.sync.running ==> OnlyRevoked(s.sync.cache, id)) && RefusedBy(s.sync.managed, id)
    && NoneCanRevive(fixed, s, id)
  }

  lemma ProjectionRefuses(cache: WatchSync.Cache, id: string)
    ensures RefusedBy(WatchSync.Projection(cache), id) <==> OnlyRevoked(cache, id)
  {
  }

  lemma StoppedLoopIsInert(fixed: Fixed, s: WatchSync.State, e: WatchSync.Event)
    requires !s.running && !e.AdminReplace?
    ensures WatchSync.Step(fixed, s, e) == s
  {
  }

  /** A turn of the loop that delivers nothing about the id. */
  lemma TurnKeepsHold(fixed: Fixed, s: State, t: State, e: WatchSync.Event, id: string, j: nat)
    requires TakenHold(fixed, s, id, j) && t == s.(sync := WatchSync.Step(fixed, s.sync, e), next := t.next)
    requires s.next <= t.next && !e.AdminReplace? && (e.Update? ==> e.delivery.key != id)
    ensures TakenHold(fixed, t, id, j)
  {
    if s.sync.running {
      WatchSync.StepMovesMaps(fixed, s.sync, e);
      ProjectionRefuses(t.sync.cache, id);
    } else {
      StoppedLoopIsInert(fixed, s.sync, e);
    }
  }

  lemma NextKeepsHold(fixed: Fixed, s: State, id: string, j: nat)
    requires TakenHold(fixed, s, id, j) && Serial(s.log) && s.next < |s.log|
    ensures TakenHold(fixed, Apply(fixed, s, WatchNext), id, j)
  {
    RevocationIsFinal(s.log, j, s.next);
    var turn := WatchSync.Update(WatchSync.DeliveryOf(s.log[s.next]));
    TurnKeepsHold(fixed, s, Apply(fixed, s, WatchNext), turn, id, j);
  }

  lemma LiveStaysLive(log: Log, e: Entry, k: string)
    requires Serial(log + [e]) && Live(log, k)
    ensures Live(log + [e], k)
  {
    var longer := log + [e];
    assert longer[..|longer| - 1] == log;
    if e.key == k {
      SerialDecodes(longer, |log|);
    }
  }

  lemma CommitKeepsHold(fixed: Fixed, s: State, e: Entry, id: string, j: nat)
    requires TakenHold(fixed, s, id, j) && Serial(s.log + [e])
    ensures TakenHold(fixed, s.(log := s.log + [e]), id, j)
  {
    var t := s.(log := s.log + [e]);
    assert t.log[j] == s.log[j];
    forall r | r in t.refreshes ensures !CanRevive(fixed, t.log, t.refreshes[r], id) {
      var f := t.refreshes[r];
      if CanRevive(fixed, t.log, f, id) {
        forall k | k in f.pending && Live(s.log, k) ensures k !in fixed {
          LiveStaysLive(s.log, e, k);
        }
        assert CanRevive(fixed, s.log, f, id);
      }
    }
  }

  /** Reading one more key gives no refresh the power to revive the id: reading the id itself takes it away. */
  lemma ReadRevivesNothing(fixed: Fixed, log: Log, f: Refresh, id: string, got: WatchSync.Cache)
    requires f.pending != []
    requires Live(log, f.pending[0]) ==> f.pending[0] in got && got == f.got[f.pending[0] := got[f.pending[0]]]
    requires !Live(log, f.pending[0]) ==> got == f.got
    requires f.pending[0] == id ==> Live(log, id) && OnlyRevoked(got, id)
    requires CanRevive(fixed, log, Refresh(f.pending[1..], got), id)
    ensures CanRevive(fixed, log, f, id)
  {
    var key := f.pending[0];
    assert forall k | k in f.pending :: k == key || k in f.pending[1..];
    assert forall k | k in f.got :: k in got;
    assert key != id;
    assert Live(log, key) ==> key in got;
  }

  lemma RevokedReadsRevoked(log: Log, id: string, j: nat)
    requires RevokedAt(log, id, j) && Serial(log)
    ensures Live(log, id) && Current(log, id).Some? && Current(log, id).value.revokedAt.Some?
  {
    RevokedStaysCurrent(log, j);
  }

  lemma ReadKeepsHold(fixed: Fixed, s: State, r: nat, fails: bool, id: string, j: nat)
    requires TakenHold(fixed, s, id, j) && Serial(s.log) && r in s.refreshes && s.refreshes[r].pending != []
    ensures TakenHold(fixed, Read(s, r, fails), id, j)
  {
    var t, f := Read(s, r, fails), s.refreshes[r];
    if r in t.refreshes {
      RevokedReadsRevoked(s.log, id, j);
      if CanRevive(fixed, s.log, t.refreshes[r], id) {
        ReadRevivesNothing(fixed, s.log, f, id, t.refreshes[r].got);
      }
    }
  }

  lemma InstallKeepsHold(fixed: Fixed, s: State, r: nat, id: string, j: nat)
    requires TakenHold(fixed, s, id, j)
    ensures TakenHold(fixed, Apply(fixed, s, RefreshInstall(r)), id, j)
  {
    if r in s.refreshes {
      assert !CanRevive(fixed, s.log, s.refreshes[r], id);
      ProjectionRefuses(s.refreshes[r].got, id);
    }
  }

  lemma ApplyKeepsHold(fixed: Fixed, s: State, e: Event, id: string, j: nat)
    requires TakenHold(fixed, s, id, j) && Serial(s.log) && Serial(Apply(fixed, s, e).log)
    ensures TakenHold(fixed, Apply(fixed, s, e), id, j)
  {
    match e
    case Commit(entry) => CommitKeepsHold(fixed, s, entry, id, j);
    case WatchNext => if s.next < |s.log| { NextKeepsHold(fixed, s, id, j); }
    case WatchSkip =>
    case WatchMarker => TurnKeepsHold(fixed, s, Watch(fixed, s, WatchSync.Marker), WatchSync.Marker, id, j);
    case WatchTrouble(trouble) =>
      if !trouble.Update? && !trouble.AdminReplace? {
        TurnKeepsHold(fixed, s, Watch(fixed, s, trouble), trouble, id, j);
      }
    case ListStart(r, keys) =>
    case ListGet(r, fails) =>
      if r in s.refreshes && s.refreshes[r].pending != [] {
        ReadKeepsHold(fixed, s, r, fails, id, j);
      }
    case RefreshInstall(r) => InstallKeepsHold(fixed, s, r, id, j);
  }

  lemma RunIsSerialThroughout(fixed: Fixed, s: State, e: Event, events: seq<Event>)
    requires Serial(Run(fixed, Apply(fixed, s, e), events).log)
    ensures Serial(s.log) && Serial(Apply(fixed, s, e).log)
  {
    var t := Apply(fixed, s, e);
    var last := Run(fixed, t, events).log;
    LogGrows(fixed, t, events);
    assert t.log <= last;
    SerialPrefix(t.log, last);
    ApplyExtendsLog(fixed, s, e);
    assert s.log <= t.log;
    SerialPrefix(s.log, t.log);
  }

  lemma ApplyExtendsLog(fixed: Fixed, s: State, e: Event)
    ensures s.log <= Apply(fixed, s, e).log
  {
  }

  lemma {:induction false} RunKeepsHold(fixed: Fixed, s: State, events: seq<Event>, id: string, j: nat)
    requires TakenHold(fixed, s, id, j) && Serial(Run(fixed, s, events).log)
    ensures TakenHold(fixed, Run(fixed, s, events), id, j)
    decreases |events|
  {
    if events != [] {
      RunIsSerialThroughout(fixed, s, events[0], events[1..]);
      ApplyKeepsHold(fixed, s, events[0], id, j);
      RunKeepsHold(fixed, Apply(fixed, s, events[0]), events[1..], id, j);
    }
  }

  // ---------------------------------------------------------------- a copy coming back

  /** One successful read of a refresh that can revive the id, after which it still can. */
  lemma NextReadSucceeds(fixed: Fixed, s: State, r: nat, id: string)
    requires Serial(s.log) && r in s.refreshes && s.refreshes[r].pending != []
    requires CanRevive(fixed, s.log, s.refreshes[r], id)
    ensures var t := Read(s, r, false);
      && t.log == s.log && r in t.refreshes && t.refreshes[r].pending == s.refreshes[r].pending[1..]
      && CanRevive(fixed, t.log, t.refreshes[r], id) && t.refreshes[r].got[id] == s.refreshes[r].got[id]
  {
    var f := s.refreshes[r];
    var key := f.pending[0];
    assert key in f.pending && key != id;
    assert forall k | k in f.pending[1..] :: k in f.pending;
    if Live(s.log, key) {
      SerialIsLive(s.log, key);
    }
  }

  /** The events by which such a refresh finishes, and what the verifier then holds. */
  lemma {:induction false} RefreshFinishes(fixed: Fixed, s: State, r: nat, id: string) returns (events: seq<Event>)
    requires Serial(s.log) && r in s.refreshes && CanRevive(fixed, s.log, s.refreshes[r], id)
    ensures var t := Run(fixed, s, events);
      t.log == s.log && id in t.sync.managed && t.sync.managed[id] == CredentialFor(s.refreshes[r].got[id])
    decreases |s.refreshes[r].pending|
  {
    if s.refreshes[r].pending == [] {
      events := [RefreshInstall(r)];
      assert events[1..] == [];
      assert Run(fixed, s, events) == Apply(fixed, s, RefreshInstall(r));
    } else {
      NextReadSucceeds(fixed, s, r, id);
      var t := Apply(fixed, s, ListGet(r, false));
      var more := RefreshFinishes(fixed, t, r, id);
      events := [ListGet(r, false)] + more;
      assert events[1..] == more;
    }
  }

  // ---------------------------------------------------------------- exactly when a revocation holds

  /** No continuation by atomic writes ever gives the verifier an unrevoked copy of the id. */
  ghost predicate HoldsForGood(fixed: Fixed, s: State, id: string) {
    forall events: seq<Event> | Serial(Run(fixed, s, events).log) :: RefusedBy(Run(fixed, s, events).sync.managed, id)
  }

  /** The loop hands its map to the verifier after delivering this revocation, and the verifier takes it. */
  predicate Delivers(fixed: Fixed, s: State)
    requires s.next < |s.log|
  {
    && s.sync.running && s.sync.initialized
    && !WatchSync.Collides(fixed, WatchSync.Absorb(s.sync.cache, WatchSync.DeliveryOf(s.log[s.next])))
  }

  /** What the delivery of a revocation does to the loop's map and the verifier's. */
  lemma DeliveryOfRevocation(fixed: Fixed, s: State, id: string)
    requires RevokedAt(s.log, id, s.next)
    ensures var t := Apply(fixed, s, WatchNext);
      && t.log == s.log && t.refreshes == s.refreshes && t.next == s.next + 1
      && (t.sync.running ==> OnlyRevoked(t.sync.cache, id))
      && (Delivers(fixed, s) ==> RefusedBy(t.sync.managed, id))
      && (!Delivers(fixed, s) ==> t.sync.managed == s.sync.managed)
  {
    var d := WatchSync.DeliveryOf(s.log[s.next]);
    var t := s.sync.(consumed := s.sync.consumed + [d], cache := WatchSync.Absorb(s.sync.cache, d));
    assert t.cache[id].revokedAt.Some?;
    ProjectionRefuses(t.cache, id);
    if s.sync.running && s.sync.initialized {
      assert WatchSync.Step(fixed, s.sync, WatchSync.Update(d)) == WatchSync.Install(fixed, t);
    }
  }

  /**
   * Exactly when a revocation, at its delivery, is final on a replica, whatever the state: the delivery
   * replaces the verifier's map (or the verifier holds no unrevoked copy anyway), and no refresh in flight can
   * bring one back.
   */
  lemma RevocationHoldsIff(fixed: Fixed, s: State, id: string)
    requires RevokedAt(s.log, id, s.next) && Serial(s.log)
    ensures HoldsForGood(fixed, Apply(fixed, s, WatchNext), id)
       <==> (Delivers(fixed, s) || RefusedBy(s.sync.managed, id)) && NoneCanRevive(fixed, s, id)
  {
    var t := Apply(fixed, s, WatchNext);
    DeliveryOfRevocation(fixed, s, id);
    if (Delivers(fixed, s) || RefusedBy(s.sync.managed, id)) && NoneCanRevive(fixed, s, id) {
      assert TakenHold(fixed, t, id, s.next);
      forall events: seq<Event> | Serial(Run(fixed, t, events).log)
        ensures RefusedBy(Run(fixed, t, events).sync.managed, id)
      {
        RunKeepsHold(fixed, t, events, id, s.next);
      }
    } else if r :| r in s.refreshes && CanRevive(fixed, s.log, s.refreshes[r], id) {
      var events := RefreshFinishes(fixed, t, r, id);
      assert !RefusedBy(Run(fixed, t, events).sync.managed, id);
    } else {
      assert Run(fixed, t, []) == t;
    }
  }

  /** Refusing an id means that no header at any time authenticates as it. */
  lemma RefusedIsUnauthorized(hash: Hash, fixed: Fixed, managed: Managed, id: string, header: string, now: Instant)
    requires RefusedBy(managed, id) && id !in fixed
    ensures Authorize(hash, fixed, managed, header, now) != Some(id)
  {
    AcceptedIff(hash, fixed, managed, header, now, id);
  }

  /**
   * So under that condition, through any further commits, deliveries, failures and admin refreshes, no header
   * at any time authenticates as the id.
   */
  lemma RevocationTakesHold(
      hash: Hash, fixed: Fixed, s: State, events: seq<Event>, id: string, header: string, now: Instant)
    requires RevokedAt(s.log, id, s.next) && id !in fixed
    requires (Delivers(fixed, s) || RefusedBy(s.sync.managed, id)) && NoneCanRevive(fixed, s, id)
    requires Serial(Run(fixed, s, [WatchNext] + events).log)
    ensures Authorize(hash, fixed, Run(fixed, s, [WatchNext] + events).sync.managed, header, now) != Some(id)
  {
    var t := Apply(fixed, s, WatchNext);
    assert ([WatchNext] + events)[1..] == events;
    LogGrows(fixed, s, [WatchNext] + events);
    SerialPrefix(s.log, Run(fixed, t, events).log);
    RevocationHoldsIff(fixed, s, id);
    RefusedIsUnauthorized(hash, fixed, Run(fixed, t, events).sync.managed, id, header, now);
  }

  /** An unrevoked, unexpired copy is answered by the secret it was issued with. */
  lemma CopyAuthenticates(
      hash: Hash, fixed: Fixed, managed: Managed, r: Record, secret: string, header: string, now: Instant)
    requires r.id in managed && managed[r.id] == CredentialFor(r) && InForce(r.revokedAt, r.expiresAt, now)
    requires DigestBytes(r.secretSHA256) == hash(secret) && Presents(header, r.id, secret)
    ensures Authorize(hash, fixed, managed, header, now) == Some(r.id)
  {
    AcceptedIff(hash, fixed, managed, header, now, r.id);
  }

  /**
   * Without it, first case: from any state in which some refresh can revive the id, that refresh finishes and
   * the copy it had read authenticates again, by the secret issued for it, although its revocation is delivered.
   */
  lemma StaleCopyAuthenticatesAgain(
      hash: Hash, fixed: Fixed, s: State, r: nat, id: string, secret: string, header: string, now: Instant)
    returns (events: seq<Event>)
    requires Serial(s.log) && r in s.refreshes && CanRevive(fixed, s.log, s.refreshes[r], id)
    requires var copy := s.refreshes[r].got[id];
      copy.id == id && InForce(copy.revokedAt, copy.expiresAt, now)
      && DigestBytes(copy.secretSHA256) == hash(secret) && Presents(header, id, secret)
    ensures var t := Run(fixed, s, events);
      t.log == s.log && Authorize(hash, fixed, t.sync.managed, header, now) == Some(id)
  {
    events := RefreshFinishes(fixed, s, r, id);
    var t := Run(fixed, s, events);
    CopyAuthenticates(hash, fixed, t.sync.managed, s.refreshes[r].got[id], secret, header, now);
  }

  /**
   * Second case: while the loop's map holds an id that is static on this replica, every install is refused. The
   * delivery of a revocation then changes no answer at all; the loop only reports itself unhealthy.
   */
  lemma CollisionBlocksRevocation(
      hash: Hash, fixed: Fixed, s: State, id: string, other: string, header: string, now: Instant)
    requires RevokedAt(s.log, id, s.next) && s.sync.running && s.sync.initialized
    requires other in s.sync.cache && other in fixed
    ensures var t := Apply(fixed, s, WatchNext);
      && Authorize(hash, fixed, t.sync.managed, header, now) == Authorize(hash, fixed, s.sync.managed, header, now)
      && !t.sync.healthy
  {
    var d := WatchSync.DeliveryOf(s.log[s.next]);
    assert d.change.Value?;
    var t := s.sync.(consumed := s.sync.consumed + [d], cache := WatchSync.Absorb(s.sync.cache, d));
    assert other in t.cache;
    assert WatchSync.Collides(fixed, t.cache);
    assert WatchSync.Step(fixed, s.sync, WatchSync.Update(d)) == WatchSync.Install(fixed, t);
  }

  // ---------------------------------------------------------------- a run into the first case

  /** The loop's states while it delivers one active record, the marker, and the record's revocation. */
  function LoopStates(
      fixed: Fixed, active: Record, revoked: Record): (WatchSync.State, WatchSync.State, WatchSync.State)
  {
    var d0, d1 := WatchSync.DeliveryOf(EntryFor(active)), WatchSync.DeliveryOf(EntryFor(revoked));
    var w1 := WatchSync.Started.(cache := map[active.id := active], consumed := [d0]);
    var w2 := WatchSync.Install(fixed, w1).(
      readySent := true, ready := [WatchSync.SnapshotInstalled], initialized := true);
    (w1, w2, WatchSync.Install(fixed, w2.(cache := map[active.id := revoked], consumed := [d0, d1])))
  }

  lemma LoopStatesStep(fixed: Fixed, active: Record, revoked: Record)
    requires RecordOf(EntryFor(active)) == Some(active) && RecordOf(EntryFor(revoked)) == Some(revoked)
    requires active.id == revoked.id && active.id !in fixed
    ensures var (w1, w2, w3) := LoopStates(fixed, active, revoked);
      && WatchSync.Step(fixed, WatchSync.Started, WatchSync.Update(WatchSync.DeliveryOf(EntryFor(active)))) == w1
      && WatchSync.Step(fixed, w1, WatchSync.Marker) == w2
      && WatchSync.Step(fixed, w2, WatchSync.Update(WatchSync.DeliveryOf(EntryFor(revoked)))) == w3
      && w3.healthy && w3.managed == map[active.id := CredentialFor(revoked)]
  {
    var (w1, w2, w3) := LoopStates(fixed, active, revoked);
    assert !WatchSync.Collides(fixed, map[active.id := active]);
    assert !WatchSync.Collides(fixed, map[active.id := revoked]);
    assert map[active.id := active][active.id := revoked] == map[active.id := revoked];
    assert WatchSync.Projection(map[active.id := revoked]) == map[active.id := CredentialFor(revoked)];
  }

  /** A refresh reads the key, the key is revoked, the watch delivers the revocation. */
  function StaleRead(active: Record, revoked: Record): seq<Event> {
    [WatchNext, WatchMarker, ListStart(0, [active.id]), ListGet(0, false), Commit(EntryFor(revoked)), WatchNext]
  }

  lemma StaleReadRuns(fixed: Fixed, active: Record, revoked: Record)
    requires RecordOf(EntryFor(active)) == Some(active) && RecordOf(EntryFor(revoked)) == Some(revoked)
    requires active.id == revoked.id && active.id !in fixed
    ensures Run(fixed, Start([EntryFor(active)]), StaleRead(active, revoked))
            == State([EntryFor(active), EntryFor(revoked)], LoopStates(fixed, active, revoked).2, 2, 1,
                     map[0 := Refresh([], map[active.id := active])])
  {
    var id := active.id;
    var e0, e1 := EntryFor(active), EntryFor(revoked);
    var events := StaleRead(active, revoked);
    var (w1, w2, w3) := LoopStates(fixed, active, revoked);
    LoopStatesStep(fixed, active, revoked);
    NewestIs([e0], 0);
    assert ListsLiveKeys([e0], [id]);
    var reading, read := Refresh([id], map[]), Refresh([], map[id := active]);
    var s1 := State([e0], w1, 1, 1, map[]);
    var s2 := State([e0], w2, 1, 1, map[]);
    var s3 := State([e0], w2, 1, 1, map[0 := reading]);
    var s4 := State([e0], w2, 1, 1, map[0 := read]);
    var s5 := State([e0, e1], w2, 1, 1, map[0 := read]);
    var s6 := State([e0, e1], w3, 2, 1, map[0 := read]);
    assert reading.pending[1..] == [];
    assert Read(s3, 0, false) == s4;
    RunSix(fixed, events, Start([e0]), s1, s2, s3, s4, s5, s6);
  }

  /**
   * The first case is reached in six steps from a bucket with one key: an admin request that read the key before
   * the revocation and installs after the watch has delivered it brings the revoked key back, with the watch
   * drained and reporting healthy, on a log that only atomic operations wrote.
   */
  lemma StaleRefreshRevivesARevokedKey(
      hash: Hash, fixed: Fixed, active: Record, revoked: Record, secret: string, header: string, now: Instant)
    requires RecordOf(EntryFor(active)) == Some(active) && RecordOf(EntryFor(revoked)) == Some(revoked)
    requires active.id !in fixed && Fresh(active) && active.expiresAt.None? && RevocationOf(active, revoked)
    requires DigestBytes(active.secretSHA256) == hash(secret) && Presents(header, active.id, secret)
    ensures var s := Run(fixed, Start([EntryFor(active)]), StaleRead(active, revoked));
      var t := Apply(fixed, s, RefreshInstall(0));
      && Serial(t.log) && t.next == |t.log| && t.sync.healthy
      && Authorize(hash, fixed, s.sync.managed, header, now) == None
      && Authorize(hash, fixed, t.sync.managed, header, now) == Some(active.id)
  {
    StaleReadRuns(fixed, active, revoked);
    LoopStatesStep(fixed, active, revoked);
    StaleLogIsSerial(active, revoked);
    var s := Run(fixed, Start([EntryFor(active)]), StaleRead(active, revoked));
    StaleInstall(fixed, s, active);
    RefusedIsUnauthorized(hash, fixed, s.sync.managed, active.id, header, now);
    PresentedIdOrNone(hash, fixed, s.sync.managed, active.id, secret, header, now);
    CopyAuthenticates(hash, fixed, Apply(fixed, s, RefreshInstall(0)).sync.managed, active, secret, header, now);
  }

  lemma StaleInstall(fixed: Fixed, s: State, active: Record)
    requires s.refreshes == map[0 := Refresh([], map[active.id := active])] && active.id !in fixed
    ensures var t := Apply(fixed, s, RefreshInstall(0));
      && t.log == s.log && t.next == s.next && t.sync.healthy == s.sync.healthy
      && t.sync.managed == map[active.id := CredentialFor(active)]
  {
    assert !WatchSync.Collides(fixed, map[active.id := active]);
    assert WatchSync.Projection(map[active.id := active]) == map[active.id := CredentialFor(active)];
  }

  lemma StaleLogIsSerial(active: Record, revoked: Record)
    requires RecordOf(EntryFor(active)) == Some(active) && RecordOf(EntryFor(revoked)) == Some(revoked)
    requires Fresh(active) && RevocationOf(active, revoked)
    ensures Serial([EntryFor(active), EntryFor(revoked)])
  {
    var e0, e1 := EntryFor(active), EntryFor(revoked);
    NewestIs([e0], 0);
    SerialExtends([], e0);
    assert [] + [e0] == [e0];
    SerialExtends([e0], e1);
    assert [e0] + [e1] == [e0, e1];
  }

  lemma RunSix(
      fixed: Fixed, events: seq<Event>, s0: State, s1: State, s2: State, s3: State, s4: State, s5: State, s6: State)
    requires |events| == 6
    requires Apply(fixed, s0, events[0]) == s1 && Apply(fixed, s1, events[1]) == s2 && Apply(fixed, s2, events[2]) == s3
    requires Apply(fixed, s3, events[3]) == s4 && Apply(fixed, s4, events[4]) == s5 && Apply(fixed, s5, events[5]) == s6
    ensures Run(fixed, s0, events) == s6
  {
    assert Run(fixed, s6, events[6..]) == s6;
    assert events[5..][1..] == events[6..];
    assert Run(fixed, s5, events[5..]) == s6;
    assert events[4..][1..] == events[5..];
    assert Run(fixed, s4, events[4..]) == s6;
    assert events[3..][1..] == events[4..];
    assert Run(fixed, s3, events[3..]) == s6;
    assert events[2..][1..] == events[3..];
    assert Run(fixed, s2, events[2..]) == s6;
    assert events[1..][1..] == events[2..];
    assert Run(fixed, s1, events[1..]) == s6;
  }
}
