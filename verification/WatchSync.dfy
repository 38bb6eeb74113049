/**
 * StartVerifierSync of internal/keystore/nats.go: the event loop that replays the bucket's watch into a map and
 * swaps its projection into the verifier. `Step` is one turn of the loop; SyncLoop is the loop itself.
 */
module WatchSync {
  import opened Common
  import opened KeyRecords
  import opened CredentialLog
  import opened Verifier

  // ---------------------------------------------------------------- replaying entries

  /** The loop's `state` map. */
  type Cache = map<string, Record>

  /** What one watch entry means to the loop. */
  datatype Change = Removed | Value(record: Record) | Malformed

  datatype Delivery = Delivery(key: string, change: Change)

  function DeliveryOf(e: Entry): Delivery {
    Delivery(e.key, if !e.op.Put? then Removed else if RecordOf(e).Some? then Value(RecordOf(e).value) else Malformed)
  }

  function Deliveries(log: Log): (d: seq<Delivery>)
    ensures |d| == |log| && forall i | 0 <= i < |log| :: d[i] == DeliveryOf(log[i])
  {
    seq(|log|, i requires 0 <= i < |log| => DeliveryOf(log[i]))
  }

  /** One update: deletions remove, decodable values replace, anything else is skipped. */
  function Absorb(cache: Cache, d: Delivery): Cache {
    match d.change
    case Removed => cache - {d.key}
    case Value(record) => cache[d.key := record]
    case Malformed => cache
  }

  function Replay(deliveries: seq<Delivery>): Cache {
    if deliveries == [] then map[] else Absorb(Replay(deliveries[..|deliveries| - 1]), deliveries[|deliveries| - 1])
  }

  lemma ReplayOneMore(deliveries: seq<Delivery>, d: Delivery)
    ensures Replay(deliveries + [d]) == Absorb(Replay(deliveries), d)
  {
    var longer := deliveries + [d];
    assert longer[..|longer| - 1] == deliveries;
  }

  /** The replay knows about a key exactly what a read of the bucket would return. */
  predicate AgreesAt(cache: Cache, log: Log, key: string) {
    && (key in cache <==> Live(log, key))
    && (key in cache ==> Current(log, key) == Some(cache[key]))
  }

  lemma {:induction false} ReplayAt(log: Log, key: string)
    ensures LastIndex(log, key).None? ==> key !in Replay(Deliveries(log))
    ensures LastIndex(log, key).Some? && !DeliveryOf(log[LastIndex(log, key).value]).change.Malformed? ==>
              AgreesAt(Replay(Deliveries(log)), log, key)
  {
    if log != [] {
      var front, last := log[..|log| - 1], log[|log| - 1];
      ReplayAt(front, key);
      assert Deliveries(log) == Deliveries(front) + [DeliveryOf(last)];
      ReplayOneMore(Deliveries(front), DeliveryOf(last));
      if last.key != key && LastIndex(log, key).Some? {
        assert front[LastIndex(front, key).value] == log[LastIndex(log, key).value];
      }
    }
  }

  predicate NewestMalformed(log: Log, key: string) {
    LastIndex(log, key).Some? && DeliveryOf(log[LastIndex(log, key).value]).change.Malformed?
  }

  /** The replayed map agrees with the bucket on a key if and only if the key's newest entry is not malformed. */
  lemma ReplayAgreesIff(log: Log, key: string)
    ensures AgreesAt(Replay(Deliveries(log)), log, key) <==> !NewestMalformed(log, key)
  {
    ReplayAt(log, key);
  }

  /** What the verifier is given for a cache. */
  function Projection(cache: Cache): Managed {
    map id | id in cache :: CredentialFor(cache[id])
  }

  /** Only decoded records enter the cache, each under its own id. */
  ghost predicate Decoded(cache: Cache) {
    forall id | id in cache :: id == cache[id].id && ValidID(id) && DigestShape(cache[id].secretSHA256)
  }

  // ---------------------------------------------------------------- one turn of the loop

  datatype Startup = SnapshotInstalled | StartupFailed

  /**
   * `managed` is the shared verifier map. The last three fields are history: every entry taken from the
   * watch, the last map the loop itself installed, and whether an admin refresh has replaced it since.
   */
  datatype State = State(
    cache: Cache, initialized: bool, readySent: bool, ready: seq<Startup>, healthy: bool, running: bool,
    managed: Managed,
    consumed: seq<Delivery>, installed: Option<Managed>, adminSince: bool)

  const Started := State(map[], false, false, [], false, true, map[], [], None, false)

  datatype Event =
    | Cancelled
    | WatchError
    | ErrorsClosed
    | Update(delivery: Delivery)
    | Marker
    | UpdatesClosed
    | AdminReplace(managed: Managed)

  predicate Collides(fixed: Fixed, cache: Cache) {
    exists id :: id in cache && id in fixed
  }

  /** `apply`: install the cache's projection, or report unhealthy and leave the verifier as it was. */
  function Install(fixed: Fixed, s: State): State {
    if Collides(fixed, s.cache) then s.(healthy := false)
    else
      var projection := Projection(s.cache);
      s.(managed := projection, installed := Some(projection), adminSince := false, healthy := true)
  }

  /** The loop returns: the deferred store of `false` comes with it. */
  function Return(s: State): State {
    s.(running := false, healthy := false)
  }

  function ReturnSending(s: State, result: Startup): State {
    Return(s.(ready := s.ready + [result]))
  }

  /** The nil entry: the snapshot is complete and is installed, once. */
  function MarkerTurn(fixed: Fixed, s: State): State {
    if s.initialized then s
    else
      var t := Install(fixed, s).(readySent := true);
      if Collides(fixed, s.cache) then ReturnSending(t, StartupFailed)
      else t.(ready := s.ready + [SnapshotInstalled], initialized := true)
  }

  /** An entry: absorbed and, once initialized, installed; a malformed one is only tolerated after the marker. */
  function UpdateTurn(fixed: Fixed, s: State, d: Delivery): State {
    var t := s.(consumed := s.consumed + [d], cache := Absorb(s.cache, d));
    if d.change.Malformed? then
      if !s.readySent then ReturnSending(t.(readySent := true), StartupFailed) else t.(healthy := false)
    else if s.initialized then Install(fixed, t)
    else t
  }

  function Step(fixed: Fixed, s: State, e: Event): State {
    if e.AdminReplace? then s.(managed := e.managed, adminSince := true)
    else if !s.running then s
    else
      match e
      case Cancelled => if !s.readySent then ReturnSending(s, StartupFailed) else Return(s)
      case ErrorsClosed => s
      case WatchError =>
        if !s.readySent then ReturnSending(s.(readySent := true), StartupFailed) else s.(healthy := false)
      case UpdatesClosed => if !s.readySent then ReturnSending(s, StartupFailed) else Return(s)
      case Marker => MarkerTurn(fixed, s)
      case Update(d) => UpdateTurn(fixed, s, d)
  }

  function Run(fixed: Fixed, s: State, events: seq<Event>): State
    decreases |events|
  {
    if events == [] then s else Run(fixed, Step(fixed, s, events[0]), events[1..])
  }

  // ---------------------------------------------------------------- invariants

  predicate AllClean(deliveries: seq<Delivery>) {
    forall i | 0 <= i < |deliveries| :: !deliveries[i].change.Malformed?
  }

  predicate NoCollision(fixed: Fixed, deliveries: seq<Delivery>) {
    forall i | 0 <= i < |deliveries| :: deliveries[i].key !in fixed
  }

  predicate Succeeded(s: State) {
    |s.ready| == 1 && s.ready[0].SnapshotInstalled?
  }

  /** The startup channel: capacity one is enough, and success goes with initialization. */
  predicate StartupOk(s: State) {
    && |s.ready| <= 1
    && (s.running ==> s.readySent == s.initialized == (|s.ready| == 1))
    && (!s.running ==> |s.ready| == 1 && !s.healthy)
    && (s.initialized <==> Succeeded(s))
  }

  /** The cache is the replay of everything consumed; before the marker nothing malformed is tolerated. */
  ghost predicate ReplayOk(s: State) {
    && s.cache == Replay(s.consumed)
    && (s.running && !s.initialized ==> AllClean(s.consumed))
  }

  ghost predicate InstallOk(fixed: Fixed, s: State) {
    && (s.healthy ==> s.initialized && s.installed == Some(Projection(s.cache)))
    && (s.installed.Some? && !s.adminSince ==> s.managed == s.installed.value)
    && (s.initialized ==> s.installed.Some?)
    && (s.initialized && AllClean(s.consumed) && NoCollision(fixed, s.consumed) ==>
          s.installed == Some(Projection(s.cache)))
  }

  ghost predicate Inv(fixed: Fixed, s: State) {
    StartupOk(s) && ReplayOk(s) && InstallOk(fixed, s)
  }

  lemma {:induction false} NoCollisionInstalls(fixed: Fixed, deliveries: seq<Delivery>)
    requires NoCollision(fixed, deliveries)
    ensures !Collides(fixed, Replay(deliveries))
  {
    if deliveries != [] {
      NoCollisionInstalls(fixed, deliveries[..|deliveries| - 1]);
    }
  }

  lemma StepKeepsStartup(fixed: Fixed, s: State, e: Event)
    requires StartupOk(s)
    ensures StartupOk(Step(fixed, s, e))
  {
  }

  /** What a turn does to the cache and the history, whatever else it does. */
  ghost predicate Tracks(s: State, t: State, e: Event) {
    if e.Update? && s.running
    then t.consumed == s.consumed + [e.delivery] && t.cache == Absorb(s.cache, e.delivery)
         && (e.delivery.change.Malformed? && !s.initialized ==> !t.running)
    else t.consumed == s.consumed && t.cache == s.cache
  }

  lemma StepTracks(fixed: Fixed, s: State, e: Event)
    requires StartupOk(s)
    ensures Tracks(s, Step(fixed, s, e), e)
  {
  }

  /** The maps after a turn: the cache absorbs the delivery; the verifier keeps its map or gets the projection. */
  ghost predicate MovesMaps(s: State, t: State, e: Event) {
    && t.cache == (if e.Update? && s.running then Absorb(s.cache, e.delivery) else s.cache)
    && (t.managed == s.managed || t.managed == Projection(t.cache))
  }

  lemma UpdateMovesMaps(fixed: Fixed, s: State, d: Delivery)
    ensures MovesMaps(s, Step(fixed, s, Update(d)), Update(d))
  {
    if s.running && !d.change.Malformed? && s.initialized {
      var t := s.(consumed := s.consumed + [d], cache := Absorb(s.cache, d));
      assert Step(fixed, s, Update(d)) == Install(fixed, t);
    }
  }

  lemma StepMovesMaps(fixed: Fixed, s: State, e: Event)
    requires !e.AdminReplace?
    ensures MovesMaps(s, Step(fixed, s, e), e)
  {
    match e
    case Update(d) => UpdateMovesMaps(fixed, s, d);
    case _ =>
  }

  lemma TrackingKeepsReplay(s: State, t: State, e: Event)
    requires ReplayOk(s) && Tracks(s, t, e) && (t.running ==> s.running) && (s.initialized ==> t.initialized)
    ensures ReplayOk(t)
  {
    if e.Update? {
      ReplayOneMore(s.consumed, e.delivery);
    }
  }

  lemma StepKeepsReplay(fixed: Fixed, s: State, e: Event)
    requires StartupOk(s) && ReplayOk(s)
    ensures ReplayOk(Step(fixed, s, e))
  {
    StepTracks(fixed, s, e);
    TrackingKeepsReplay(s, Step(fixed, s, e), e);
  }

  /** Extending a history cannot make it clean or free of collisions. */
  lemma FlawsStay(fixed: Fixed, s: State, t: State, e: Event)
    requires Tracks(s, t, e)
    ensures AllClean(t.consumed) ==> AllClean(s.consumed)
    ensures NoCollision(fixed, t.consumed) ==> NoCollision(fixed, s.consumed)
    ensures AllClean(t.consumed) && e.Update? && s.running ==> !e.delivery.change.Malformed?
  {
    if e.Update? && s.running {
      assert t.consumed[..|s.consumed|] == s.consumed;
      assert t.consumed[|s.consumed|] == e.delivery;
    }
  }

  lemma InstallIsOk(fixed: Fixed, s: State)
    requires s.cache == Replay(s.consumed)
    ensures var t := Install(fixed, s).(initialized := true);
      (s.installed.Some? && (!s.adminSince ==> s.managed == s.installed.value)) || !Collides(fixed, s.cache) ==>
        InstallOk(fixed, t)
  {
    if NoCollision(fixed, s.consumed) {
      NoCollisionInstalls(fixed, s.consumed);
    }
  }

  lemma UpdateKeepsInstall(fixed: Fixed, s: State, d: Delivery)
    requires Inv(fixed, s) && s.running
    ensures InstallOk(fixed, UpdateTurn(fixed, s, d))
  {
    var t := s.(consumed := s.consumed + [d], cache := Absorb(s.cache, d));
    ReplayOneMore(s.consumed, d);
    StepTracks(fixed, s, Update(d));
    FlawsStay(fixed, s, UpdateTurn(fixed, s, d), Update(d));
    if s.initialized && !d.change.Malformed? {
      InstallIsOk(fixed, t);
    }
  }

  lemma MarkerKeepsInstall(fixed: Fixed, s: State)
    requires Inv(fixed, s) && s.running
    ensures InstallOk(fixed, MarkerTurn(fixed, s))
  {
    InstallIsOk(fixed, s);
  }

  lemma StepKeepsInstall(fixed: Fixed, s: State, e: Event)
    requires Inv(fixed, s)
    ensures InstallOk(fixed, Step(fixed, s, e))
  {
    if e.Update? && s.running {
      UpdateKeepsInstall(fixed, s, e.delivery);
    } else if e.Marker? && s.running {
      MarkerKeepsInstall(fixed, s);
    }
  }

  lemma StepKeepsInv(fixed: Fixed, s: State, e: Event)
    requires Inv(fixed, s)
    ensures Inv(fixed, Step(fixed, s, e))
  {
    StepKeepsStartup(fixed, s, e);
    StepKeepsReplay(fixed, s, e);
    StepKeepsInstall(fixed, s, e);
  }

  lemma {:induction false} RunKeepsInv(fixed: Fixed, s: State, events: seq<Event>)
    requires Inv(fixed, s)
    ensures Inv(fixed, Run(fixed, s, events))
    decreases |events|
  {
    if events != [] {
      StepKeepsInv(fixed, s, events[0]);
      RunKeepsInv(fixed, Step(fixed, s, events[0]), events[1..]);
    }
  }

  // ---------------------------------------------------------------- theorems over every run

  /**
   * The loop sends at most one startup result ever, exactly one by the time it returns, so on a channel of
   * capacity one it never blocks; a success result is sent exactly when the loop becomes initialized.
   */
  lemma OneStartupResult(fixed: Fixed, events: seq<Event>)
    ensures var s := Run(fixed, Started, events);
      && |s.ready| <= 1
      && (!s.running ==> |s.ready| == 1)
      && (s.initialized <==> Succeeded(s))
  {
    RunKeepsInv(fixed, Started, events);
  }

  /**
   * When the success result is sent, every entry delivered so far decoded, none collides with a static key,
   * and the verifier holds exactly the projection of their replay.
   */
  lemma SuccessMeansSnapshotInstalled(fixed: Fixed, events: seq<Event>, e: Event)
    requires var s := Run(fixed, Started, events);
      !Succeeded(s) && Succeeded(Step(fixed, s, e))
    ensures var s := Run(fixed, Started, events);
      var t := Step(fixed, s, e);
      && e.Marker? && t.consumed == s.consumed && AllClean(t.consumed)
      && !Collides(fixed, Replay(t.consumed)) && t.managed == Projection(Replay(t.consumed)) && t.healthy
  {
    RunKeepsInv(fixed, Started, events);
  }

  /** Health is never claimed unless the loop is running and its last install succeeded on its current map. */
  lemma HealthMeansInstalled(fixed: Fixed, events: seq<Event>)
    ensures var s := Run(fixed, Started, events);
      s.healthy ==> s.running && s.initialized && s.installed == Some(Projection(Replay(s.consumed)))
                    && (!s.adminSince ==> s.managed == Projection(Replay(s.consumed)))
  {
    RunKeepsInv(fixed, Started, events);
  }

  /** Once the loop has returned, no event makes it healthy, sends a second result or moves its map. */
  lemma {:induction false} ReturnIsFinal(fixed: Fixed, s: State, events: seq<Event>)
    requires Inv(fixed, s) && !s.running
    ensures var t := Run(fixed, s, events); !t.running && !t.healthy && t.ready == s.ready && t.cache == s.cache
    decreases |events|
  {
    if events != [] {
      StepKeepsInv(fixed, s, events[0]);
      ReturnIsFinal(fixed, Step(fixed, s, events[0]), events[1..]);
    }
  }

  /**
   * Replay refines the log: over entries that decode and do not collide with static ids, from the marker on
   * and as long as no admin refresh intervenes, the verifier holds exactly the projection of the consumed
   * prefix, and this is what a read of the bucket at that prefix returns, key by key.
   */
  lemma WatchRefinesTheLog(fixed: Fixed, events: seq<Event>, log: Log, key: string)
    requires var s := Run(fixed, Started, events);
      s.initialized && !s.adminSince
      && s.consumed == Deliveries(log) && AllClean(s.consumed) && NoCollision(fixed, s.consumed)
    ensures var s := Run(fixed, Started, events);
      && s.managed == Projection(Replay(s.consumed))
      && (key in s.managed <==> Live(log, key))
      && (key in s.managed ==> Current(log, key).Some? && s.managed[key] == CredentialFor(Current(log, key).value))
  {
    RunKeepsInv(fixed, Started, events);
    ReplayAgreesIff(log, key);
  }

  /**
   * Health does not mean agreement with the whole log: a malformed entry is reported once, and the next
   * good one makes the loop healthy again although the malformed key is live and unknown to the verifier.
   */
  lemma HealthCanHideAMalformedKey(fixed: Fixed, bad: string, good: Record)
    requires RecordOf(EntryFor(good)).Some? && good.id != bad && good.id !in fixed
    ensures var log := [Entry(bad, Put(Undecodable)), EntryFor(good)];
      var s := Run(fixed, Started, [Marker, Update(DeliveryOf(log[0])), Update(DeliveryOf(log[1]))]);
      s.healthy && s.consumed == Deliveries(log) && Live(log, bad) && bad !in s.managed
  {
    var log := [Entry(bad, Put(Undecodable)), EntryFor(good)];
    var e1, e2 := Update(DeliveryOf(log[0])), Update(DeliveryOf(log[1]));
    var s0 := Step(fixed, Started, Marker);
    var s1 := Step(fixed, s0, e1);
    var s2 := Step(fixed, s1, e2);
    var events := [Marker, e1, e2];
    assert events[1..] == [e1, e2] && events[1..][1..] == [e2] && events[1..][1..][1..] == [];
    assert Run(fixed, s2, []) == s2;
    assert Run(fixed, s1, [e2]) == s2;
    assert Run(fixed, s0, [e1, e2]) == s2;
    assert s2.cache == map[good.id := good];
    assert s2.consumed == Deliveries(log);
    NewestIs(log, 0);
  }

  // ---------------------------------------------------------------- the loop

  class SyncLoop {
    const verifier: BearerVerifier
    var cache: Cache
    var initialized: bool
    var readySent: bool
    var ready: seq<Startup>
    var healthy: bool
    var running: bool
    ghost var consumed: seq<Delivery>
    ghost var installed: Option<Managed>
    ghost var adminSince: bool

    ghost function View(): State
      reads this, verifier
    {
      State(cache, initialized, readySent, ready, healthy, running, verifier.managed, consumed, installed, adminSince)
    }

    constructor (verifier: BearerVerifier)
      requires verifier.managed == map[]
      ensures this.verifier == verifier && View() == Started
    {
      this.verifier := verifier;
      cache, initialized, readySent, ready, healthy, running := map[], false, false, [], false, true;
      consumed, installed, adminSince := [], None, false;
    }

    /**
     * Lists the cached records in whatever order the map yields them and hands them to the verifier. The
     * result does not depend on that order.
     */
    method Apply() returns (ok: bool)
      requires Decoded(cache)
      modifies this`healthy, this`installed, this`adminSince, verifier
      ensures View() == Install(verifier.fixed, old(View()))
      ensures ok <==> !Collides(verifier.fixed, cache)
    {
      var keys := ListKeys(cache);
      CachedKeysAcceptable(verifier.fixed, cache, keys);
      var r := verifier.ReplaceManaged(keys);
      if r.Err? {
        healthy := false;
        return false;
      }
      ProjectionUnique(keys, verifier.managed, Projection(cache));
      installed, adminSince := Some(verifier.managed), false;
      healthy := true;
      return true;
    }

    /** One turn of the select loop that takes no entry from the watch. */
    method Handle(e: Event)
      requires running && !e.AdminReplace? && !e.Update? && Decoded(cache)
      modifies this, verifier
      ensures Decoded(cache)
      ensures View() == Step(verifier.fixed, old(View()), e)
    {
      match e {
        case Cancelled =>
          if !readySent {
            ready := ready + [StartupFailed];
          }
          Stop();
        case ErrorsClosed =>
        case WatchError =>
          if !readySent {
            ready := ready + [StartupFailed];
            readySent := true;
            Stop();
          } else {
            healthy := false;
          }
        case UpdatesClosed =>
          if !readySent {
            ready := ready + [StartupFailed];
          }
          Stop();
        case Marker =>
          HandleMarker();
      }
    }

    /** The nil entry that ends the initial snapshot. */
    method HandleMarker()
      requires running && Decoded(cache)
      modifies this, verifier
      ensures Decoded(cache) && View() == MarkerTurn(verifier.fixed, old(View()))
    {
      if initialized {
        return;
      }
      var ok := Apply();
      ready := ready + [if ok then SnapshotInstalled else StartupFailed];
      readySent := true;
      if ok {
        initialized := true;
      } else {
        Stop();
      }
    }

    /** Decodes an entry and updates the map; a malformed entry leaves it alone. */
    method Take(entry: Entry) returns (ok: bool)
      requires Decoded(cache)
      modifies this`cache, this`consumed
      ensures Decoded(cache) && consumed == old(consumed) + [DeliveryOf(entry)]
      ensures cache == Absorb(old(cache), DeliveryOf(entry))
      ensures ok <==> !DeliveryOf(entry).change.Malformed?
    {
      consumed := consumed + [DeliveryOf(entry)];
      if entry.op.Delete? || entry.op.Purge? {
        cache := cache - {entry.key};
        return true;
      }
      var decoded := DecodePayload(entry.key, entry.op.payload);
      if decoded.Err? {
        return false;
      }
      cache := cache[decoded.value.id := decoded.value];
      return true;
    }

    /**
     * An entry from the watch, the turn `Step` takes on Update: decoded, absorbed and, after the marker, applied
     * at once.
     */
    method HandleUpdate(entry: Entry)
      requires running && Decoded(cache)
      modifies this, verifier
      ensures Decoded(cache) && View() == UpdateTurn(verifier.fixed, old(View()), DeliveryOf(entry))
    {
      var ok := Take(entry);
      if !ok {
        healthy := false;
        if !readySent {
          ready := ready + [StartupFailed];
          readySent := true;
          Stop();
        }
        return;
      }
      if initialized {
        var _ := Apply();
      }
    }

    /** The deferred calls of the goroutine. */
    method Stop()
      modifies this`running, this`healthy
      ensures !running && !healthy
    {
      running, healthy := false, false;
    }
  }

  ghost predicate ListsCache(cache: Cache, keys: seq<ManagedKey>) {
    && (forall i | 0 <= i < |keys| :: keys[i].id in cache && keys[i] == KeyFor(cache[keys[i].id]))
    && (forall i, j | 0 <= i < j < |keys| :: keys[i].id != keys[j].id)
    && (forall id | id in cache :: Listed(keys, id))
  }

  method ListKeys(cache: Cache) returns (keys: seq<ManagedKey>)
    requires forall id | id in cache :: cache[id].id == id
    ensures ListsCache(cache, keys)
  {
    keys := [];
    var rest := cache.Keys;
    ghost var seen: Cache := map[];
    while rest != {}
      invariant rest <= cache.Keys && seen == cache - rest && ListsCache(seen, keys)
      decreases rest
    {
      var id :| id in rest;
      ListOneMore(seen, keys, cache[id]);
      seen := seen[id := cache[id]];
      keys := keys + [KeyFor(cache[id])];
      rest := rest - {id};
    }
    assert seen == cache;
  }

  lemma ListOneMore(seen: Cache, keys: seq<ManagedKey>, r: Record)
    requires ListsCache(seen, keys) && r.id !in seen
    ensures ListsCache(seen[r.id := r], keys + [KeyFor(r)])
  {
    var longer := keys + [KeyFor(r)];
    assert longer[|keys|].id == r.id;
    forall id | id in seen ensures Listed(longer, id) {
      assert Listed(keys, id);
      var i :| 0 <= i < |keys| && keys[i].id == id;
      assert longer[i].id == id;
    }
  }

  /** Any listing of a cache is accepted unless an id is static, and projects to the same map. */
  lemma CachedKeysAcceptable(fixed: Fixed, cache: Cache, keys: seq<ManagedKey>)
    requires ListsCache(cache, keys) && Decoded(cache)
    ensures Acceptable(fixed, keys) <==> !Collides(fixed, cache)
    ensures Projects(keys, Projection(cache))
  {
    forall i | 0 <= i < |keys|
      ensures KeyAcceptable(fixed, keys[i]) <==> keys[i].id !in fixed
      ensures Projection(cache)[keys[i].id] == CredentialOf(keys[i])
    {
      RecordKeyDecodes(cache[keys[i].id]);
    }
    if id :| id in cache && id in fixed {
      assert Listed(keys, id);
    }
  }
}
