/**
 * One API replica's verifier with both of its writers active: the watch loop, and admin requests that list the
 * bucket key by key and then replace the verifier's map, while the log grows at any moment.
 */
module Replicas {
  import opened Common
  import opened KeyRecords
  import opened CredentialLog
  import opened Verifier
  import WatchSync
  import opened KeyStore

  /** A refreshVerifier in flight: the keys still to read and the records read so far. */
  datatype Refresh = Refresh(pending: seq<string>, got: WatchSync.Cache)

  /**
   * The watch was opened when the log had `watchFrom` entries; `next` is the log position it will deliver.
   */
  datatype State = State(log: Log, sync: WatchSync.State, next: nat, watchFrom: nat, refreshes: map<nat, Refresh>)

  datatype Event =
    | Commit(entry: Entry)
    | WatchNext
    | WatchSkip
    | WatchMarker
    | WatchTrouble(trouble: WatchSync.Event)
    | ListStart(refresh: nat, keys: seq<string>)
    | ListGet(refresh: nat, fails: bool)
    | RefreshInstall(refresh: nat)

  function Start(log: Log): State {
    State(log, WatchSync.Started, 0, |log|, map[])
  }

  /** The initial snapshot delivers only the newest entry of each key. */
  predicate Superseded(s: State) {
    s.next < s.watchFrom <= |s.log| && exists j :: s.next < j < s.watchFrom && s.log[j].key == s.log[s.next].key
  }

  function Watch(fixed: Fixed, s: State, e: WatchSync.Event): State {
    s.(sync := WatchSync.Step(fixed, s.sync, e))
  }

  /** One key of List: a key deleted meanwhile is skipped, any other failure ends the refresh. */
  function Read(s: State, r: nat, fails: bool): State
    requires r in s.refreshes && s.refreshes[r].pending != []
  {
    var key, rest := s.refreshes[r].pending[0], s.refreshes[r].pending[1..];
    if fails then s.(refreshes := s.refreshes - {r})
    else if !Live(s.log, key) then s.(refreshes := s.refreshes[r := s.refreshes[r].(pending := rest)])
    else if Current(s.log, key).None? then s.(refreshes := s.refreshes - {r})
    else s.(refreshes := s.refreshes[r := Refresh(rest, s.refreshes[r].got[key := Current(s.log, key).value])])
  }

  ghost function Apply(fixed: Fixed, s: State, e: Event): State {
    match e
    case Commit(entry) => s.(log := s.log + [entry])
    case WatchNext =>
      if s.next >= |s.log| then s
      else Watch(fixed, s, WatchSync.Update(WatchSync.DeliveryOf(s.log[s.next]))).(next := s.next + 1)
    case WatchSkip => if Superseded(s) then s.(next := s.next + 1) else s
    case WatchMarker => if s.next >= s.watchFrom then Watch(fixed, s, WatchSync.Marker) else s
    case WatchTrouble(t) => if t.Update? || t.Marker? || t.AdminReplace? then s else Watch(fixed, s, t)
    case ListStart(r, keys) =>
      if r in s.refreshes || !ListsLiveKeys(s.log, keys) then s
      else s.(refreshes := s.refreshes[r := Refresh(keys, map[])])
    case ListGet(r, fails) => if r in s.refreshes && s.refreshes[r].pending != [] then Read(s, r, fails) else s
    case RefreshInstall(r) =>
      if r !in s.refreshes || s.refreshes[r].pending != [] then s
      else
        var t := s.(refreshes := s.refreshes - {r});
        if WatchSync.Collides(fixed, s.refreshes[r].got) then t
        else Watch(fixed, t, WatchSync.AdminReplace(WatchSync.Projection(s.refreshes[r].got)))
  }

  ghost function Run(fixed: Fixed, s: State, events: seq<Event>): State
    decreases |events|
  {
    if events == [] then s else Run(fixed, Apply(fixed, s, events[0]), events[1..])
  }

  lemma {:induction false} LogGrows(fixed: Fixed, s: State, events: seq<Event>)
    ensures s.log <= Run(fixed, s, events).log
    decreases |events|
  {
    if events != [] {
      LogGrows(fixed, Apply(fixed, s, events[0]), events[1..]);
    }
  }

  // ---------------------------------------------------------------- provenance

  /** The store committed this record for this id at some revision. */
  ghost predicate WasCommitted(log: Log, id: string, r: Record) {
    exists i :: 0 <= i < |log| && log[i].key == id && RecordOf(log[i]) == Some(r)
  }

  ghost predicate AllCommitted(log: Log, cache: WatchSync.Cache) {
    forall id | id in cache :: WasCommitted(log, id, cache[id])
  }

  ghost predicate HoldsCommitted(log: Log, id: string, c: Credential) {
    exists r :: WasCommitted(log, id, r) && c == CredentialFor(r)
  }

  ghost predicate Sourced(s: State) {
    && AllCommitted(s.log, s.sync.cache)
    && (forall r | r in s.refreshes :: AllCommitted(s.log, s.refreshes[r].got))
    && (forall id | id in s.sync.managed :: HoldsCommitted(s.log, id, s.sync.managed[id]))
  }

  lemma CommittedExtends(log: Log, e: Entry, id: string, r: Record)
    requires WasCommitted(log, id, r)
    ensures WasCommitted(log + [e], id, r)
  {
    var i :| 0 <= i < |log| && log[i].key == id && RecordOf(log[i]) == Some(r);
    assert (log + [e])[i] == log[i];
  }

  lemma CommitKeepsSourced(s: State, e: Entry)
    requires Sourced(s)
    ensures Sourced(s.(log := s.log + [e]))
  {
    var log := s.log + [e];
    forall id, r | WasCommitted(s.log, id, r) ensures WasCommitted(log, id, r) {
      CommittedExtends(s.log, e, id, r);
    }
  }

  lemma ProjectionSourced(log: Log, cache: WatchSync.Cache)
    requires AllCommitted(log, cache)
    ensures forall id | id in WatchSync.Projection(cache) :: HoldsCommitted(log, id, WatchSync.Projection(cache)[id])
  {
  }

  lemma CurrentWasCommitted(log: Log, key: string)
    requires Current(log, key).Some?
    ensures WasCommitted(log, key, Current(log, key).value)
  {
    var i := LastIndex(log, key).value;
    assert log[i].key == key;
  }

  lemma DeliveryWasCommitted(log: Log, i: nat)
    requires i < |log| && WatchSync.DeliveryOf(log[i]).change.Value?
    ensures WasCommitted(log, log[i].key, WatchSync.DeliveryOf(log[i]).change.record)
  {
  }

  /** One turn of the loop, whose maps come from the old ones and the entry delivered. */
  lemma TurnKeepsSourced(s: State, t: State, e: WatchSync.Event)
    requires Sourced(s) && t == s.(sync := t.sync, next := t.next) && WatchSync.MovesMaps(s.sync, t.sync, e)
    requires e.Update? && e.delivery.change.Value? ==> WasCommitted(s.log, e.delivery.key, e.delivery.change.record)
    ensures Sourced(t)
  {
    assert AllCommitted(s.log, t.sync.cache);
    ProjectionSourced(s.log, t.sync.cache);
  }

  lemma ApplyKeepsSourced(fixed: Fixed, s: State, e: Event)
    requires Sourced(s)
    ensures Sourced(Apply(fixed, s, e))
  {
    match e
    case Commit(entry) => CommitKeepsSourced(s, entry);
    case WatchNext =>
      if s.next < |s.log| {
        if WatchSync.DeliveryOf(s.log[s.next]).change.Value? {
          DeliveryWasCommitted(s.log, s.next);
        }
        var turn := WatchSync.Update(WatchSync.DeliveryOf(s.log[s.next]));
        WatchSync.StepMovesMaps(fixed, s.sync, turn);
        TurnKeepsSourced(s, Apply(fixed, s, e), turn);
      }
    case WatchMarker =>
      WatchSync.StepMovesMaps(fixed, s.sync, WatchSync.Marker);
      TurnKeepsSourced(s, Watch(fixed, s, WatchSync.Marker), WatchSync.Marker);
    case WatchTrouble(trouble) =>
      if !trouble.Update? && !trouble.AdminReplace? {
        WatchSync.StepMovesMaps(fixed, s.sync, trouble);
        TurnKeepsSourced(s, Watch(fixed, s, trouble), trouble);
      }
    case ListGet(r, fails) =>
      if r in s.refreshes && s.refreshes[r].pending != [] && Current(s.log, s.refreshes[r].pending[0]).Some? {
        CurrentWasCommitted(s.log, s.refreshes[r].pending[0]);
      }
    case RefreshInstall(r) => if r in s.refreshes { ProjectionSourced(s.log, s.refreshes[r].got); }
    case _ =>
  }

  lemma {:induction false} RunKeepsSourced(fixed: Fixed, s: State, events: seq<Event>)
    requires Sourced(s)
    ensures Sourced(Run(fixed, s, events))
    decreases |events|
  {
    if events != [] {
      ApplyKeepsSourced(fixed, s, events[0]);
      RunKeepsSourced(fixed, Apply(fixed, s, events[0]), events[1..]);
    }
  }

  /** In every run with both writers, each entry the verifier holds is a record the store once committed for that id. */
  lemma VerifierHoldsCommittedRecords(fixed: Fixed, log: Log, events: seq<Event>, id: string)
    requires id in Run(fixed, Start(log), events).sync.managed
    ensures var s := Run(fixed, Start(log), events); HoldsCommitted(s.log, id, s.sync.managed[id])
  {
    RunKeepsSourced(fixed, Start(log), events);
  }

  /**
   * A token for an id without static key is accepted only if its digest was, at some revision, the id's
   * committed and unrevoked digest, and the expiry committed with it has not passed.
   */
  lemma AcceptedMeansOnceCommitted(
      hash: Hash, fixed: Fixed, log: Log, events: seq<Event>, header: string, now: Instant, id: string)
    requires id !in fixed
    requires Authorize(hash, fixed, Run(fixed, Start(log), events).sync.managed, header, now) == Some(id)
    ensures exists r, secret ::
      && WasCommitted(Run(fixed, Start(log), events).log, id, r) && Presents(header, id, secret)
      && r.revokedAt.None? && (r.expiresAt.Some? ==> now < r.expiresAt.value)
      && DigestBytes(r.secretSHA256) == hash(secret)
  {
    var s := Run(fixed, Start(log), events);
    AcceptedIff(hash, fixed, s.sync.managed, header, now, id);
    var secret :| Presents(header, id, secret) && Usable(hash, fixed, s.sync.managed, id, secret, now);
    VerifierHoldsCommittedRecords(fixed, log, events, id);
    var r :| WasCommitted(s.log, id, r) && s.sync.managed[id] == CredentialFor(r);
    assert WasCommitted(s.log, id, r) && Presents(header, id, secret);
  }
}
