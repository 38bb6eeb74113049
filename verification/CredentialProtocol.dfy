/**
 * Create, Rotate and Revoke as the replicas really run them: a read of the bucket and a compare-and-set,
 * with any number of other calls' steps in between. An event that is not enabled changes nothing, so a run
 * is any list of events.
 */
module CredentialProtocol {
  import opened Common
  import opened Text
  import opened KeyRecords
  import opened CredentialLog

  /**
   * A call of one replica. `base` is the log position it read, absent for a Create; `secret` the secret it
   * minted, absent for a Revoke.
   */
  datatype Call =
    | Drafted(base: Option<nat>, draft: Record, secret: Option<string>)
    | Committed(index: nat, base: Option<nat>, draft: Record, secret: Option<string>, acknowledged: bool)
    | Closed

  /** `authors[i]` is the call that wrote log entry i. */
  datatype State = State(log: Log, calls: map<nat, Call>, minted: set<string>, authors: seq<nat>)

  /** How the bucket answers a write: applied and acknowledged, applied but the reply is lost, or not applied. */
  datatype Reply = Acknowledged | ReplyLost | Refused

  datatype Event =
    | BeginCreate(call: nat, input: CreateInput, random: Random, now: Instant)
    | BeginRotate(call: nat, id: string, random: Random, now: Instant)
    | BeginRevoke(call: nat, id: string, now: Instant, reason: string)
    | Write(call: nat, reply: Reply)

  const Initial := State([], map[], {}, [])

  /** Compare-and-set: kv.Create succeeds iff no live entry, kv.Update iff the newest revision is the one read. */
  predicate WriteAllowed(log: Log, key: string, base: Option<nat>) {
    if base.None? then !Live(log, key) else LastIndex(log, key) == base
  }

  function Apply(hash: Hash, s: State, e: Event): State {
    match e
    case BeginCreate(c, input, random, now) =>
      var secret := SecretOf(random);
      if c in s.calls || secret in s.minted then s
      else if !ValidID(input.id) then s.(calls := s.calls[c := Closed])
      else
        s.(calls := s.calls[c := Drafted(None, Created(input, DigestOf(hash, secret), now), Some(secret))],
           minted := s.minted + {secret})
    case BeginRotate(c, id, random, now) =>
      var secret := SecretOf(random);
      if c in s.calls || secret in s.minted then s
      else
        var current := Current(s.log, id);
        if current.None? || current.value.revokedAt.Some? then s.(calls := s.calls[c := Closed])
        else
          var draft := Rotated(current.value, DigestOf(hash, secret), now);
          s.(calls := s.calls[c := Drafted(LastIndex(s.log, id), draft, Some(secret))], minted := s.minted + {secret})
    case BeginRevoke(c, id, now, reason) =>
      if c in s.calls then s
      else
        var current := Current(s.log, id);
        if current.None? || current.value.revokedAt.Some? then s.(calls := s.calls[c := Closed])
        else s.(calls := s.calls[c := Drafted(LastIndex(s.log, id), Revoked(current.value, now, reason), None)])
    case Write(c, reply) =>
      if c !in s.calls || !s.calls[c].Drafted? then s
      else
        var call := s.calls[c];
        if reply.Refused? || !WriteAllowed(s.log, call.draft.id, call.base) then s.(calls := s.calls[c := Closed])
        else
          State(s.log + [EntryFor(call.draft)],
                s.calls[c := Committed(|s.log|, call.base, call.draft, call.secret, reply.Acknowledged?)],
                s.minted,
                s.authors + [c])
  }

  function Run(hash: Hash, s: State, events: seq<Event>): State
    decreases |events|
  {
    if events == [] then s else Run(hash, Apply(hash, s, events[0]), events[1..])
  }

  // ---------------------------------------------------------------- the invariant

  /** The draft a call holds is one legitimate step from what it read. */
  ghost predicate DraftOk(log: Log, base: Option<nat>, draft: Record, secret: Option<string>) {
    && RecordOf(EntryFor(draft)) == Some(draft)
    && (base.None? ==> secret.Some? && Fresh(draft))
    && (base.Some? ==>
          && base.value < |log| && log[base.value].key == draft.id
          && RecordOf(log[base.value]).Some? && RecordOf(log[base.value]).value.revokedAt.None?
          && (if secret.Some? then RotationOf(RecordOf(log[base.value]).value, draft)
              else RevocationOf(RecordOf(log[base.value]).value, draft)))
  }

  ghost predicate CallOk(hash: Hash, s: State, c: nat, call: Call) {
    match call
    case Closed => true
    case Drafted(base, draft, secret) =>
      && DraftOk(s.log, base, draft, secret)
      && (secret.Some? ==> secret.value in s.minted && draft.secretSHA256 == DigestOf(hash, secret.value))
    case Committed(index, base, draft, secret, _) =>
      && DraftOk(s.log, base, draft, secret)
      && (secret.Some? ==> secret.value in s.minted && draft.secretSHA256 == DigestOf(hash, secret.value))
      && index < |s.log| == |s.authors| && s.log[index] == EntryFor(draft) && s.authors[index] == c
      && LastIndex(s.log[..index], draft.id) == base
  }

  function SecretHeld(call: Call): Option<string> {
    if call.Closed? then None else call.secret
  }

  ghost predicate CallsOk(hash: Hash, s: State) {
    forall c | c in s.calls :: CallOk(hash, s, c, s.calls[c])
  }

  ghost predicate AuthorsOk(s: State) {
    && |s.authors| == |s.log|
    && forall i | 0 <= i < |s.log| ::
         s.authors[i] in s.calls && s.calls[s.authors[i]].Committed? && s.calls[s.authors[i]].index == i
  }

  /** No two calls hold the same secret. */
  ghost predicate SecretsDistinct(s: State) {
    forall c, d | c in s.calls && d in s.calls && c != d && SecretHeld(s.calls[c]).Some? ::
      SecretHeld(s.calls[c]) != SecretHeld(s.calls[d])
  }

  ghost predicate Inv(hash: Hash, s: State) {
    Serial(s.log) && AuthorsOk(s) && CallsOk(hash, s) && SecretsDistinct(s)
  }

  /** Appending to the log disturbs nothing a call has read or written. */
  lemma CallOkExtends(hash: Hash, s: State, t: State, c: nat, call: Call)
    requires CallOk(hash, s, c, call)
    requires s.log <= t.log && s.authors <= t.authors && s.minted <= t.minted
    requires |s.authors| == |s.log| && |t.authors| == |t.log|
    ensures CallOk(hash, t, c, call)
  {
    if call.Committed? {
      assert t.log[..call.index] == s.log[..call.index];
    }
  }

  lemma SecretsAreMinted(hash: Hash, s: State, c: nat)
    requires CallsOk(hash, s) && c in s.calls && SecretHeld(s.calls[c]).Some?
    ensures SecretHeld(s.calls[c]).value in s.minted
  {
    assert CallOk(hash, s, c, s.calls[c]);
  }

  /** A call that begins, holding either nothing or a secret nobody has minted. */
  lemma BeginCallKeepsInv(hash: Hash, s: State, c: nat, call: Call, minted: set<string>)
    requires Inv(hash, s) && c !in s.calls && !call.Committed? && s.minted <= minted
    requires CallOk(hash, s.(minted := minted), c, call)
    requires SecretHeld(call).Some? ==> SecretHeld(call).value !in s.minted
    ensures Inv(hash, s.(calls := s.calls[c := call], minted := minted))
  {
    NewCallKeepsCalls(hash, s, c, call, minted);
    NewSecretIsDistinct(hash, s, c, call);
  }

  lemma NewCallKeepsCalls(hash: Hash, s: State, c: nat, call: Call, minted: set<string>)
    requires CallsOk(hash, s) && |s.authors| == |s.log| && s.minted <= minted
    requires CallOk(hash, s.(minted := minted), c, call)
    ensures CallsOk(hash, s.(calls := s.calls[c := call], minted := minted))
  {
    var t := s.(calls := s.calls[c := call], minted := minted);
    forall d | d in t.calls ensures CallOk(hash, t, d, t.calls[d]) {
      if d == c {
        CallOkExtends(hash, s.(minted := minted), t, c, call);
      } else {
        CallOkExtends(hash, s, t, d, s.calls[d]);
      }
    }
  }

  lemma NewSecretIsDistinct(hash: Hash, s: State, c: nat, call: Call)
    requires CallsOk(hash, s) && SecretsDistinct(s) && c !in s.calls
    requires SecretHeld(call).Some? ==> SecretHeld(call).value !in s.minted
    ensures SecretsDistinct(s.(calls := s.calls[c := call]))
  {
    var t := s.(calls := s.calls[c := call]);
    forall x, y | x in t.calls && y in t.calls && x != y && SecretHeld(t.calls[x]).Some?
      ensures SecretHeld(t.calls[x]) != SecretHeld(t.calls[y])
    {
      if y == c {
        SecretsAreMinted(hash, s, x);
      } else if x == c && SecretHeld(t.calls[y]).Some? {
        SecretsAreMinted(hash, s, y);
      }
    }
  }

  lemma RotationIsOk(hash: Hash, log: Log, id: string, secret: string, now: Instant)
    requires Current(log, id).Some? && Current(log, id).value.revokedAt.None?
    ensures var draft := Rotated(Current(log, id).value, DigestOf(hash, secret), now);
      DraftOk(log, LastIndex(log, id), draft, Some(secret)) && draft.secretSHA256 == DigestOf(hash, secret)
  {
    DigestOfDecodes(hash, secret);
  }

  lemma RevokingIsOk(log: Log, id: string, now: Instant, reason: string)
    requires Current(log, id).Some? && Current(log, id).value.revokedAt.None?
    ensures DraftOk(log, LastIndex(log, id), Revoked(Current(log, id).value, now, reason), None)
  {
  }

  lemma CreationIsOk(hash: Hash, log: Log, input: CreateInput, secret: string, now: Instant)
    requires ValidID(input.id)
    ensures var draft := Created(input, DigestOf(hash, secret), now);
      DraftOk(log, None, draft, Some(secret)) && draft.secretSHA256 == DigestOf(hash, secret)
  {
    DigestOfDecodes(hash, secret);
  }

  /** A call that has just begun is closed, or holds a legitimate draft and a secret of its own. */
  lemma BegunIsOk(hash: Hash, s: State, e: Event)
    requires !e.Write? && Apply(hash, s, e) != s
    ensures var t := Apply(hash, s, e);
      && e.call !in s.calls && e.call in t.calls && !t.calls[e.call].Committed? && s.minted <= t.minted
      && CallOk(hash, s.(minted := t.minted), e.call, t.calls[e.call])
      && (SecretHeld(t.calls[e.call]).Some? ==> SecretHeld(t.calls[e.call]).value !in s.minted)
  {
    if Apply(hash, s, e).calls[e.call].Drafted? {
      match e
      case BeginCreate(_, input, random, now) => CreationIsOk(hash, s.log, input, SecretOf(random), now);
      case BeginRotate(_, id, random, now) => RotationIsOk(hash, s.log, id, SecretOf(random), now);
      case BeginRevoke(_, id, now, reason) => RevokingIsOk(s.log, id, now, reason);
    }
  }

  lemma BeginKeepsInv(hash: Hash, s: State, e: Event)
    requires Inv(hash, s) && !e.Write?
    ensures Inv(hash, Apply(hash, s, e))
  {
    var t := Apply(hash, s, e);
    if t != s {
      var call := t.calls[e.call];
      BegunIsOk(hash, s, e);
      assert t == s.(calls := s.calls[e.call := call], minted := t.minted);
      BeginCallKeepsInv(hash, s, e.call, call, t.minted);
    }
  }

  lemma WriteIsLegit(hash: Hash, s: State, c: nat)
    requires Inv(hash, s) && c in s.calls && s.calls[c].Drafted?
    requires WriteAllowed(s.log, s.calls[c].draft.id, s.calls[c].base)
    ensures Legit(s.log, EntryFor(s.calls[c].draft))
    ensures LastIndex(s.log, s.calls[c].draft.id) == s.calls[c].base
  {
    var call := s.calls[c];
    assert CallOk(hash, s, c, call);
    if LastIndex(s.log, call.draft.id).Some? {
      SerialIsLive(s.log, call.draft.id);
    }
  }

  /** A call that ends, keeping or dropping its secret. */
  lemma EndKeepsSecretsDistinct(s: State, t: State, c: nat, ended: Call)
    requires SecretsDistinct(s) && c in s.calls && t.calls == s.calls[c := ended]
    requires ended.Closed? || SecretHeld(ended) == SecretHeld(s.calls[c])
    ensures SecretsDistinct(t)
  {
  }

  lemma WriteKeepsInv(hash: Hash, s: State, e: Event)
    requires Inv(hash, s) && e.Write?
    ensures Inv(hash, Apply(hash, s, e))
  {
    var t := Apply(hash, s, e);
    if t != s {
      var call := s.calls[e.call];
      EndKeepsSecretsDistinct(s, t, e.call, t.calls[e.call]);
      if t.calls[e.call].Committed? {
        WriteIsLegit(hash, s, e.call);
        SerialExtends(s.log, EntryFor(call.draft));
      }
      WriteKeepsCalls(hash, s, t, e.call);
    }
  }

  /** A drafted call becomes committed at the end of the log, or closed. */
  predicate Ends(s: State, t: State, c: nat) {
    && c in s.calls && s.calls[c].Drafted? && c in t.calls && t.calls == s.calls[c := t.calls[c]]
    && t.minted == s.minted
    && var call := s.calls[c];
       || (t.calls[c].Closed? && t.log == s.log && t.authors == s.authors)
       || (t.calls[c].Committed? && t.log == s.log + [EntryFor(call.draft)] && t.authors == s.authors + [c]
           && t.calls[c] == Committed(|s.log|, call.base, call.draft, call.secret, t.calls[c].acknowledged))
  }

  lemma WriteKeepsCalls(hash: Hash, s: State, t: State, c: nat)
    requires CallsOk(hash, s) && |s.authors| == |s.log| && Ends(s, t, c)
    requires t.calls[c].Committed? ==> LastIndex(s.log, s.calls[c].draft.id) == s.calls[c].base
    ensures CallsOk(hash, t)
  {
    forall d | d in t.calls ensures CallOk(hash, t, d, t.calls[d]) {
      assert CallOk(hash, s, d, s.calls[d]);
      CallOkExtends(hash, s, t, d, s.calls[d]);
      if d == c && t.calls[c].Committed? {
        assert t.log[..|s.log|] == s.log;
      }
    }
  }

  lemma ApplyKeepsInv(hash: Hash, s: State, e: Event)
    requires Inv(hash, s)
    ensures Inv(hash, Apply(hash, s, e))
  {
    if e.Write? {
      WriteKeepsInv(hash, s, e);
    } else {
      BeginKeepsInv(hash, s, e);
    }
  }

  lemma {:induction false} RunStaysIn(hash: Hash, s: State, events: seq<Event>)
    requires Inv(hash, s)
    ensures Inv(hash, Run(hash, s, events))
    decreases |events|
  {
    if events != [] {
      ApplyKeepsInv(hash, s, events[0]);
      RunStaysIn(hash, Apply(hash, s, events[0]), events[1..]);
    }
  }

  lemma {:induction false} RunConcat(hash: Hash, s: State, first: seq<Event>, rest: seq<Event>)
    ensures Run(hash, s, first + rest) == Run(hash, Run(hash, s, first), rest)
    decreases |first|
  {
    if first == [] {
      assert first + rest == rest;
    } else {
      assert (first + rest)[1..] == first[1..] + rest;
      RunConcat(hash, Apply(hash, s, first[0]), first[1..], rest);
    }
  }

  lemma {:induction false} RunGrows(hash: Hash, s: State, events: seq<Event>)
    ensures var t := Run(hash, s, events); s.log <= t.log && s.authors <= t.authors && s.minted <= t.minted
    decreases |events|
  {
    if events != [] {
      RunGrows(hash, Apply(hash, s, events[0]), events[1..]);
    }
  }

  lemma RunKeepsInv(hash: Hash, s: State, events: seq<Event>)
    requires Inv(hash, s)
    ensures Inv(hash, Run(hash, s, events)) && s.log <= Run(hash, s, events).log
  {
    RunStaysIn(hash, s, events);
    RunGrows(hash, s, events);
  }

  // ---------------------------------------------------------------- theorems over every run

  /** The split read and compare-and-set steps of any number of replicas never write a log an atomic store would not. */
  lemma EveryRunIsSerial(hash: Hash, events: seq<Event>)
    ensures Serial(Run(hash, Initial, events).log)
  {
    RunKeepsInv(hash, Initial, events);
  }

  /**
   * Revocation is permanent: in every run, once an entry revokes an id, that entry is still the id's current
   * record after any further events.
   */
  lemma RevocationIsPermanent(hash: Hash, events: seq<Event>, more: seq<Event>, i: nat)
    requires var log := Run(hash, Initial, events).log;
      i < |log| && RecordOf(log[i]).Some? && RecordOf(log[i]).value.revokedAt.Some?
    ensures var before := Run(hash, Initial, events).log;
      var after := Run(hash, Run(hash, Initial, events), more).log;
      before <= after && Current(after, before[i].key) == RecordOf(before[i])
  {
    var s := Run(hash, Initial, events);
    RunKeepsInv(hash, Initial, events);
    RunKeepsInv(hash, s, more);
    RevokedStaysCurrent(Run(hash, s, more).log, i);
  }

  /**
   * Committed calls form a chain: each replaced exactly the entry it had read, what it wrote stays in the log
   * for ever, and no two commits replaced the same entry.
   */
  lemma CommitsFormAChain(hash: Hash, events: seq<Event>, more: seq<Event>, c: nat, d: nat)
    requires var s := Run(hash, Initial, events); c in s.calls && s.calls[c].Committed?
    requires var s := Run(hash, Initial, events); d in s.calls && s.calls[d].Committed? && c != d
    ensures var s := Run(hash, Initial, events);
      var later := Run(hash, s, more).log;
      && s.calls[c].index < |later| && later[s.calls[c].index] == EntryFor(s.calls[c].draft)
      && LastIndex(later[..s.calls[c].index], s.calls[c].draft.id) == s.calls[c].base
      && s.calls[c].index != s.calls[d].index
      && (s.calls[c].draft.id == s.calls[d].draft.id ==> s.calls[c].base != s.calls[d].base)
  {
    var s := Run(hash, Initial, events);
    RunKeepsInv(hash, Initial, events);
    RunKeepsInv(hash, s, more);
    var later := Run(hash, s, more).log;
    var a, b := s.calls[c], s.calls[d];
    assert CallOk(hash, s, c, a) && CallOk(hash, s, d, b);
    assert later[..a.index] == s.log[..a.index];
    if a.index < b.index {
      LaterCommitReadLater(s.log, a, b);
    } else if b.index < a.index {
      LaterCommitReadLater(s.log, b, a);
    }
  }

  /** Of two commits to one key, the later one had read the earlier one's entry or a newer one. */
  lemma LaterCommitReadLater(log: Log, a: Call, b: Call)
    requires a.Committed? && b.Committed? && a.index < b.index < |log|
    requires log[a.index] == EntryFor(a.draft) && LastIndex(log[..a.index], a.draft.id) == a.base
    requires LastIndex(log[..b.index], b.draft.id) == b.base
    ensures a.draft.id == b.draft.id ==> a.base != b.base
  {
    if a.draft.id == b.draft.id {
      assert log[..b.index][a.index].key == b.draft.id;
    }
  }

  // ---------------------------------------------------------------- what one call writes

  /** No event of the list is the call's write. */
  predicate LeavesAlone(events: seq<Event>, c: nat) {
    forall i | 0 <= i < |events| :: !(events[i].Write? && events[i].call == c)
  }

  lemma {:induction false} OthersLeaveCall(hash: Hash, s: State, events: seq<Event>, c: nat)
    requires c in s.calls && LeavesAlone(events, c)
    ensures c in Run(hash, s, events).calls && Run(hash, s, events).calls[c] == s.calls[c]
    decreases |events|
  {
    if events != [] {
      OthersLeaveCall(hash, Apply(hash, s, events[0]), events[1..], c);
    }
  }

  /** The state when a call begun at s comes to its write, whatever other calls did meanwhile. */
  function AtWrite(hash: Hash, s: State, begin: Event, between: seq<Event>): State {
    Run(hash, Apply(hash, s, begin), between)
  }

  ghost predicate Writes(s: State, t: State, c: nat, draft: Record) {
    t.log == s.log + [EntryFor(draft)] && t.authors == s.authors + [c]
  }

  /**
   * A Create begun at any state of any run writes if and only if its id is valid, the bucket takes the write and no
   * live entry of the id exists by then. What it writes is what was asked for, with the secret's digest.
   */
  lemma CreateWritesIff(
      hash: Hash, s: State, c: nat, input: CreateInput, random: Random, now: Instant, between: seq<Event>, reply: Reply)
    requires c !in s.calls && SecretOf(random) !in s.minted && LeavesAlone(between, c)
    ensures var u := AtWrite(hash, s, BeginCreate(c, input, random, now), between);
      var t := Apply(hash, u, Write(c, reply));
      if ValidID(input.id) && !reply.Refused? && !Live(u.log, input.id) then
        exists draft :: Writes(u, t, c, draft) && AsRequested(draft, input, now)
                        && Matches(hash, draft, SecretOf(random))
      else t.log == u.log && t.authors == u.authors
  {
    var begun := Apply(hash, s, BeginCreate(c, input, random, now));
    OthersLeaveCall(hash, begun, between, c);
    if ValidID(input.id) {
      var u := Run(hash, begun, between);
      assert u.calls[c].draft == Created(input, DigestOf(hash, SecretOf(random)), now);
      if !reply.Refused? && !Live(u.log, input.id) {
        assert Writes(u, Apply(hash, u, Write(c, reply)), c, u.calls[c].draft);
      }
    }
  }

  /** A call writes at most once: after its attempt, accepted or refused, it never writes again. */
  lemma CallsWriteOnce(hash: Hash, s: State, c: nat, reply: Reply, later: seq<Event>, again: Reply)
    requires c in s.calls
    ensures var t := Run(hash, Apply(hash, s, Write(c, reply)), later);
      Apply(hash, t, Write(c, again)) == t
  {
    FinishedStays(hash, Apply(hash, s, Write(c, reply)), later, c);
  }

  lemma {:induction false} FinishedStays(hash: Hash, s: State, events: seq<Event>, c: nat)
    requires c in s.calls && !s.calls[c].Drafted?
    ensures c in Run(hash, s, events).calls && Run(hash, s, events).calls[c] == s.calls[c]
    decreases |events|
  {
    if events != [] {
      FinishedStays(hash, Apply(hash, s, events[0]), events[1..], c);
    }
  }

  /** Log entry i holds the record that a call wrote with the secret it minted. */
  ghost predicate WroteWith(s: State, c: nat, i: nat, r: Record, secret: string) {
    && i < |s.log| && s.log[i] == EntryFor(r) && secret in s.minted
    && c in s.calls && s.calls[c].Committed? && s.calls[c].index == i && s.calls[c].secret == Some(secret)
  }

  /** A created record and the call that wrote it are there for good. */
  lemma CreateIsRecorded(
      hash: Hash, s: State, c: nat, input: CreateInput, random: Random, now: Instant, between: seq<Event>,
      later: seq<Event>)
    returns (draft: Record)
    requires c !in s.calls && SecretOf(random) !in s.minted && LeavesAlone(between, c) && ValidID(input.id)
    requires !Live(AtWrite(hash, s, BeginCreate(c, input, random, now), between).log, input.id)
    ensures var u := AtWrite(hash, s, BeginCreate(c, input, random, now), between);
      var end := Run(hash, Apply(hash, u, Write(c, Acknowledged)), later);
      AsRequested(draft, input, now) && WroteWith(end, c, |u.log|, draft, SecretOf(random))
  {
    var begun := Apply(hash, s, BeginCreate(c, input, random, now));
    var u := Run(hash, begun, between);
    var t := Apply(hash, u, Write(c, Acknowledged));
    OthersLeaveCall(hash, begun, between, c);
    RunGrows(hash, begun, between);
    CreateWritesIff(hash, s, c, input, random, now, between, Acknowledged);
    draft :| Writes(u, t, c, draft) && AsRequested(draft, input, now) && Matches(hash, draft, SecretOf(random));
    assert WroteWith(t, c, |u.log|, draft, SecretOf(random));
    WroteWithStays(hash, t, later, c, |u.log|, draft, SecretOf(random));
  }

  lemma WroteWithStays(hash: Hash, s: State, events: seq<Event>, c: nat, i: nat, r: Record, secret: string)
    requires WroteWith(s, c, i, r, secret)
    ensures WroteWith(Run(hash, s, events), c, i, r, secret)
  {
    RunGrows(hash, s, events);
    FinishedStays(hash, s, events, c);
  }

  /** A Rotate writes iff the id was active at its read and got no entry since, and then only a new digest. */
  lemma RotateWritesIff(
      hash: Hash, s: State, c: nat, id: string, random: Random, now: Instant, between: seq<Event>, reply: Reply)
    requires c !in s.calls && SecretOf(random) !in s.minted && LeavesAlone(between, c)
    ensures var u := AtWrite(hash, s, BeginRotate(c, id, random, now), between);
      var t := Apply(hash, u, Write(c, reply));
      if IsActive(s.log, id) && !reply.Refused? && LastIndex(u.log, id) == LastIndex(s.log, id) then
        exists draft :: Writes(u, t, c, draft)
                        && RotationOf(Current(s.log, id).value, draft) && draft.rotatedAt == Some(now)
                        && Matches(hash, draft, SecretOf(random))
      else t.log == u.log && t.authors == u.authors
  {
    var begun := Apply(hash, s, BeginRotate(c, id, random, now));
    OthersLeaveCall(hash, begun, between, c);
    if IsActive(s.log, id) {
      var u := Run(hash, begun, between);
      assert u.calls[c].draft == Rotated(Current(s.log, id).value, DigestOf(hash, SecretOf(random)), now);
      if !reply.Refused? && LastIndex(u.log, id) == LastIndex(s.log, id) {
        assert Writes(u, Apply(hash, u, Write(c, reply)), c, u.calls[c].draft);
      }
    }
  }

  /** A Revoke writes under the same condition, and then the revocation alone. */
  lemma RevokeWritesIff(
      hash: Hash, s: State, c: nat, id: string, now: Instant, reason: string, between: seq<Event>, reply: Reply)
    requires c !in s.calls && LeavesAlone(between, c)
    ensures var u := AtWrite(hash, s, BeginRevoke(c, id, now, reason), between);
      var t := Apply(hash, u, Write(c, reply));
      if IsActive(s.log, id) && !reply.Refused? && LastIndex(u.log, id) == LastIndex(s.log, id) then
        exists draft :: Writes(u, t, c, draft)
                        && RevocationOf(Current(s.log, id).value, draft)
                        && draft.revokedAt == Some(now) && draft.revocationReason == TrimSpace(reason)
      else t.log == u.log && t.authors == u.authors
  {
    var begun := Apply(hash, s, BeginRevoke(c, id, now, reason));
    OthersLeaveCall(hash, begun, between, c);
    if IsActive(s.log, id) {
      var u := Run(hash, begun, between);
      assert u.calls[c].draft == Revoked(Current(s.log, id).value, now, reason);
      if !reply.Refused? && LastIndex(u.log, id) == LastIndex(s.log, id) {
        assert Writes(u, Apply(hash, u, Write(c, reply)), c, u.calls[c].draft);
      }
    }
  }

  // ---------------------------------------------------------------- secrets

  ghost predicate InjectiveOn(hash: Hash, secrets: set<string>) {
    forall x, y | x in secrets && y in secrets && hash(x) == hash(y) :: x == y
  }

  /** A minted secret matches a record when the record holds its digest. */
  predicate Matches(hash: Hash, r: Record, secret: string) {
    r.secretSHA256 == DigestOf(hash, secret)
  }

  lemma DigestDetermines(hash: Hash, x: string, y: string)
    requires DigestOf(hash, x) == DigestOf(hash, y)
    ensures hash(x) == hash(y)
  {
    DigestOfDecodes(hash, x);
    DigestOfDecodes(hash, y);
  }

  /**
   * At an entry written by a Create or Rotate, of all secrets ever minted by any call (committed, failed or
   * still in flight) exactly the author's own matches the record, and no other call holds it. An entry
   * written by a Revoke is revoked, so there no secret is usable; it matches what the record it replaced did.
   */
  lemma OnlyTheAuthorsSecretMatches(hash: Hash, events: seq<Event>, i: nat, secret: string)
    requires var s := Run(hash, Initial, events);
      i < |s.log| && secret in s.minted && InjectiveOn(hash, s.minted)
    ensures var s := Run(hash, Initial, events);
      && RecordOf(s.log[i]).Some? && i < |s.authors| && s.authors[i] in s.calls && s.calls[s.authors[i]].Committed?
      && var author := s.calls[s.authors[i]];
         && author.index == i && s.log[i] == EntryFor(author.draft)
         && (author.secret.None? ==>
               && RecordOf(s.log[i]).value.revokedAt.Some?
               && author.base.Some? && author.base.value < |s.log| && RecordOf(s.log[author.base.value]).Some?
               && RecordOf(s.log[author.base.value]).value.revokedAt.None?
               && (Matches(hash, RecordOf(s.log[i]).value, secret)
                   <==> Matches(hash, RecordOf(s.log[author.base.value]).value, secret)))
         && (author.secret.Some? ==>
               && Matches(hash, RecordOf(s.log[i]).value, author.secret.value)
               && (Matches(hash, RecordOf(s.log[i]).value, secret) <==> author.secret == Some(secret))
               && forall d | d in s.calls && SecretHeld(s.calls[d]) == author.secret :: d == s.authors[i])
  {
    var s := Run(hash, Initial, events);
    RunKeepsInv(hash, Initial, events);
    var c := s.authors[i];
    assert CallOk(hash, s, c, s.calls[c]);
    if s.calls[c].secret.Some? && Matches(hash, RecordOf(s.log[i]).value, secret) {
      DigestDetermines(hash, s.calls[c].secret.value, secret);
    }
  }

  /** The entry that gave the record at i its digest: i itself, or the entry a Revoke at i replaced. */
  function DigestSource(s: State, i: nat): nat
    requires i < |s.authors| && s.authors[i] in s.calls && s.calls[s.authors[i]].Committed?
  {
    var author := s.calls[s.authors[i]];
    if author.secret.None? && author.base.Some? then author.base.value else i
  }

  /** At every entry whatever, revoked or not, exactly one minted secret matches: that of one issuing call. */
  lemma ExactlyOneSecretMatches(hash: Hash, events: seq<Event>, i: nat, secret: string)
    requires var s := Run(hash, Initial, events);
      i < |s.log| && secret in s.minted && InjectiveOn(hash, s.minted)
    ensures var s := Run(hash, Initial, events);
      && RecordOf(s.log[i]).Some? && i < |s.authors| && s.authors[i] in s.calls && s.calls[s.authors[i]].Committed?
      && var k := DigestSource(s, i);
         && k <= i && s.log[k].key == s.log[i].key && s.authors[k] in s.calls && s.calls[s.authors[k]].Committed?
         && s.calls[s.authors[k]].secret.Some? && s.calls[s.authors[k]].secret.value in s.minted
         && (Matches(hash, RecordOf(s.log[i]).value, secret) <==> s.calls[s.authors[k]].secret == Some(secret))
  {
    var s := Run(hash, Initial, events);
    OnlyTheAuthorsSecretMatches(hash, events, i, secret);
    AuthorsReadEarlier(hash, events, i);
    OnlyTheAuthorsSecretMatches(hash, events, DigestSource(s, i), secret);
    RunKeepsInv(hash, Initial, events);
    SecretsAreMinted(hash, s, s.authors[DigestSource(s, i)]);
  }

  lemma AuthorsReadEarlier(hash: Hash, events: seq<Event>, i: nat)
    requires i < |Run(hash, Initial, events).log|
    ensures var s := Run(hash, Initial, events);
      && i < |s.authors| && s.authors[i] in s.calls && s.calls[s.authors[i]].Committed?
      && var base := s.calls[s.authors[i]].base;
         base.Some? ==> base.value < i && s.log[base.value].key == s.log[i].key
  {
    var s := Run(hash, Initial, events);
    RunKeepsInv(hash, Initial, events);
    var c := s.authors[i];
    assert CallOk(hash, s, c, s.calls[c]);
    assert LastIndex(s.log[..i], s.calls[c].draft.id) == s.calls[c].base;
  }
}
