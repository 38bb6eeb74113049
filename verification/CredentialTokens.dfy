/** The tokens the store hands out, as the verifier of an up-to-date replica answers them. */
module CredentialTokens {
  import opened Common
  import opened KeyRecords
  import opened CredentialLog
  import opened CredentialProtocol
  import opened Verifier
  import Replicas
  import DrainedWatch

  /**
   * In every run of the store, on a verifier that holds an id's current record: of all tokens for that id made
   * from any secret ever minted by any call, the one issued by the call that wrote the current record, and no
   * other, authenticates while the record is active; once the record is revoked none does.
   */
  lemma OnlyTheLatestTokenWorks(
    hash: Hash, events: seq<Event>, id: string, random: Random, fixed: Fixed, managed: Managed, now: Instant)
    requires var s := Run(hash, Initial, events);
      LastIndex(s.log, id).Some? && SecretOf(random) in s.minted && InjectiveOn(hash, s.minted)
    requires var s := Run(hash, Initial, events);
      Current(s.log, id).Some? && id in managed && managed[id] == CredentialFor(Current(s.log, id).value)
    ensures var s := Run(hash, Initial, events);
      var i := LastIndex(s.log, id).value;
      i < |s.authors| && s.authors[i] in s.calls && s.calls[s.authors[i]].Committed?
    ensures var s := Run(hash, Initial, events);
      var r := Current(s.log, id).value;
      var author := s.calls[s.authors[LastIndex(s.log, id).value]];
      Authorize(hash, fixed, managed, PREFIX + Token(id, SecretOf(random)), now) == Some(id)
      <==> (author.secret == Some(SecretOf(random)) && InForce(r.revokedAt, r.expiresAt, now))
  {
    var s := Run(hash, Initial, events);
    var i := LastIndex(s.log, id).value;
    OnlyTheAuthorsSecretMatches(hash, events, i, SecretOf(random));
    TokenAnswer(hash, fixed, managed, RecordOf(s.log[i]).value, random, now, s.calls[s.authors[i]].secret);
  }

  /**
   * On a drained, healthy replica, whatever its watch and its admin refreshes went through: exactly the token of
   * the latest commit of an id authenticates, while the record is active, and none once it is revoked.
   */
  lemma ReplicaAcceptsOnlyTheLatestToken(
    hash: Hash, events: seq<Event>, fixed: Fixed, log: Log, turns: seq<Replicas.Event>, id: string, random: Random,
    now: Instant)
    requires var s := Run(hash, Initial, events);
      LastIndex(s.log, id).Some? && SecretOf(random) in s.minted && InjectiveOn(hash, s.minted)
    requires var replica := Replicas.Run(fixed, Replicas.Start(log), turns);
      DrainedWatch.UpToDate(replica) && replica.log == Run(hash, Initial, events).log
    ensures var s := Run(hash, Initial, events);
      var i := LastIndex(s.log, id).value;
      && Current(s.log, id).Some? && i < |s.authors| && s.authors[i] in s.calls && s.calls[s.authors[i]].Committed?
      && var r, author := Current(s.log, id).value, s.calls[s.authors[i]];
         var managed := Replicas.Run(fixed, Replicas.Start(log), turns).sync.managed;
         Authorize(hash, fixed, managed, PREFIX + Token(id, SecretOf(random)), now) == Some(id)
         <==> (author.secret == Some(SecretOf(random)) && InForce(r.revokedAt, r.expiresAt, now))
  {
    var s := Run(hash, Initial, events);
    EveryRunIsSerial(hash, events);
    SerialIsLive(s.log, id);
    DrainedWatch.DrainedVerifierEqualsSerialStore(fixed, log, turns, id);
    var managed := Replicas.Run(fixed, Replicas.Start(log), turns).sync.managed;
    OnlyTheLatestTokenWorks(hash, events, id, random, fixed, managed, now);
  }

  /** A whole run: a Create begun after `events`, its write after `between`, and whatever follows. */
  function Story(events: seq<Event>, begin: Event, between: seq<Event>, write: Event, later: seq<Event>): seq<Event> {
    events + ([begin] + (between + ([write] + later)))
  }

  lemma StoryRuns(
      hash: Hash, events: seq<Event>, begin: Event, between: seq<Event>, write: Event, later: seq<Event>)
    ensures var u := AtWrite(hash, Run(hash, Initial, events), begin, between);
      Run(hash, Initial, Story(events, begin, between, write, later)) == Run(hash, Apply(hash, u, write), later)
  {
    var s := Run(hash, Initial, events);
    RunConcat(hash, Initial, events, [begin] + (between + ([write] + later)));
    RunConcat(hash, Apply(hash, s, begin), between, [write] + later);
    assert ([begin] + (between + ([write] + later)))[1..] == between + ([write] + later);
    assert ([write] + later)[1..] == later;
  }

  /**
   * From a Create to the answer of a drained, healthy replica: the token handed out for the key authenticates at a
   * time if and only if that time is before the expiry asked for, if any was, and nobody has rotated or revoked
   * the key since.
   */
  lemma CreatedTokenWorksUntilExpiry(
      hash: Hash, events: seq<Event>, c: nat, input: CreateInput, random: Random, now: Instant, between: seq<Event>,
      later: seq<Event>, fixed: Fixed, log: Log, turns: seq<Replicas.Event>, at: Instant)
    requires var s := Run(hash, Initial, events);
      c !in s.calls && SecretOf(random) !in s.minted && LeavesAlone(between, c)
    requires var u := AtWrite(hash, Run(hash, Initial, events), BeginCreate(c, input, random, now), between);
      ValidID(input.id) && !Live(u.log, input.id)
    requires var u := AtWrite(hash, Run(hash, Initial, events), BeginCreate(c, input, random, now), between);
      var end := Run(hash, Apply(hash, u, Write(c, Acknowledged)), later);
      && InjectiveOn(hash, end.minted)
      && DrainedWatch.UpToDate(Replicas.Run(fixed, Replicas.Start(log), turns))
      && Replicas.Run(fixed, Replicas.Start(log), turns).log == end.log
    ensures var u := AtWrite(hash, Run(hash, Initial, events), BeginCreate(c, input, random, now), between);
      var end := Run(hash, Apply(hash, u, Write(c, Acknowledged)), later);
      var managed := Replicas.Run(fixed, Replicas.Start(log), turns).sync.managed;
      Authorize(hash, fixed, managed, PREFIX + Token(input.id, SecretOf(random)), at) == Some(input.id)
      <==> (LastIndex(end.log, input.id) == Some(|u.log|) && (input.expiresAt.Some? ==> at < input.expiresAt.value))
  {
    var begin, write := BeginCreate(c, input, random, now), Write(c, Acknowledged);
    var u := AtWrite(hash, Run(hash, Initial, events), begin, between);
    var all := Story(events, begin, between, write, later);
    StoryRuns(hash, events, begin, between, write, later);
    var draft := CreateIsRecorded(hash, Run(hash, Initial, events), c, input, random, now, between, later);
    IssuedTokenAnswer(hash, all, c, |u.log|, draft, fixed, log, turns, random, at);
  }

  /** The token of an issuing call: good while its entry is the id's newest and the record is in force. */
  lemma IssuedTokenAnswer(
      hash: Hash, events: seq<Event>, c: nat, i: nat, r: Record, fixed: Fixed, log: Log,
      turns: seq<Replicas.Event>, random: Random, at: Instant)
    requires var s := Run(hash, Initial, events);
      WroteWith(s, c, i, r, SecretOf(random)) && InjectiveOn(hash, s.minted)
    requires var replica := Replicas.Run(fixed, Replicas.Start(log), turns);
      DrainedWatch.UpToDate(replica) && replica.log == Run(hash, Initial, events).log
    ensures var managed := Replicas.Run(fixed, Replicas.Start(log), turns).sync.managed;
      Authorize(hash, fixed, managed, PREFIX + Token(r.id, SecretOf(random)), at) == Some(r.id)
      <==> (LastIndex(Run(hash, Initial, events).log, r.id) == Some(i) && InForce(r.revokedAt, r.expiresAt, at))
  {
    var s := Run(hash, Initial, events);
    RunKeepsInv(hash, Initial, events);
    SerialDecodes(s.log, i);
    assert RecordOf(EntryFor(r)) == Some(r);
    assert s.log[i].key == r.id;
    ReplicaAcceptsOnlyTheLatestToken(hash, events, fixed, log, turns, r.id, random, at);
    var newest := LastIndex(s.log, r.id).value;
    if newest == i {
      assert CallOk(hash, s, c, s.calls[c]);
    } else {
      assert s.authors[newest] != c;
    }
  }

  /** The same for one record and the secret, if any, that its author minted. */
  lemma TokenAnswer(
    hash: Hash, fixed: Fixed, managed: Managed, r: Record, random: Random, now: Instant, minted: Option<string>)
    requires ValidID(r.id) && DigestShape(r.secretSHA256) && r.id in managed && managed[r.id] == CredentialFor(r)
    requires minted.None? ==> r.revokedAt.Some?
    requires minted.Some? ==>
      Matches(hash, r, minted.value) && (Matches(hash, r, SecretOf(random)) <==> minted == Some(SecretOf(random)))
    ensures Authorize(hash, fixed, managed, PREFIX + Token(r.id, SecretOf(random)), now) == Some(r.id)
            <==> (minted == Some(SecretOf(random)) && InForce(r.revokedAt, r.expiresAt, now))
  {
    var secret := SecretOf(random);
    TokenRoundTrip(hash, fixed, managed, r, random, now, "", "");
    assert PREFIX + "" + Token(r.id, secret) + "" == PREFIX + Token(r.id, secret);
    DigestBytesMatch(hash, r, secret);
  }

  /** Comparing digest bytes and comparing stored digests is the same for digests the store prints. */
  lemma DigestBytesMatch(hash: Hash, r: Record, secret: string)
    requires DigestShape(r.secretSHA256)
    ensures Matches(hash, r, secret) ==> DigestBytes(r.secretSHA256) == hash(secret)
    ensures DigestBytes(r.secretSHA256) == hash(secret) && (exists other :: Matches(hash, r, other)) ==>
              Matches(hash, r, secret)
  {
    DigestOfDecodes(hash, secret);
    if other :| Matches(hash, r, other) {
      DigestOfDecodes(hash, other);
    }
  }
}
