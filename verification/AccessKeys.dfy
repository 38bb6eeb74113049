/**
 * The signing-key cache of internal/accessauth/access.go with any number of Verify calls in flight, each broken into
 * the steps between which other calls may run: the look into the cache, the answer of the key endpoint, the store
 * under the write lock, the second look, the signature check.
 */
module AccessKeys {
  import opened Common
  import opened Encoding
  import CacheControl

  const SECOND := 1_000_000_000
  const SIX_HOURS := 6 * 60 * 60 * SECOND

  /** time.Time's zero value. */
  const ZERO_TIME: Instant := -62_135_596_800 * SECOND

  // ---------------------------------------------------------------- published keys

  datatype PublicKey = PublicKey(modulus: nat, exponent: nat)

  type KeySet = map<string, PublicKey>

  datatype Jwk = Jwk(kid: string, kty: string, alg: string, n: string, e: string)

  type Base64 = string -> Option<Bytes>

  function BigEndian(bytes: Bytes): nat {
    if bytes == [] then 0 else BigEndian(bytes[..|bytes| - 1]) * 256 + bytes[|bytes| - 1]
  }

  lemma {:induction false} BigEndianFits(bytes: Bytes)
    requires |bytes| <= 4
    ensures BigEndian(bytes) < [1, 0x100, 0x1_0000, 0x100_0000, 0x1_0000_0000][|bytes|]
  {
    if bytes != [] {
      BigEndianFits(bytes[..|bytes| - 1]);
    }
  }

  function RsaKey(base64: Base64, n: string, e: string): (r: Option<PublicKey>)
    ensures r.Some? ==> 3 <= r.value.exponent < 0x1_0000_0000
  {
    var nBytes, eBytes := base64(n), base64(e);
    if nBytes.None? || nBytes.value == [] || eBytes.None? || eBytes.value == [] || |eBytes.value| > 4 then None
    else
      BigEndianFits(eBytes.value);
      if BigEndian(eBytes.value) < 3 then None else Some(PublicKey(BigEndian(nBytes.value), BigEndian(eBytes.value)))
  }

  method ParseRsaKey(base64: Base64, n: string, e: string) returns (r: Option<PublicKey>)
    ensures r == RsaKey(base64, n, e)
  {
    var nBytes := base64(n);
    if nBytes.None? || nBytes.value == [] {
      return None;
    }
    var eBytes := base64(e);
    if eBytes.None? || eBytes.value == [] || |eBytes.value| > 4 {
      return None;
    }
    var exponent: nat := 0;
    var i := 0;
    while i < |eBytes.value|
      invariant 0 <= i <= |eBytes.value|
      invariant exponent == BigEndian(eBytes.value[..i])
    {
      assert eBytes.value[..i + 1][..i] == eBytes.value[..i];
      exponent := exponent * 256 + eBytes.value[i];
      i := i + 1;
    }
    assert eBytes.value[..i] == eBytes.value;
    if exponent < 3 {
      return None;
    }
    return Some(PublicKey(BigEndian(nBytes.value), exponent));
  }

  /** The key an entry of a key set publishes, if the verifier can use it. */
  function Published(base64: Base64, jwk: Jwk): Option<PublicKey> {
    if jwk.kid == "" || jwk.kty != "RSA" || (jwk.alg != "" && jwk.alg != "RS256") || jwk.n == "" || jwk.e == ""
    then None
    else RsaKey(base64, jwk.n, jwk.e)
  }

  function KeySetOf(base64: Base64, document: seq<Jwk>): KeySet {
    if document == [] then map[]
    else
      var earlier := KeySetOf(base64, document[..|document| - 1]);
      var last := document[|document| - 1];
      if Published(base64, last).Some? then earlier[last.kid := Published(base64, last).value] else earlier
  }

  /** Entry i is usable and carries the kid. */
  predicate Carries(base64: Base64, document: seq<Jwk>, kid: string, i: nat) {
    i < |document| && document[i].kid == kid && Published(base64, document[i]).Some?
  }

  predicate CarriesLast(base64: Base64, document: seq<Jwk>, kid: string, i: nat) {
    Carries(base64, document, kid, i) && forall j | i < j < |document| :: !Carries(base64, document, kid, j)
  }

  /** A kid stands for the key of the last usable entry that carries it, and for none if no usable entry does. */
  lemma {:induction false} LastUsableEntryWins(base64: Base64, document: seq<Jwk>, kid: string)
    ensures kid in KeySetOf(base64, document) <==> exists i: nat :: CarriesLast(base64, document, kid, i)
    ensures forall i: nat | CarriesLast(base64, document, kid, i) ::
              && kid in KeySetOf(base64, document)
              && KeySetOf(base64, document)[kid] == Published(base64, document[i]).value
    ensures (exists i: nat :: Carries(base64, document, kid, i)) ==> kid in KeySetOf(base64, document)
  {
    if document != [] {
      var n: nat := |document| - 1;
      var earlier := document[..n];
      LastUsableEntryWins(base64, earlier, kid);
      if Carries(base64, document, kid, n) {
        assert CarriesLast(base64, document, kid, n);
      } else {
        forall i: nat
          ensures Carries(base64, document, kid, i) <==> Carries(base64, earlier, kid, i)
        {
        }
        forall i: nat
          ensures CarriesLast(base64, document, kid, i) <==> CarriesLast(base64, earlier, kid, i)
        {
        }
      }
    }
  }

  method BuildKeySet(base64: Base64, document: seq<Jwk>) returns (keys: KeySet)
    ensures keys == KeySetOf(base64, document)
  {
    keys := map[];
    var i := 0;
    while i < |document|
      invariant 0 <= i <= |document|
      invariant keys == KeySetOf(base64, document[..i])
    {
      var jwk := document[i];
      assert document[..i + 1][..i] == document[..i];
      if jwk.kid == "" || jwk.kty != "RSA" || (jwk.alg != "" && jwk.alg != "RS256") || jwk.n == "" || jwk.e == "" {
        i := i + 1;
        continue;
      }
      var key := ParseRsaKey(base64, jwk.n, jwk.e);
      if key.Some? {
        keys := keys[jwk.kid := key.value];
      }
      i := i + 1;
    }
    assert document[..i] == document;
  }

  // ---------------------------------------------------------------- calls

  /** Base64url decoding and the signature check (section 3.3 of RFC 7518) are opaque. */
  datatype Crypto = Crypto(base64: Base64, check: (PublicKey, string, Bytes) -> bool)

  /** What a token asks of the cache; `sig` is None when the signature part does not decode. */
  datatype Request = Request(kid: string, signed: string, sig: Option<Bytes>)

  predicate Signed(x: Crypto, key: PublicKey, q: Request) {
    q.sig.Some? && x.check(key, q.signed, q.sig.value)
  }

  /** One answer of the key endpoint; `document` is None when the body cannot be read or decoded. */
  datatype Reply = Unreachable | Served(status: int, cacheControl: string, document: Option<seq<Jwk>>)

  predicate Usable(x: Crypto, r: Reply) {
    r.Served? && r.status == 200 && r.document.Some? && KeySetOf(x.base64, r.document.value) != map[]
  }

  /** Why a call went to the endpoint. */
  datatype Purpose = OnMiss | OnMissAgain | OnBadSignature

  datatype Phase =
    | Looking
    | Fetching(why: Purpose)
    | Storing(why: Purpose, document: seq<Jwk>, ttl: nat)
    | Rereading(why: Purpose)
    | Checking(key: PublicKey, chosenAt: Instant, last: bool)
    | Accepted(key: PublicKey, chosenAt: Instant)
    | Rejected

  datatype Call = Call(q: Request, begunAt: Instant, phase: Phase)

  datatype Stored = Stored(at: Instant, document: seq<Jwk>)

  /** `log` lists the key sets ever stored; `served` the documents the endpoint ever answered with. */
  datatype State = State(
    keys: KeySet, until: Instant, now: Instant, calls: map<nat, Call>, log: seq<Stored>, served: seq<seq<Jwk>>)

  function Start(now: Instant): State {
    State(map[], ZERO_TIME, now, map[], [], [])
  }

  datatype Event =
    | Tick(now: Instant)
    | Begin(id: nat, q: Request)
    | Look(id: nat)
    | Receive(id: nat, reply: Reply)
    | Store(id: nat)
    | Reread(id: nat)
    | Check(id: nat)

  /** Without a key the first failure is retried once; any other rejects. */
  function AfterFailure(why: Purpose): Phase {
    if why == OnMiss then Fetching(OnMissAgain) else Rejected
  }

  function Move(s: State, id: nat, phase: Phase): State
    requires id in s.calls
  {
    s.(calls := s.calls[id := s.calls[id].(phase := phase)])
  }

  /** The new phase of a call that takes a step of its own. */
  function NextPhase(x: Crypto, s: State, c: Call, e: Event): Phase {
    match c.phase
    case Looking =>
      if !e.Look? then c.phase
      else if c.q.kid in s.keys && s.now < s.until then Checking(s.keys[c.q.kid], s.now, false)
      else Fetching(OnMiss)
    case Fetching(why) =>
      if !e.Receive? then c.phase
      else if Usable(x, e.reply) then
        Storing(why, e.reply.document.value, CacheControl.Lifetime(e.reply.cacheControl))
      else AfterFailure(why)
    case Storing(why, _, _) => if e.Store? then Rereading(why) else c.phase
    case Rereading(why) =>
      if !e.Reread? then c.phase
      else if c.q.kid in s.keys then Checking(s.keys[c.q.kid], s.now, why == OnBadSignature)
      else AfterFailure(why)
    case Checking(key, at, last) =>
      if !e.Check? then c.phase
      else if Signed(x, key, c.q) then Accepted(key, at)
      else if c.q.sig.None? || last then Rejected
      else Fetching(OnBadSignature)
    case Accepted(_, _) => c.phase
    case Rejected => c.phase
  }

  function Apply(x: Crypto, s: State, e: Event): State {
    match e
    case Tick(now) => if now < s.now then s else s.(now := now)
    case Begin(id, q) => if id in s.calls then s else s.(calls := s.calls[id := Call(q, s.now, Looking)])
    case Receive(id, reply) =>
      if id !in s.calls || !s.calls[id].phase.Fetching? then s
      else if !Usable(x, reply) then Move(s, id, NextPhase(x, s, s.calls[id], e))
      else Move(s, id, NextPhase(x, s, s.calls[id], e)).(served := s.served + [reply.document.value])
    case Store(id) =>
      if id !in s.calls || !s.calls[id].phase.Storing? then s
      else
        var p := s.calls[id].phase;
        Move(s, id, NextPhase(x, s, s.calls[id], e)).(
          keys := KeySetOf(x.base64, p.document), until := s.now + p.ttl * SECOND,
          log := s.log + [Stored(s.now, p.document)])
    case _ => if e.id !in s.calls then s else Move(s, e.id, NextPhase(x, s, s.calls[e.id], e))
  }

  function Run(x: Crypto, s: State, events: seq<Event>): State {
    if events == [] then s else Apply(x, Run(x, s, events[..|events| - 1]), events[|events| - 1])
  }

  lemma {:induction false} RunConcat(x: Crypto, s: State, first: seq<Event>, second: seq<Event>)
    ensures Run(x, s, first + second) == Run(x, Run(x, s, first), second)
  {
    if second == [] {
      assert first + second == first;
    } else {
      assert (first + second)[..|first + second| - 1] == first + second[..|second| - 1];
      RunConcat(x, s, first, second[..|second| - 1]);
    }
  }

  // ---------------------------------------------------------------- safety

  /** Entry i of the log published the key for the kid, and was recent when the key was chosen. */
  ghost predicate BackedBy(x: Crypto, s: State, c: Call, key: PublicKey, chosenAt: Instant, i: nat) {
    && i < |s.log| && s.log[i].document in s.served
    && c.q.kid in KeySetOf(x.base64, s.log[i].document) && KeySetOf(x.base64, s.log[i].document)[c.q.kid] == key
    && s.log[i].at <= chosenAt <= s.now
    && (chosenAt < s.log[i].at + 21_600 * SECOND || c.begunAt <= s.log[i].at)
  }

  ghost predicate Backed(x: Crypto, s: State, c: Call, key: PublicKey, chosenAt: Instant) {
    exists i: nat :: BackedBy(x, s, c, key, chosenAt, i)
  }

  ghost predicate CacheOk(x: Crypto, s: State) {
    && (s.log == [] ==> s.keys == map[])
    && (s.log != [] ==>
          var last := s.log[|s.log| - 1];
          s.keys == KeySetOf(x.base64, last.document) && s.until <= last.at + SIX_HOURS)
    && forall i | 0 <= i < |s.log| :: s.log[i].at <= s.now && s.log[i].document in s.served
  }

  ghost predicate CallOk(x: Crypto, s: State, c: Call) {
    c.begunAt <= s.now &&
    match c.phase
    case Storing(_, document, ttl) => document in s.served && ttl <= CacheControl.LONGEST
    case Rereading(_) => s.log != [] && c.begunAt <= s.log[|s.log| - 1].at
    case Checking(key, at, _) => Backed(x, s, c, key, at)
    case Accepted(key, at) => Backed(x, s, c, key, at) && Signed(x, key, c.q)
    case _ => true
  }

  ghost predicate Inv(x: Crypto, s: State) {
    CacheOk(x, s) && forall id | id in s.calls :: CallOk(x, s, s.calls[id])
  }

  /** Histories and the clock only grow, and a newly stored set is stored now. */
  ghost predicate Grows(s: State, t: State) {
    && s.now <= t.now && s.log <= t.log && s.served <= t.served
    && (s.log != t.log ==> t.log[|t.log| - 1].at == t.now)
  }

  lemma CallOkSurvives(x: Crypto, s: State, t: State, c: Call)
    requires CacheOk(x, s) && CallOk(x, s, c) && Grows(s, t)
    ensures CallOk(x, t, c)
  {
    ServedSurvives(s, t);
    if c.phase.Checking? || c.phase.Accepted? {
      var i: nat :| BackedBy(x, s, c, c.phase.key, c.phase.chosenAt, i);
      assert t.log[i] == s.log[i];
      assert BackedBy(x, t, c, c.phase.key, c.phase.chosenAt, i);
    }
  }

  lemma ServedSurvives(s: State, t: State)
    requires s.served <= t.served
    ensures forall d | d in s.served :: d in t.served
  {
    forall d | d in s.served ensures d in t.served {
      var i :| 0 <= i < |s.served| && s.served[i] == d;
      assert t.served[i] == d;
    }
  }

  /** A step of a call leaves it in order. */
  lemma OwnStepKeepsCallOk(x: Crypto, s: State, e: Event)
    requires Inv(x, s) && !e.Tick? && !e.Begin? && e.id in s.calls
    ensures CallOk(x, Apply(x, s, e), Apply(x, s, e).calls[e.id])
  {
    var c := s.calls[e.id];
    var t := Apply(x, s, e);
    var moved := t.calls[e.id];
    if t == s {
    } else if e.Receive? {
      if Usable(x, e.reply) {
        assert t.served[|s.served|] == e.reply.document.value;
      }
    } else if e.Store? {
      assert t.log[|s.log|] == Stored(s.now, c.phase.document);
    } else if moved.phase.Checking? && !c.phase.Checking? {
      assert BackedBy(x, t, moved, moved.phase.key, moved.phase.chosenAt, |s.log| - 1);
    } else if c.phase.Checking? {
      var i: nat :| BackedBy(x, s, c, c.phase.key, c.phase.chosenAt, i);
      assert BackedBy(x, t, moved, c.phase.key, c.phase.chosenAt, i);
    }
  }

  lemma ApplyKeepsCache(x: Crypto, s: State, e: Event)
    requires Inv(x, s)
    ensures CacheOk(x, Apply(x, s, e)) && Grows(s, Apply(x, s, e))
  {
    var t := Apply(x, s, e);
    ServedSurvives(s, t);
    if e.Store? && t != s {
      assert s.calls[e.id].phase.document in s.served;
      assert t.log[..|s.log|] == s.log;
    }
  }

  lemma ApplyKeepsInv(x: Crypto, s: State, e: Event)
    requires Inv(x, s)
    ensures Inv(x, Apply(x, s, e))
  {
    var t := Apply(x, s, e);
    ApplyKeepsCache(x, s, e);
    forall id | id in t.calls ensures CallOk(x, t, t.calls[id]) {
      if id in s.calls && t.calls[id] == s.calls[id] {
        CallOkSurvives(x, s, t, s.calls[id]);
      } else if id in s.calls {
        OwnStepKeepsCallOk(x, s, e);
      }
    }
  }

  lemma {:induction false} RunKeepsInv(x: Crypto, s: State, events: seq<Event>)
    requires Inv(x, s)
    ensures Inv(x, Run(x, s, events))
  {
    if events != [] {
      RunKeepsInv(x, s, events[..|events| - 1]);
      ApplyKeepsInv(x, Run(x, s, events[..|events| - 1]), events[|events| - 1]);
    }
  }

  /**
   * In every interleaving of any number of calls: an accepted token verified under a key that a document served
   * by the endpoint published for the token's kid, and that document had been stored less than six hours
   * before the key was chosen, or during the call itself.
   */
  lemma AcceptedUnderAPublishedKey(x: Crypto, now: Instant, events: seq<Event>, id: nat)
    requires var s := Run(x, Start(now), events); id in s.calls && s.calls[id].phase.Accepted?
    ensures var s := Run(x, Start(now), events);
            var c := s.calls[id];
            Signed(x, c.phase.key, c.q) && exists i: nat :: BackedBy(x, s, c, c.phase.key, c.phase.chosenAt, i)
  {
    RunKeepsInv(x, Start(now), events);
    var s := Run(x, Start(now), events);
    assert CallOk(x, s, s.calls[id]);
  }

  // ---------------------------------------------------------------- against the verifier that always fetches

  /** What a verifier without a cache decides when the endpoint answers with this document. */
  predicate FreshAccepts(x: Crypto, document: seq<Jwk>, q: Request) {
    var keys := KeySetOf(x.base64, document);
    q.kid in keys && Signed(x, keys[q.kid], q)
  }

  predicate Answers(r: Reply, document: seq<Jwk>) {
    r.Served? && r.status == 200 && r.document == Some(document)
  }

  /** The endpoint is reachable and stable. */
  predicate Stable(events: seq<Event>, document: seq<Jwk>) {
    forall i | 0 <= i < |events| && events[i].Receive? :: Answers(events[i].reply, document)
  }

  /** No other call is about to store something else. */
  ghost predicate InFlightAgree(s: State, document: seq<Jwk>) {
    forall id | id in s.calls && s.calls[id].phase.Storing? :: s.calls[id].phase.document == document
  }

  /** The key is the published one, or the one cached and unexpired when the call began. */
  ghost predicate FromEither(x: Crypto, s0: State, document: seq<Jwk>, kid: string, key: PublicKey, at: Instant) {
    || (var keys := KeySetOf(x.base64, document); kid in keys && keys[kid] == key)
    || (kid in s0.keys && s0.keys[kid] == key && at < s0.until)
  }

  /** How far the call stands under a stable endpoint. */
  ghost predicate Tracks(x: Crypto, s0: State, s: State, document: seq<Jwk>, c: Call) {
    var keys := KeySetOf(x.base64, document);
    match c.phase
    case Rereading(_) => s.keys == keys
    case Checking(key, at, last) =>
      FromEither(x, s0, document, c.q.kid, key, at) && (last ==> c.q.kid in keys && keys[c.q.kid] == key)
    case Accepted(key, at) => FromEither(x, s0, document, c.q.kid, key, at) && Signed(x, key, c.q)
    case Rejected => !FreshAccepts(x, document, c.q)
    case Fetching(why) => why == OnMissAgain ==> c.q.kid !in keys
    case Storing(why, _, _) => why == OnMissAgain ==> c.q.kid !in keys
    case _ => true
  }

  ghost predicate StableInv(x: Crypto, s0: State, s: State, document: seq<Jwk>, id: nat, q: Request) {
    && InFlightAgree(s, document)
    && ((s.keys == s0.keys && s.until == s0.until) || s.keys == KeySetOf(x.base64, document))
    && id in s.calls && s.calls[id].q == q && Tracks(x, s0, s, document, s.calls[id])
  }

  lemma OwnStepTracks(x: Crypto, s0: State, s: State, document: seq<Jwk>, id: nat, q: Request, e: Event)
    requires StableInv(x, s0, s, document, id, q) && !e.Tick? && !e.Begin? && e.id == id
    requires e.Receive? ==> Answers(e.reply, document)
    ensures Tracks(x, s0, Apply(x, s, e), document, Apply(x, s, e).calls[id])
  {
  }

  /** Where the cache can stand, and that a call which did not move still tracks it. */
  lemma CacheStaysEither(x: Crypto, s0: State, s: State, document: seq<Jwk>, id: nat, q: Request, e: Event)
    requires StableInv(x, s0, s, document, id, q)
    ensures var t := Apply(x, s, e);
      && ((s.keys == t.keys && s.until == t.until) || t.keys == KeySetOf(x.base64, document))
      && id in t.calls && t.calls[id].q == q
      && (t.calls[id] == s.calls[id] ==> Tracks(x, s0, t, document, t.calls[id]))
      && (t.calls[id] != s.calls[id] ==> !e.Tick? && !e.Begin? && e.id == id)
  {
  }

  lemma ApplyKeepsStableInv(x: Crypto, s0: State, s: State, document: seq<Jwk>, id: nat, q: Request, e: Event)
    requires StableInv(x, s0, s, document, id, q)
    requires e.Receive? ==> Answers(e.reply, document)
    ensures StableInv(x, s0, Apply(x, s, e), document, id, q)
  {
    var t := Apply(x, s, e);
    CacheStaysEither(x, s0, s, document, id, q, e);
    if t.calls[id] != s.calls[id] {
      OwnStepTracks(x, s0, s, document, id, q, e);
    }
    StoringAgrees(x, s, document, e);
  }

  lemma StoringAgrees(x: Crypto, s: State, document: seq<Jwk>, e: Event)
    requires InFlightAgree(s, document)
    requires e.Receive? ==> Answers(e.reply, document)
    ensures InFlightAgree(Apply(x, s, e), document)
  {
    var t := Apply(x, s, e);
    forall id | id in t.calls && t.calls[id].phase.Storing? ensures t.calls[id].phase.document == document {
      if id in s.calls && t.calls[id] == s.calls[id] {
        assert s.calls[id].phase.document == document;
      }
    }
  }

  lemma {:induction false} RunKeepsStableInv(
      x: Crypto, s0: State, s: State, document: seq<Jwk>, id: nat, q: Request, events: seq<Event>)
    requires StableInv(x, s0, s, document, id, q) && Stable(events, document)
    ensures StableInv(x, s0, Run(x, s, events), document, id, q)
  {
    if events != [] {
      var n := |events| - 1;
      assert Stable(events[..n], document);
      RunKeepsStableInv(x, s0, s, document, id, q, events[..n]);
      ApplyKeepsStableInv(x, s0, Run(x, s, events[..n]), document, id, q, events[n]);
    }
  }

  /**
   * A call begun in any state whatever, with the endpoint serving one document from then on and any other
   * calls interleaved: it never rejects what a fresh fetch would accept, and what it accepts a fresh fetch
   * would accept too, unless the key it used was cached when the call began and had not expired when chosen.
   */
  lemma CacheRefinesFreshFetch(x: Crypto, s0: State, id: nat, q: Request, document: seq<Jwk>, events: seq<Event>)
    requires id !in s0.calls && InFlightAgree(s0, document) && Stable(events, document)
    ensures var s := Run(x, Apply(x, s0, Begin(id, q)), events);
      && id in s.calls
      && (s.calls[id].phase.Rejected? ==> !FreshAccepts(x, document, q))
      && (s.calls[id].phase.Accepted? ==>
            || FreshAccepts(x, document, q)
            || (q.kid in s0.keys && Signed(x, s0.keys[q.kid], q) && s.calls[id].phase.chosenAt < s0.until))
  {
    RunKeepsStableInv(x, s0, Apply(x, s0, Begin(id, q)), document, id, q, events);
  }

  /** That exception is real: a cached, unexpired key is trusted without a fetch, whatever is published by then. */
  lemma UnexpiredKeyOutlivesItsWithdrawal(x: Crypto, s0: State, id: nat, q: Request)
    requires id !in s0.calls && q.kid in s0.keys && s0.now < s0.until && Signed(x, s0.keys[q.kid], q)
    ensures var s := Run(x, s0, [Begin(id, q), Look(id), Check(id)]);
            id in s.calls && s.calls[id].phase == Accepted(s0.keys[q.kid], s0.now)
  {
    var events := [Begin(id, q), Look(id), Check(id)];
    assert events[..2] == [Begin(id, q), Look(id)];
    assert events[..2][..1] == [Begin(id, q)];
    assert events[..2][..1][..0] == [];
    var s1 := Apply(x, s0, Begin(id, q));
    assert Run(x, s0, events[..2][..1]) == s1;
    assert Run(x, s0, events[..2]) == Apply(x, s1, Look(id));
  }

  // ---------------------------------------------------------------- every call ends

  /** Steps a call can still take. */
  function StepsLeft(p: Phase): nat {
    match p
    case Looking => 12
    case Fetching(why) => (match why case OnMiss => 11 case OnMissAgain => 8 case OnBadSignature => 4)
    case Storing(why, _, _) => (match why case OnMiss => 10 case OnMissAgain => 7 case OnBadSignature => 3)
    case Rereading(why) => (match why case OnMiss => 9 case OnMissAgain => 6 case OnBadSignature => 2)
    case Checking(_, _, last) => if last then 1 else 5
    case _ => 0
  }

  /** Fetches a call can still make. */
  function FetchesLeft(p: Phase): nat {
    match p
    case Looking => 3
    case Fetching(why) => (match why case OnMiss => 3 case OnMissAgain => 2 case OnBadSignature => 1)
    case Storing(why, _, _) => (match why case OnMiss => 2 case OnMissAgain => 1 case OnBadSignature => 0)
    case Rereading(why) => (match why case OnMiss => 2 case OnMissAgain => 1 case OnBadSignature => 0)
    case Checking(_, _, last) => if last then 0 else 1
    case _ => 0
  }

  /** How many events of the run were steps of the call. */
  function StepsTaken(x: Crypto, s: State, events: seq<Event>, id: nat): nat {
    if events == [] then 0
    else
      var n := |events| - 1;
      var before, after := Run(x, s, events[..n]), Run(x, s, events);
      StepsTaken(x, s, events[..n], id)
      + if id in before.calls && after.calls[id] != before.calls[id] then 1 else 0
  }

  /** How many of them were answers of the endpoint. */
  function FetchesMade(x: Crypto, s: State, events: seq<Event>, id: nat): nat {
    if events == [] then 0
    else
      var n := |events| - 1;
      var before, after := Run(x, s, events[..n]), Run(x, s, events);
      FetchesMade(x, s, events[..n], id)
      + if events[n].Receive? && id in before.calls && after.calls[id] != before.calls[id] then 1 else 0
  }

  lemma StepUsesBudget(x: Crypto, s: State, e: Event, id: nat)
    requires id in s.calls
    ensures var t := Apply(x, s, e);
      && id in t.calls
      && (t.calls[id] != s.calls[id] ==> StepsLeft(t.calls[id].phase) < StepsLeft(s.calls[id].phase))
      && FetchesLeft(t.calls[id].phase) <= FetchesLeft(s.calls[id].phase)
      && (e.Receive? && t.calls[id] != s.calls[id] ==> FetchesLeft(t.calls[id].phase) < FetchesLeft(s.calls[id].phase))
  {
    if !e.Tick? && e.id != id {
      assert Apply(x, s, e).calls[id] == s.calls[id];
    }
  }

  lemma {:induction false} RunUsesBudget(x: Crypto, s: State, events: seq<Event>, id: nat)
    requires id in s.calls
    ensures var t := Run(x, s, events);
      && id in t.calls
      && StepsTaken(x, s, events, id) + StepsLeft(t.calls[id].phase) <= StepsLeft(s.calls[id].phase)
      && FetchesMade(x, s, events, id) + FetchesLeft(t.calls[id].phase) <= FetchesLeft(s.calls[id].phase)
  {
    if events != [] {
      var n := |events| - 1;
      RunUsesBudget(x, s, events[..n], id);
      StepUsesBudget(x, Run(x, s, events[..n]), events[n], id);
    }
  }

  /** An event that is the next step of a call in this phase. */
  function NextEvent(id: nat, p: Phase): Event {
    match p
    case Looking => Look(id)
    case Fetching(_) => Receive(id, Unreachable)
    case Storing(_, _, _) => Store(id)
    case Rereading(_) => Reread(id)
    case _ => Check(id)
  }

  predicate Ended(p: Phase) {
    p.Accepted? || p.Rejected?
  }

  lemma UnfinishedCallCanStep(x: Crypto, s: State, id: nat)
    requires id in s.calls && !Ended(s.calls[id].phase)
    ensures var t := Apply(x, s, NextEvent(id, s.calls[id].phase)); id in t.calls && t.calls[id] != s.calls[id]
  {
    var c := s.calls[id];
    assert NextPhase(x, s, c, NextEvent(id, c.phase)) != c.phase;
  }

  /**
   * Whatever the endpoint does and whatever runs beside it, a call takes at most twelve steps and makes at most
   * three fetches, and can always take another step until it has accepted or rejected.
   */
  lemma CallsEnd(x: Crypto, s0: State, id: nat, q: Request, events: seq<Event>)
    requires id !in s0.calls
    ensures var s := Apply(x, s0, Begin(id, q));
            var t := Run(x, s, events);
      && StepsTaken(x, s, events, id) <= 12
      && FetchesMade(x, s, events, id) <= 3
      && id in t.calls
      && (StepsTaken(x, s, events, id) == 12 ==> Ended(t.calls[id].phase))
      && (!Ended(t.calls[id].phase) ==>
            var next := Apply(x, t, NextEvent(id, t.calls[id].phase));
            id in next.calls && next.calls[id] != t.calls[id])
  {
    var s := Apply(x, s0, Begin(id, q));
    RunUsesBudget(x, s, events, id);
    var t := Run(x, s, events);
    assert StepsLeft(t.calls[id].phase) == 0 ==> Ended(t.calls[id].phase);
    if !Ended(t.calls[id].phase) {
      UnfinishedCallCanStep(x, t, id);
    }
  }
}
