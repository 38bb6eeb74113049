/**
 * The Access token verifier of internal/accessauth/access.go: the checks on the token itself, and the verifier object
 * whose methods perform the steps of AccessKeys.
 */
module AccessVerifier {
  import opened Common
  import opened Text
  import opened Encoding
  import opened AccessKeys
  import CacheControl

  // ---------------------------------------------------------------- tokens

  const SKEW := 30 * SECOND

  datatype Header = Header(alg: string, kid: string)

  /** The `aud` claim: a string (null reads as the empty one), a list of strings, or anything else. */
  datatype Audience = One(name: string) | Many(names: seq<string>) | Unreadable

  datatype Claims = Claims(
    audience: Audience, email: string, subject: string, issuer: string, expires: int, notBefore: int)

  datatype Session = Session(email: string, subject: string, expiresAt: Instant)

  function SessionOf(c: Claims): Session {
    Session(c.email, c.subject, c.expires * SECOND)
  }

  /** JSON decoding is opaque. */
  datatype Codec = Codec(crypto: Crypto, header: Bytes -> Option<Header>, claims: Bytes -> Option<Claims>)

  datatype Policy = Policy(issuer: string, audience: string)

  predicate Names(a: Audience, want: string) {
    match a
    case One(name) => name == want
    case Many(names) => want in names
    case Unreadable => false
  }

  method AudienceContains(a: Audience, want: string) returns (found: bool)
    ensures found <==> Names(a, want)
  {
    match a {
      case One(name) => return name == want;
      case Unreadable => return false;
      case Many(names) =>
        var i := 0;
        while i < |names|
          invariant 0 <= i <= |names|
          invariant want !in names[..i]
        {
          if names[i] == want {
            return true;
          }
          i := i + 1;
        }
        assert names[..i] == names;
        return false;
    }
  }

  predicate ClaimsPass(p: Policy, c: Claims) {
    c.issuer == p.issuer && c.expires != 0 && c.email != "" && Names(c.audience, p.audience)
  }

  /** Neither expired nor not yet valid, allowing for clocks that disagree. */
  predicate Timely(c: Claims, now: Instant) {
    now <= c.expires * SECOND + SKEW && (c.notBefore != 0 ==> c.notBefore * SECOND <= now + SKEW)
  }

  function HeaderOf(x: Codec, part: string): Option<Header> {
    var bytes := x.crypto.base64(part);
    if bytes.None? then None else x.header(bytes.value)
  }

  function ClaimsOf(x: Codec, part: string): Option<Claims> {
    var bytes := x.crypto.base64(part);
    if bytes.None? then None else x.claims(bytes.value)
  }

  datatype Admission = Admission(q: Request, claims: Claims)

  /** The checks made before any key is looked up. */
  function Admit(x: Codec, p: Policy, token: string, now: Instant): Option<Admission> {
    var parts := Split(token, '.');
    if |parts| != 3 || parts[0] == "" || parts[1] == "" || parts[2] == "" then None
    else
      var header, claims := HeaderOf(x, parts[0]), ClaimsOf(x, parts[1]);
      if header.None? || header.value.alg != "RS256" || header.value.kid == "" || claims.None? then None
      else if !ClaimsPass(p, claims.value) || !Timely(claims.value, now) then None
      else
        var q := Request(header.value.kid, parts[0] + "." + parts[1], x.crypto.base64(parts[2]));
        Some(Admission(q, claims.value))
  }

  /**
   * A token assembled from a header, claims and signature is admitted exactly while the clock is inside the
   * window of its claims, and asks for the key it names over exactly the text that was signed.
   */
  lemma AdmittedExactlyInItsWindow(x: Codec, p: Policy, h: string, c: string, g: string, now: Instant)
    requires h != "" && c != "" && g != "" && '.' !in h && '.' !in c && '.' !in g
    ensures var header, claims := HeaderOf(x, h), ClaimsOf(x, c);
            var a := Admit(x, p, h + "." + c + "." + g, now);
      && (a.Some? <==>
            && header.Some? && header.value.alg == "RS256" && header.value.kid != ""
            && claims.Some? && claims.value.issuer == p.issuer && claims.value.email != ""
            && claims.value.expires != 0 && Names(claims.value.audience, p.audience)
            && now <= (claims.value.expires + 30) * SECOND
            && (claims.value.notBefore == 0 || (claims.value.notBefore - 30) * SECOND <= now))
      && (a.Some? ==> a.value == Admission(Request(header.value.kid, h + "." + c, x.crypto.base64(g)), claims.value))
  {
    var parts := [h, c, g];
    SplitInvertsJoin(parts, '.');
    assert parts[1..] == [c, g] && parts[1..][1..] == [g];
    assert Join(parts[1..], '.') == c + "." + g;
    assert h + "." + c + "." + g == Join(parts, '.');
  }

  // ---------------------------------------------------------------- the verifier

  /** From its n-th answer on the endpoint serves one document. */
  ghost predicate Serves(replies: nat -> Reply, n: nat, document: seq<Jwk>) {
    forall i: nat | n <= i :: Answers(replies(i), document)
  }

  ghost predicate Fetched(replies: nat -> Reply, lo: nat, hi: nat, r: Reply) {
    exists i: nat :: lo <= i < hi && replies(i) == r
  }

  /** The trace was extended, by answers number lo to hi - 1 among other events. */
  ghost predicate Extends(replies: nat -> Reply, before: seq<Event>, after: seq<Event>, lo: nat, hi: nat) {
    && lo <= hi && |before| <= |after| && after[..|before|] == before
    && forall k | |before| <= k < |after| && after[k].Receive? :: Fetched(replies, lo, hi, after[k].reply)
  }

  lemma ExtendsByOne(replies: nat -> Reply, a: seq<Event>, b: seq<Event>, e: Event, lo: nat, mid: nat, hi: nat)
    requires Extends(replies, a, b, lo, mid) && mid <= hi
    requires e.Receive? ==> Fetched(replies, lo, hi, e.reply)
    ensures Extends(replies, a, b + [e], lo, hi)
  {
    var c := b + [e];
    assert c[..|a|] == b[..|a|];
    forall k | |a| <= k < |c| && c[k].Receive? ensures Fetched(replies, lo, hi, c[k].reply) {
      if k < |b| {
        assert c[k] == b[k];
        var i: nat :| lo <= i < mid && replies(i) == b[k].reply;
      }
    }
  }

  lemma ExtendsItself(replies: nat -> Reply, trace: seq<Event>, n: nat)
    ensures Extends(replies, trace, trace, n, n)
  {
  }

  lemma ExtendsIsStable(
      replies: nat -> Reply, before: seq<Event>, after: seq<Event>, lo: nat, hi: nat, document: seq<Jwk>)
    requires Extends(replies, before, after, lo, hi) && Serves(replies, lo, document)
    ensures Stable(after[|before|..], document)
  {
    var events := after[|before|..];
    forall k | 0 <= k < |events| && events[k].Receive? ensures Answers(events[k].reply, document) {
      assert events[k] == after[|before| + k];
      var i: nat :| lo <= i < hi && replies(i) == after[|before| + k].reply;
    }
  }

  /** What one call came to, judged against the verifier that always fetches. */
  ghost predicate Judged(x: Crypto, s0: State, q: Request, document: seq<Jwk>, outcome: Phase) {
    && (outcome.Rejected? ==> !FreshAccepts(x, document, q))
    && (outcome.Accepted? ==>
          || FreshAccepts(x, document, q)
          || (q.kid in s0.keys && Signed(x, s0.keys[q.kid], q) && outcome.chosenAt < s0.until))
  }

  /** A call begun where the trace stood at `before` and finished at `after`. */
  lemma TraceIsJudged(
      x: Crypto, start: Instant, replies: nat -> Reply, before: seq<Event>, id: nat, q: Request, after: seq<Event>,
      lo: nat, hi: nat, document: seq<Jwk>)
    requires var s0 := Run(x, Start(start), before); id !in s0.calls && InFlightAgree(s0, document)
    requires Extends(replies, before + [Begin(id, q)], after, lo, hi) && Serves(replies, lo, document)
    ensures var s := Run(x, Start(start), after);
            id in s.calls && Judged(x, Run(x, Start(start), before), q, document, s.calls[id].phase)
  {
    var head := before + [Begin(id, q)];
    var events := after[|head|..];
    ExtendsIsStable(replies, head, after, lo, hi, document);
    assert after == head + events;
    RunConcat(x, Start(start), head, events);
    assert head[..|head| - 1] == before;
    CacheRefinesFreshFetch(x, Run(x, Start(start), before), id, q, document, events);
  }

  /** The same for every document the endpoint may turn out to serve. */
  lemma TraceIsJudgedWhateverIsServed(
      x: Crypto, start: Instant, replies: nat -> Reply, before: seq<Event>, s0: State, id: nat, q: Request,
      after: seq<Event>, s: State, lo: nat, hi: nat)
    requires s0 == Run(x, Start(start), before) && s == Run(x, Start(start), after)
    requires id !in s0.calls && (forall other | other in s0.calls :: Ended(s0.calls[other].phase))
    requires Extends(replies, before + [Begin(id, q)], after, lo, hi)
    ensures id in s.calls
    ensures forall document | Serves(replies, lo, document) :: Judged(x, s0, q, document, s.calls[id].phase)
  {
    RunUsesBudget(x, Run(x, Start(start), before + [Begin(id, q)]), after[|before| + 1..], id);
    RunConcat(x, Start(start), before + [Begin(id, q)], after[|before| + 1..]);
    assert after == before + [Begin(id, q)] + after[|before| + 1..];
    forall document | Serves(replies, lo, document) ensures Judged(x, s0, q, document, s.calls[id].phase) {
      TraceIsJudged(x, start, replies, before, id, q, after, lo, hi, document);
    }
  }

  /** The key set a usable answer offers, and its lifetime in seconds. */
  function Offered(x: Crypto, reply: Reply): (KeySet, nat)
    requires Usable(x, reply)
  {
    (KeySetOf(x.base64, reply.document.value), CacheControl.Lifetime(reply.cacheControl))
  }

  function PhaseAfterReply(x: Crypto, reply: Reply, why: Purpose): Phase {
    if Usable(x, reply) then Storing(why, reply.document.value, CacheControl.Lifetime(reply.cacheControl))
    else AfterFailure(why)
  }

  /** An answer is of use when it is a 200 with a readable document of at least one usable key. */
  method ReadReply(x: Crypto, reply: Reply) returns (r: Option<(KeySet, nat)>)
    ensures r.Some? <==> Usable(x, reply)
    ensures r.Some? ==> r.value == Offered(x, reply)
  {
    if reply.Unreachable? || reply.status != 200 || reply.document.None? {
      return None;
    }
    var next := BuildKeySet(x.base64, reply.document.value);
    if next == map[] {
      return None;
    }
    var ttl := CacheControl.CacheTTL(reply.cacheControl);
    return Some((next, ttl));
  }

  /** The checks of Admit that need no clock. */
  method ReadToken(x: Codec, p: Policy, token: string) returns (a: Option<Admission>)
    ensures forall now ::
      Admit(x, p, token, now) == if a.Some? && Timely(a.value.claims, now) then a else None
  {
    var parts := Split(token, '.');
    if |parts| != 3 || parts[0] == "" || parts[1] == "" || parts[2] == "" {
      return None;
    }
    var header := HeaderOf(x, parts[0]);
    if header.None? || header.value.alg != "RS256" || header.value.kid == "" {
      return None;
    }
    var claims := ClaimsOf(x, parts[1]);
    if claims.None? {
      return None;
    }
    var named := AudienceContains(claims.value.audience, p.audience);
    if claims.value.issuer != p.issuer || claims.value.expires == 0 || claims.value.email == "" || !named {
      return None;
    }
    return Some(Admission(
                  Request(header.value.kid, parts[0] + "." + parts[1], x.crypto.base64(parts[2])), claims.value));
  }

  class Verifier {
    const x: Codec
    const policy: Policy
    /** The answers of the endpoint and the readings of the clock, in the order in which they are asked for. */
    const replies: nat -> Reply
    const clock: nat -> Instant

    var keys: KeySet
    var keysUntil: Instant
    var fetches: nat
    var readings: nat
    /** The machine, the events that brought it here, and the calls begun. */
    ghost var m: State
    ghost var trace: seq<Event>
    ghost var begun: nat
    /** Where the trace stood, and how many answers had been used, when the latest call began. */
    ghost var base: seq<Event>
    ghost var baseFetches: nat

    /** The fields are those of the machine at the end of the trace. */
    ghost predicate Consistent()
      reads this
    {
      ConsistentAt(fetches)
    }

    /** The same, with so many answers received. */
    ghost predicate ConsistentAt(received: nat)
      reads this
    {
      && m == Run(x.crypto, Start(clock(0)), trace)
      && keys == m.keys && keysUntil == m.until
      && m.now <= clock(readings) && (forall i: nat, j: nat | i <= j :: clock(i) <= clock(j))
      && Extends(replies, base, trace, baseFetches, received)
    }

    /** Between calls: every call so far has ended. */
    ghost predicate Valid()
      reads this
    {
      Consistent() && forall id | id in m.calls :: id < begun && Ended(m.calls[id].phase)
    }

    constructor (x: Codec, policy: Policy, replies: nat -> Reply, clock: nat -> Instant)
      requires forall i: nat, j: nat | i <= j :: clock(i) <= clock(j)
      ensures Valid() && keys == map[] && trace == []
      ensures this.x == x && this.policy == policy && this.replies == replies && this.clock == clock
    {
      this.x, this.policy, this.replies, this.clock := x, policy, replies, clock;
      keys, keysUntil, fetches, readings := map[], ZERO_TIME, 0, 0;
      m, trace, begun, base, baseFetches := Start(clock(0)), [], 0, [], 0;
    }

    ghost method Advance(e: Event)
      requires m == Run(x.crypto, Start(clock(0)), trace)
      requires e.Receive? ==> fetches > 0 && e.reply == replies(fetches - 1)
      requires Extends(replies, base, trace, baseFetches, if e.Receive? then fetches - 1 else fetches)
      modifies this`m, this`trace
      ensures m == Apply(x.crypto, old(m), e) && m == Run(x.crypto, Start(clock(0)), trace)
      ensures trace == old(trace) + [e] && Extends(replies, base, trace, baseFetches, fetches)
    {
      if e.Receive? {
        assert Fetched(replies, baseFetches, fetches, e.reply);
      }
      ExtendsByOne(replies, base, trace, e, baseFetches, if e.Receive? then fetches - 1 else fetches, fetches);
      m := Apply(x.crypto, m, e);
      trace := trace + [e];
      assert trace[..|trace| - 1] == old(trace);
    }

    ghost method RecordBegin(q: Request) returns (id: nat)
      requires Valid()
      modifies this`m, this`trace, this`begun, this`base, this`baseFetches
      ensures Consistent() && id == old(begun) && begun == id + 1
      ensures base == old(trace) + [Begin(id, q)] && baseFetches == fetches
      ensures id !in old(m).calls && m.calls == old(m).calls[id := Call(q, m.now, Looking)]
    {
      id, begun := begun, begun + 1;
      Advance(Begin(id, q));
      ExtendsItself(replies, trace, fetches);
      base, baseFetches := trace, fetches;
    }

    ghost method RecordLook(id: nat)
      requires Consistent() && id in m.calls && m.calls[id].phase.Looking?
      modifies this`m, this`trace
      ensures Consistent()
      ensures var kid := old(m).calls[id].q.kid;
              m == Move(old(m), id, if kid in keys && m.now < keysUntil then Checking(keys[kid], m.now, false)
                                    else Fetching(OnMiss))
    {
      Advance(Look(id));
    }

    ghost method RecordReread(id: nat)
      requires Consistent() && id in m.calls && m.calls[id].phase.Rereading?
      modifies this`m, this`trace
      ensures Consistent()
      ensures var c := old(m).calls[id];
              m == Move(old(m), id, if c.q.kid in keys
                                    then Checking(keys[c.q.kid], m.now, c.phase.why == OnBadSignature)
                                    else AfterFailure(c.phase.why))
    {
      Advance(Reread(id));
    }

    ghost method RecordCheck(id: nat)
      requires Consistent() && id in m.calls && m.calls[id].phase.Checking?
      modifies this`m, this`trace
      ensures Consistent()
      ensures var c := old(m).calls[id];
              m == Move(old(m), id, if Signed(x.crypto, c.phase.key, c.q) then Accepted(c.phase.key, c.phase.chosenAt)
                                    else if c.q.sig.None? || c.phase.last then Rejected
                                    else Fetching(OnBadSignature))
    {
      Advance(Check(id));
    }

    /** The endpoint's latest answer reaches the call. */
    ghost method RecordReceive(id: nat)
      requires fetches > 0 && ConsistentAt(fetches - 1) && id in m.calls && m.calls[id].phase.Fetching?
      modifies this`m, this`trace
      ensures Consistent() && m.keys == old(m).keys && m.until == old(m).until && m.now == old(m).now
      ensures m.calls == Move(old(m), id,
                PhaseAfterReply(x.crypto, replies(fetches - 1), old(m).calls[id].phase.why)).calls
    {
      Advance(Receive(id, replies(fetches - 1)));
    }

    /** The fields are about to take what the call has fetched; the machine does. */
    ghost method RecordStore(id: nat)
      requires Consistent() && id in m.calls && m.calls[id].phase.Storing?
      modifies this`m, this`trace
      ensures m == Run(x.crypto, Start(clock(0)), trace) && Extends(replies, base, trace, baseFetches, fetches)
      ensures var p := old(m).calls[id].phase;
        && m.keys == KeySetOf(x.crypto.base64, p.document) && m.until == m.now + p.ttl * SECOND && m.now == old(m).now
        && m.calls == Move(old(m), id, Rereading(p.why)).calls
    {
      Advance(Store(id));
    }

    method Now() returns (t: Instant)
      requires Consistent()
      modifies this`readings, this`m, this`trace
      ensures Consistent() && t == clock(old(readings)) && readings == old(readings) + 1
      ensures m == old(m).(now := t)
    {
      t := clock(readings);
      readings := readings + 1;
      Advance(Tick(t));
    }

    /** The update under the write lock. */
    method Install(ghost id: nat, next: KeySet, ttl: nat)
      requires Consistent() && id in m.calls && m.calls[id].phase.Storing?
      requires next == KeySetOf(x.crypto.base64, m.calls[id].phase.document) && ttl == m.calls[id].phase.ttl
      modifies this`keys, this`keysUntil, this`readings, this`m, this`trace
      ensures Consistent() && keys == next && keysUntil == m.now + ttl * SECOND
      ensures m.calls == old(m.calls)[id := old(m.calls)[id].(phase := Rereading(old(m.calls)[id].phase.why))]
    {
      var now := Now();
      RecordStore(id);
      keys := next;
      keysUntil := now + ttl * SECOND;
    }

    /** One request to the endpoint, and what its answer offers. */
    method Fetch(ghost id: nat) returns (fetched: Option<(KeySet, nat)>)
      requires Consistent() && id in m.calls && m.calls[id].phase.Fetching?
      modifies this`fetches, this`m, this`trace
      ensures Consistent() && fetches == old(fetches) + 1
      ensures fetched.Some? <==> Usable(x.crypto, replies(old(fetches)))
      ensures fetched.Some? ==> fetched.value == Offered(x.crypto, replies(old(fetches)))
      ensures m.calls == old(m.calls)[id := old(m.calls)[id].(phase :=
                PhaseAfterReply(x.crypto, replies(old(fetches)), old(m.calls)[id].phase.why))]
    {
      fetched := ReadReply(x.crypto, replies(fetches));
      fetches := fetches + 1;
      RecordReceive(id);
    }

    /** Fetches the key set once; on any failure the cache stays as it was. */
    method Refresh(ghost id: nat) returns (ok: bool)
      requires Consistent() && id in m.calls && m.calls[id].phase.Fetching?
      modifies this`keys, this`keysUntil, this`fetches, this`readings, this`m, this`trace
      ensures Consistent() && fetches == old(fetches) + 1
      ensures ok <==> Usable(x.crypto, replies(old(fetches)))
      ensures !ok ==> keys == old(keys) && keysUntil == old(keysUntil)
      ensures ok ==>
        && keys == Offered(x.crypto, replies(old(fetches))).0
        && keysUntil == m.now + Offered(x.crypto, replies(old(fetches))).1 * SECOND
      ensures m.calls == old(m.calls)[id := old(m.calls)[id].(phase :=
                if ok then Rereading(old(m.calls)[id].phase.why) else AfterFailure(old(m.calls)[id].phase.why))]
    {
      var fetched := Fetch(id);
      if fetched.None? {
        return false;
      }
      Install(id, fetched.value.0, fetched.value.1);
      return true;
    }

    /** The key for a kid: from the cache unless forced, otherwise after one refresh. */
    method Key(ghost id: nat, kid: string, force: bool) returns (r: Option<PublicKey>)
      requires Consistent() && id in m.calls && m.calls[id].q.kid == kid
      requires if force then m.calls[id].phase.Fetching? && m.calls[id].phase.why != OnMiss
               else m.calls[id].phase.Looking?
      modifies this`keys, this`keysUntil, this`fetches, this`readings, this`m, this`trace
      ensures Consistent() && old(fetches) <= fetches <= old(fetches) + 1
      ensures id in m.calls && m.calls == old(m.calls)[id := old(m.calls)[id].(phase := m.calls[id].phase)]
      ensures r.Some? ==>
                && m.calls[id].phase.Checking? && m.calls[id].phase.key == r.value
                && (m.calls[id].phase.last <==> force && old(m.calls)[id].phase.why == OnBadSignature)
      ensures r.None? ==> m.calls[id].phase == AfterFailure(if force then old(m.calls)[id].phase.why else OnMiss)
      ensures !force && kid in old(keys) && clock(old(readings)) < old(keysUntil) ==>
                r == Some(old(keys)[kid]) && fetches == old(fetches) && keys == old(keys) && keysUntil == old(keysUntil)
    {
      if !force {
        var key := if kid in keys then Some(keys[kid]) else None;
        var now := Now();
        RecordLook(id);
        if key.Some? && now < keysUntil {
          return key;
        }
      }
      var ok := Refresh(id);
      if !ok {
        return None;
      }
      RecordReread(id);
      return if kid in keys then Some(keys[kid]) else None;
    }

    /** The key for a kid, with one more try after a failure. */
    method FindKey(ghost id: nat, kid: string) returns (r: Option<PublicKey>)
      requires Consistent() && id in m.calls && m.calls[id].q.kid == kid && m.calls[id].phase.Looking?
      modifies this`keys, this`keysUntil, this`fetches, this`readings, this`m, this`trace
      ensures Consistent() && old(fetches) <= fetches <= old(fetches) + 2
      ensures id in m.calls && m.calls == old(m.calls)[id := old(m.calls)[id].(phase := m.calls[id].phase)]
      ensures r.Some? ==> m.calls[id].phase.Checking? && m.calls[id].phase.key == r.value && !m.calls[id].phase.last
      ensures r.None? ==> m.calls[id].phase.Rejected?
    {
      r := Key(id, kid, false);
      if r.None? {
        r := Key(id, kid, true);
      }
    }

    /** Checks the signature, and once more under a fresh key if it does not verify. */
    method CheckSignature(ghost id: nat, q: Request, key: PublicKey) returns (ok: bool)
      requires Consistent() && id in m.calls && m.calls[id].q == q
      requires m.calls[id].phase.Checking? && m.calls[id].phase.key == key && !m.calls[id].phase.last
      modifies this`keys, this`keysUntil, this`fetches, this`readings, this`m, this`trace
      ensures Consistent() && old(fetches) <= fetches <= old(fetches) + 1
      ensures id in m.calls && m.calls == old(m.calls)[id := old(m.calls)[id].(phase := m.calls[id].phase)]
      ensures if ok then m.calls[id].phase.Accepted? else m.calls[id].phase.Rejected?
    {
      RecordCheck(id);
      if q.sig.None? {
        return false;
      }
      if x.crypto.check(key, q.signed, q.sig.value) {
        return true;
      }
      var renewed := Key(id, q.kid, true);
      if renewed.None? {
        return false;
      }
      RecordCheck(id);
      return x.crypto.check(renewed.value, q.signed, q.sig.value);
    }

    /** A call to the machine for an admitted token, judged against whatever one document the endpoint now serves. */
    method VerifyAdmitted(q: Request) returns (ok: bool, ghost id: nat)
      requires Valid()
      modifies this
      ensures Valid() && old(fetches) <= fetches <= old(fetches) + 3
      ensures id !in old(m.calls) && id in m.calls && m.calls[id].q == q
      ensures if ok then m.calls[id].phase.Accepted? else m.calls[id].phase.Rejected?
      ensures forall document | Serves(replies, old(fetches), document) ::
                Judged(x.crypto, old(m), q, document, m.calls[id].phase)
    {
      id := RecordBegin(q);
      var key := FindKey(id, q.kid);
      ok := false;
      if key.Some? {
        ok := CheckSignature(id, q, key.value);
      }
      TraceIsJudgedWhateverIsServed(
        x.crypto, clock(0), replies, old(trace), old(m), id, q, trace, m, old(fetches), fetches);
    }

    /**
     * A token that is not admitted is refused without touching the cache. For an admitted one the answer is
     * that of its call in the machine; and if the endpoint serves one document from now on, every token a
     * fresh fetch would accept is accepted, and any other only under a key still cached and unexpired.
     */
    method Verify(token: string) returns (r: Option<Session>, ghost id: nat)
      requires Valid()
      modifies this
      ensures Valid() && old(fetches) <= fetches <= old(fetches) + 3
      ensures var a := Admit(x, policy, token, clock(old(readings)));
        && (a.None? ==> r.None? && keys == old(keys) && keysUntil == old(keysUntil) && fetches == old(fetches))
        && (a.Some? ==>
              && id !in old(m.calls) && id in m.calls && m.calls[id].q == a.value.q
              && (if r.Some? then m.calls[id].phase.Accepted? else m.calls[id].phase.Rejected?)
              && (r.Some? ==>
                    && r.value.email == a.value.claims.email && r.value.subject == a.value.claims.subject
                    && r.value.expiresAt == a.value.claims.expires * SECOND)
              && forall document | Serves(replies, old(fetches), document) ::
                   Judged(x.crypto, old(m), a.value.q, document, m.calls[id].phase))
    {
      r, id := None, begun;
      var a := ReadToken(x, policy, token);
      if a.None? {
        return;
      }
      var now := Now();
      if now > a.value.claims.expires * SECOND + SKEW {
        return;
      }
      if a.value.claims.notBefore != 0 && now + SKEW < a.value.claims.notBefore * SECOND {
        return;
      }
      var ok;
      ok, id := VerifyAdmitted(a.value.q);
      if ok {
        r := Some(SessionOf(a.value.claims));
      }
    }
  }
}
