/**
 * ensureAuditStream of internal/natsaudit/nats.go: every API pod, at start-up, creates the audit stream or repairs its
 * mutable safety settings, racing with every other pod.
 */
module StreamContract {
  import opened Common

  datatype Storage = FileStorage | MemoryStorage

  datatype Retention = WorkQueue | Limits | Interest

  datatype Discard = DiscardNew | DiscardOld

  /** `other` stands for the settings the code leaves as it finds them. */
  datatype StreamConfig = StreamConfig(
    storage: Storage, retention: Retention, subjects: seq<string>,
    maxConsumers: int, maxMsgs: int, maxMsgsPerSubject: int, maxBytes: int, maxAge: int,
    discard: Discard, noAck: bool, other: string)

  const MAX_BYTES := 8 * 1024 * 1024 * 1024

  /** What NATS cannot change in place and the code refuses to touch. */
  predicate Structural(c: StreamConfig) {
    c.storage.FileStorage? && c.retention.WorkQueue?
  }

  /** The durability contract of the audit stream. */
  predicate Contract(c: StreamConfig, subject: string) {
    && Structural(c)
    && c.subjects == [subject]
    && c.maxConsumers == -1 && c.maxMsgs == -1 && c.maxMsgsPerSubject == -1
    && c.maxBytes == MAX_BYTES && c.maxAge == 0
    && c.discard.DiscardNew? && !c.noAck
  }

  /** The configuration of a stream created from scratch. */
  function Wanted(subject: string): StreamConfig {
    StreamConfig(FileStorage, WorkQueue, [subject], -1, -1, -1, MAX_BYTES, 0, DiscardNew, false, "")
  }

  /** The smallest repair: the contract's settings, everything else kept. */
  function Repaired(c: StreamConfig, subject: string): StreamConfig {
    Wanted(subject).(storage := c.storage, retention := c.retention, other := c.other)
  }

  /** Setting by setting, noting whether anything had to change. */
  method Reconcile(info: StreamConfig, subject: string) returns (cfg: StreamConfig, changed: bool)
    ensures cfg == Repaired(info, subject)
    ensures Structural(info) ==> Contract(cfg, subject) && (changed <==> !Contract(info, subject))
  {
    cfg, changed := info, false;
    if |cfg.subjects| != 1 || cfg.subjects[0] != subject {
      cfg, changed := cfg.(subjects := [subject]), true;
    }
    if cfg.maxConsumers != -1 {
      cfg, changed := cfg.(maxConsumers := -1), true;
    }
    if cfg.maxMsgs != -1 {
      cfg, changed := cfg.(maxMsgs := -1), true;
    }
    if cfg.maxMsgsPerSubject != -1 {
      cfg, changed := cfg.(maxMsgsPerSubject := -1), true;
    }
    if cfg.maxAge != 0 {
      cfg, changed := cfg.(maxAge := 0), true;
    }
    if cfg.maxBytes != MAX_BYTES {
      cfg, changed := cfg.(maxBytes := MAX_BYTES), true;
    }
    if !cfg.discard.DiscardNew? {
      cfg, changed := cfg.(discard := DiscardNew), true;
    }
    if cfg.noAck {
      cfg, changed := cfg.(noAck := false), true;
    }
  }

  // ---------------------------------------------------------------- racing pods

  /** Where a pod's call is: it found no stream, it must look again, it is about to update, or it has returned. */
  datatype Pod = Missing | LookAgain | Updating(cfg: StreamConfig) | Returned(ok: bool)

  datatype State = State(stream: Option<StreamConfig>, pods: map<nat, Pod>, updates: nat)

  datatype Reply = Acknowledged | ReplyLost | Refused

  datatype Event =
    | Look(pod: nat, fails: bool)
    | Add(pod: nat, reply: Reply)
    | SecondLook(pod: nat, fails: bool)
    | Update(pod: nat, reply: Reply)

  /** What a pod does with a configuration it has read. */
  function Decide(subject: string, c: StreamConfig): Pod {
    if !Structural(c) then Returned(false)
    else if Contract(c, subject) then Returned(true)
    else Updating(Repaired(c, subject))
  }

  function Apply(subject: string, s: State, e: Event): State {
    match e
    case Look(p, fails) =>
      if p in s.pods then s
      else
        s.(pods := s.pods[p := if fails then Returned(false)
                               else if s.stream.None? then Missing
                               else Decide(subject, s.stream.value)])
    case Add(p, reply) =>
      if p !in s.pods || !s.pods[p].Missing? then s
      else
        var accepted := !reply.Refused? && (s.stream.None? || s.stream.value == Wanted(subject));
        State(if accepted then Some(Wanted(subject)) else s.stream,
              s.pods[p := if accepted && reply.Acknowledged? then Returned(true) else LookAgain],
              s.updates)
    case SecondLook(p, fails) =>
      if p !in s.pods || !s.pods[p].LookAgain? then s
      else
        s.(pods := s.pods[p := if fails || s.stream.None? then Returned(false) else Decide(subject, s.stream.value)])
    case Update(p, reply) =>
      if p !in s.pods || !s.pods[p].Updating? then s
      else
        var accepted := !reply.Refused? && s.stream.Some?
                        && s.stream.value.storage == s.pods[p].cfg.storage
                        && s.stream.value.retention == s.pods[p].cfg.retention;
        State(if accepted then Some(s.pods[p].cfg) else s.stream,
              s.pods[p := Returned(accepted && reply.Acknowledged?)],
              s.updates + 1)
  }

  function Run(subject: string, s: State, events: seq<Event>): State
    decreases |events|
  {
    if events == [] then s else Run(subject, Apply(subject, s, events[0]), events[1..])
  }

  predicate InContract(s: State, subject: string) {
    s.stream.Some? && Contract(s.stream.value, subject)
  }

  ghost predicate Inv(subject: string, s: State) {
    && (forall p | p in s.pods && s.pods[p].Updating? :: Contract(s.pods[p].cfg, subject))
    && (forall p | p in s.pods && s.pods[p] == Returned(true) :: InContract(s, subject))
  }

  lemma ApplyKeepsInv(subject: string, s: State, e: Event)
    requires Inv(subject, s)
    ensures Inv(subject, Apply(subject, s, e))
    ensures InContract(s, subject) ==> InContract(Apply(subject, s, e), subject)
    ensures s.stream.Some? && !Structural(s.stream.value) ==> Apply(subject, s, e).stream == s.stream
  {
  }

  lemma {:induction false} RunKeepsInv(subject: string, s: State, events: seq<Event>)
    requires Inv(subject, s)
    ensures Inv(subject, Run(subject, s, events))
    ensures InContract(s, subject) ==> InContract(Run(subject, s, events), subject)
    ensures s.stream.Some? && !Structural(s.stream.value) ==> Run(subject, s, events).stream == s.stream
    decreases |events|
  {
    if events != [] {
      ApplyKeepsInv(subject, s, events[0]);
      RunKeepsInv(subject, Apply(subject, s, events[0]), events[1..]);
    }
  }

  /**
   * From any stream or none, however many pods race: whenever one call has returned without error the stream
   * meets the full contract, and it does so in every later state, whatever stale reads are still in flight.
   */
  lemma SuccessMeansContract(
      subject: string, stream: Option<StreamConfig>, events: seq<Event>, more: seq<Event>, p: nat)
    requires var s := Run(subject, State(stream, map[], 0), events); p in s.pods && s.pods[p] == Returned(true)
    ensures var later := Run(subject, Run(subject, State(stream, map[], 0), events), more).stream;
      && later.Some? && later.value.storage.FileStorage? && later.value.retention.WorkQueue?
      && later.value.subjects == [subject] && later.value.maxBytes == 8_589_934_592 && later.value.maxAge == 0
      && later.value.maxConsumers == -1 && later.value.maxMsgs == -1 && later.value.maxMsgsPerSubject == -1
      && later.value.discard.DiscardNew? && !later.value.noAck
  {
    RunKeepsInv(subject, State(stream, map[], 0), events);
    RunKeepsInv(subject, Run(subject, State(stream, map[], 0), events), more);
  }

  /** A stream of the wrong storage or retention is never modified, and no call ever reports success on it. */
  lemma WrongStreamIsRefused(subject: string, stream: StreamConfig, events: seq<Event>, p: nat)
    requires !Structural(stream)
    ensures var s := Run(subject, State(Some(stream), map[], 0), events);
      s.stream == Some(stream) && (p in s.pods ==> s.pods[p] != Returned(true))
  {
    RunKeepsInv(subject, State(Some(stream), map[], 0), events);
  }

  /** A call that starts once the contract holds succeeds at its first look, without an update. */
  lemma {:induction false} SettledCallsIssueNoUpdate(subject: string, s: State, events: seq<Event>, p: nat)
    requires Inv(subject, s) && InContract(s, subject) && p !in s.pods
    ensures var t := Run(subject, s, [Look(p, false)] + events);
      p in t.pods && t.pods[p] == Returned(true)
    ensures Apply(subject, s, Look(p, false)).updates == s.updates
    ensures Apply(subject, s, Look(p, false)).stream == s.stream
  {
    assert ([Look(p, false)] + events)[1..] == events;
    ReturnedStays(subject, Apply(subject, s, Look(p, false)), events, p);
  }

  lemma {:induction false} ReturnedStays(subject: string, s: State, events: seq<Event>, p: nat)
    requires p in s.pods && s.pods[p].Returned?
    ensures var t := Run(subject, s, events); p in t.pods && t.pods[p] == s.pods[p]
    decreases |events|
  {
    if events != [] {
      ReturnedStays(subject, Apply(subject, s, events[0]), events[1..], p);
    }
  }

  // ---------------------------------------------------------------- one call

  /** How racing calls may change the stream: not at all, or into one that meets the contract. */
  predicate Allowed(before: Option<StreamConfig>, after: Option<StreamConfig>, subject: string) {
    after == before
    || ((before.None? || Structural(before.value)) && after.Some? && Contract(after.value, subject))
  }

  lemma {:induction false} RunIsAllowed(subject: string, s: State, events: seq<Event>)
    requires Inv(subject, s)
    ensures Allowed(s.stream, Run(subject, s, events).stream, subject)
    decreases |events|
  {
    if events != [] {
      ApplyKeepsInv(subject, s, events[0]);
      RunIsAllowed(subject, Apply(subject, s, events[0]), events[1..]);
    }
  }

  /** The others' events leave this pod's call alone. */
  lemma {:induction false} OthersLeavePod(subject: string, s: State, events: seq<Event>, p: nat)
    requires forall i | 0 <= i < |events| :: events[i].pod != p
    ensures var t := Run(subject, s, events); (p in t.pods <==> p in s.pods) && (p in s.pods ==> t.pods[p] == s.pods[p])
    decreases |events|
  {
    if events != [] {
      OthersLeavePod(subject, Apply(subject, s, events[0]), events[1..], p);
    }
  }

  lemma {:induction false} RunConcat(subject: string, s: State, events: seq<Event>, more: seq<Event>)
    ensures Run(subject, s, events + more) == Run(subject, Run(subject, s, events), more)
    decreases |events|
  {
    if events == [] {
      assert events + more == more;
    } else {
      assert (events + more)[1..] == events[1..] + more;
      RunConcat(subject, Apply(subject, s, events[0]), events[1..], more);
    }
  }

  /** What the other pods do between two steps of this one, given how things stand. */
  type Interference = State -> seq<Event>

  /** The server's stream, and how far every pod's call has come. */
  class JetStream {
    const subject: string
    var state: State
    /** Where the state began, and every step since. */
    ghost var start: State
    ghost var trace: seq<Event>

    ghost predicate Valid()
      reads this
    {
      Inv(subject, start) && state == Run(subject, start, trace)
    }

    constructor (subject: string, stream: Option<StreamConfig>)
      ensures Valid() && this.subject == subject && state == State(stream, map[], 0) && start == state && trace == []
    {
      this.subject := subject;
      state, start, trace := State(stream, map[], 0), State(stream, map[], 0), [];
    }

    ghost method Record(events: seq<Event>)
      requires Inv(subject, start) && state == Run(subject, Run(subject, start, trace), events)
      modifies this`trace
      ensures trace == old(trace) + events && state == Run(subject, start, trace)
      ensures Allowed(Run(subject, start, old(trace)).stream, state.stream, subject)
    {
      RunConcat(subject, start, trace, events);
      RunKeepsInv(subject, start, trace);
      RunIsAllowed(subject, Run(subject, start, trace), events);
      trace := trace + events;
    }

    method OtherPods(others: Interference, ghost p: nat)
      requires Valid() && forall s, i | 0 <= i < |others(s)| :: others(s)[i].pod != p
      modifies this`state, this`trace
      ensures Valid() && state == Run(subject, old(state), others(old(state)))
      ensures p in state.pods <==> p in old(state).pods
      ensures Allowed(old(state).stream, state.stream, subject)
      ensures p in state.pods ==> state.pods[p] == old(state).pods[p]
    {
      var events := others(state);
      OthersLeavePod(subject, state, events, p);
      state := Run(subject, state, events);
      Record(events);
    }

    /** StreamInfo at the start of a call: an error, no stream, or its configuration. */
    method StreamInfo(p: nat, fails: bool) returns (info: Option<StreamConfig>)
      requires Valid() && p !in state.pods
      modifies this`state, this`trace
      ensures Valid() && state == Apply(subject, old(state), Look(p, fails))
      ensures Allowed(old(state).stream, state.stream, subject)
      ensures info == if fails then None else old(state).stream
    {
      info := if fails then None else state.stream;
      state := Apply(subject, state, Look(p, fails));
      Record([Look(p, fails)]);
    }

    /** Creating a stream that already exists with the same configuration succeeds. */
    method AddStream(p: nat, cfg: StreamConfig, reply: Reply) returns (ok: bool)
      requires Valid() && p in state.pods && state.pods[p].Missing? && cfg == Wanted(subject)
      modifies this`state, this`trace
      ensures Valid() && state == Apply(subject, old(state), Add(p, reply))
      ensures Allowed(old(state).stream, state.stream, subject)
      ensures ok <==> state.pods[p] == Returned(true)
      ensures ok <==> reply.Acknowledged? && (old(state).stream.None? || old(state).stream == Some(cfg))
      ensures p in state.pods && (!ok ==> state.pods[p].LookAgain?)
    {
      var accepted := !reply.Refused? && (state.stream.None? || state.stream == Some(cfg));
      ok := accepted && reply.Acknowledged?;
      state := Apply(subject, state, Add(p, reply));
      Record([Add(p, reply)]);
    }

    /** StreamInfo after losing the race to create the stream. */
    method LookAfterRace(p: nat, fails: bool) returns (info: Option<StreamConfig>)
      requires Valid() && p in state.pods && state.pods[p].LookAgain?
      modifies this`state, this`trace
      ensures Valid() && state == Apply(subject, old(state), SecondLook(p, fails))
      ensures Allowed(old(state).stream, state.stream, subject)
      ensures info == if fails then None else old(state).stream
    {
      info := if fails then None else state.stream;
      state := Apply(subject, state, SecondLook(p, fails));
      Record([SecondLook(p, fails)]);
    }

    /** An update that would change storage or retention is rejected by the server. */
    method UpdateStream(p: nat, cfg: StreamConfig, reply: Reply) returns (ok: bool)
      requires Valid() && p in state.pods && state.pods[p] == Updating(cfg)
      modifies this`state, this`trace
      ensures Valid() && state == Apply(subject, old(state), Update(p, reply))
      ensures Allowed(old(state).stream, state.stream, subject)
      ensures state.pods[p] == Returned(ok)
      ensures ok <==>
                && reply.Acknowledged? && old(state).stream.Some?
                && old(state).stream.value.storage == cfg.storage && old(state).stream.value.retention == cfg.retention
    {
      var accepted := !reply.Refused? && state.stream.Some?
                      && state.stream.value.storage == cfg.storage && state.stream.value.retention == cfg.retention;
      ok := accepted && reply.Acknowledged?;
      state := Apply(subject, state, Update(p, reply));
      Record([Update(p, reply)]);
    }
  }

  /** What goes wrong for one call. */
  datatype Trouble = Trouble(firstLookFails: bool, add: Reply, secondLookFails: bool, update: Reply)

  /** The second half of the call: refuse, leave alone or repair what was read. */
  method Settle(js: JetStream, p: nat, info: StreamConfig, others: Interference, trouble: Trouble) returns (ok: bool)
    requires js.Valid() && p in js.state.pods && js.state.pods[p] == Decide(js.subject, info)
    requires forall s, i | 0 <= i < |others(s)| :: others(s)[i].pod != p
    modifies js
    ensures js.Valid() && js.start == old(js.start) && p in js.state.pods && js.state.pods[p] == Returned(ok)
    ensures Allowed(old(js.state).stream, js.state.stream, js.subject)
    ensures !Structural(info) ==> !ok
    ensures Contract(info, js.subject) ==> ok
    ensures
      && Structural(info) && trouble.update.Acknowledged?
      && old(js.state).stream.Some? && Structural(old(js.state).stream.value) ==>
      ok
  {
    if !info.storage.FileStorage? {
      return false;
    }
    if !info.retention.WorkQueue? {
      return false;
    }
    var cfg, changed := Reconcile(info, js.subject);
    if !changed {
      return true;
    }
    js.OtherPods(others, p);
    ok := js.UpdateStream(p, cfg, trouble.update);
  }

  /**
   * The call as written, the other pods' calls running between its steps: its steps and theirs are a run of the
   * machine, in which this pod's call returns what the method returns. So every theorem about the machine's runs
   * holds of it.
   */
  method EnsureAuditStream(js: JetStream, p: nat, others: Interference, trouble: Trouble) returns (ok: bool)
    requires js.Valid() && p !in js.state.pods
    requires forall s, i | 0 <= i < |others(s)| :: others(s)[i].pod != p
    modifies js
    ensures js.Valid() && js.start == old(js.start) && p in js.state.pods && js.state.pods[p] == Returned(ok)
    ensures ok ==> js.state.stream.Some? && Contract(js.state.stream.value, js.subject)
    ensures Allowed(old(js.state).stream, js.state.stream, js.subject)
    ensures old(InContract(js.state, js.subject)) && !trouble.firstLookFails ==> ok
    ensures old(js.state).stream.Some? && !Structural(old(js.state).stream.value) ==> !ok
    // without trouble of its own it succeeds, whatever the others do, unless the stream is structurally wrong
    ensures
      && !trouble.firstLookFails && !trouble.secondLookFails
      && trouble.add.Acknowledged? && trouble.update.Acknowledged? ==>
      (ok <==> old(js.state).stream.None? || Structural(old(js.state).stream.value))
  {
    var info := js.StreamInfo(p, trouble.firstLookFails);
    if trouble.firstLookFails {
      ok := false;
    } else if info.Some? {
      ok := Settle(js, p, info.value, others, trouble);
    } else {
      js.OtherPods(others, p);
      ok := js.AddStream(p, Wanted(js.subject), trouble.add);
      if !ok {
        js.OtherPods(others, p);
        info := js.LookAfterRace(p, trouble.secondLookFails);
        if info.Some? {
          ok := Settle(js, p, info.value, others, trouble);
        }
      }
    }
    RunKeepsInv(js.subject, js.start, js.trace);
  }
}
