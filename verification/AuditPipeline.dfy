/**
 * The audit pipeline end to end: API requests publish into a work-queue stream, any number of workers receive,
 * batch, insert and acknowledge, and messages, acknowledgements and workers may be lost at any point.
 *
 * The stream keeps everything: no age limit, new messages refused when full, a message dropped only when its
 * acknowledgement arrives.
 */
module AuditPipeline {
  import opened Common
  import opened Encoding
  import opened ClickHouse
  import Worker
  import opened HttpApi

  /** Events are serialised by an arbitrary encoder whose output, like JSON's, contains no raw newline. */
  type Row = r: Bytes | NEWLINE !in r witness []

  type Encoder = AuditEvent -> Row

  /** The stream's reply to a publish: not stored, stored, or stored with the reply lost. */
  datatype StreamReply = Full | StoredAcked | StoredReplyLost

  /**
   * A request answered: its id, the status the client saw, the event that was offered, and the stream sequence it
   * got if the stream took it.
   */
  datatype Answer = Answer(request: string, status: nat, event: AuditEvent, message: Option<nat>)

  /**
   * `published[n]` is the message that got stream sequence n; `stream` the sequences still retained; `acks` the
   * acknowledgements on their way.
   */
  datatype State = State(
    published: seq<Row>, stream: set<nat>, acks: set<nat>,
    workers: map<nat, Worker.State>, table: seq<Bytes>, answers: seq<Answer>, deliveries: nat)

  const Empty := State([], {}, {}, map[], [], [], 0)

  datatype Event =
    | Serve(route: Route, request: Request, caller: Option<string>, world: World, reply: StreamReply)
    | WorkerStarts(worker: nat)
    | Deliver(worker: nat, seqNo: nat)
    | Turn(worker: nat, turn: Worker.Event)
    | CrashDuringInsert(worker: nat, outcome: Insertion)
    | Crash(worker: nat)
    | AckArrives(seqNo: nat)
    | AckLost(seqNo: nat)

  datatype Setup = Setup(cfg: Config, lib: Library, encode: Encoder, batchSize: nat)

  function SeqNos(msgs: seq<Worker.Msg>): set<nat> {
    set i | 0 <= i < |msgs| :: msgs[i].seqNo
  }

  /** One worker turn: the table receives what it inserted, its new acknowledgements go on their way. */
  function WorkerTurn(setup: Setup, s: State, w: nat, turn: Worker.Event): State
    requires w in s.workers
  {
    var before := s.workers[w].(acked := [], naked := [], stored := s.table);
    var after := Worker.Step(setup.batchSize, before, turn);
    s.(workers := s.workers[w := after.(acked := [], naked := [], stored := [])],
       table := after.stored, acks := s.acks + SeqNos(after.acked))
  }

  function Apply(setup: Setup, s: State, e: Event): State {
    match e
    case Serve(route, request, caller, world, reply) =>
      var seen := world.(auditAccepts := reply.StoredAcked?);
      var verdict := Judge(setup.cfg, setup.lib, caller, route, request, seen);
      var event := EventOf(setup.cfg, setup.lib, request, verdict, seen);
      var status := ResponseOf(route, request, verdict, seen.auditAccepts).status;
      if reply.Full? then s.(answers := s.answers + [Answer(request.id, status, event, None)])
      else
        var answer := Answer(request.id, status, event, Some(|s.published|));
        s.(published := s.published + [setup.encode(event)], stream := s.stream + {|s.published|},
           answers := s.answers + [answer])
    case WorkerStarts(w) => if w in s.workers then s else s.(workers := s.workers[w := Worker.Idle])
    case Deliver(w, n) =>
      if w !in s.workers || n !in s.stream || n >= |s.published| then s
      else
        var m := Worker.Msg(s.deliveries, n, s.published[n]);
        WorkerTurn(setup, s, w, Worker.Arrive(m)).(deliveries := s.deliveries + 1)
    case Turn(w, turn) => if w !in s.workers || turn.Arrive? then s else WorkerTurn(setup, s, w, turn)
    case CrashDuringInsert(w, outcome) =>
      if w !in s.workers then s
      else
        var rows := if Stores(outcome) then Lines(Frame(Worker.DataOf(s.workers[w].batch))) else [];
        s.(workers := s.workers - {w}, table := s.table + rows)
    case Crash(w) => s.(workers := s.workers - {w})
    case AckArrives(n) => if n in s.acks then s.(stream := s.stream - {n}, acks := s.acks - {n}) else s
    case AckLost(n) => s.(acks := s.acks - {n})
  }

  function Run(setup: Setup, s: State, events: seq<Event>): State
    decreases |events|
  {
    if events == [] then s else Run(setup, Apply(setup, s, events[0]), events[1..])
  }

  // ---------------------------------------------------------------- the invariant

  /** A delivery carries the published bytes of its sequence number. */
  ghost predicate Genuine(published: seq<Row>, msgs: seq<Worker.Msg>) {
    forall i | 0 <= i < |msgs| :: msgs[i].seqNo < |published| && msgs[i].data == published[msgs[i].seqNo]
  }

  ghost predicate WorkersGenuine(s: State) {
    forall w | w in s.workers :: Genuine(s.published, s.workers[w].ch) && Genuine(s.published, s.workers[w].batch)
  }

  /** The message is where it cannot get lost: still in the stream, or in the table. */
  ghost predicate Safe(s: State, n: nat)
    requires n < |s.published|
  {
    n in s.stream || s.published[n] in s.table
  }

  ghost predicate AcksBacked(s: State) {
    forall n | n in s.acks :: n < |s.published| && s.published[n] in s.table
  }

  ghost predicate NothingLost(s: State) {
    forall n | 0 <= n < |s.published| :: Safe(s, n)
  }

  /** Everyone told 200 has the success event of that very request published. */
  ghost predicate AnswersBacked(setup: Setup, s: State) {
    forall i | 0 <= i < |s.answers| && s.answers[i].status == 200 ::
      && s.answers[i].event.outcome.Success? && s.answers[i].event.requestID == s.answers[i].request
      && s.answers[i].message.Some? && s.answers[i].message.value < |s.published|
      && s.published[s.answers[i].message.value] == setup.encode(s.answers[i].event)
  }

  /** No message answers for two requests: later answers have later messages. */
  predicate MessagesDistinct(s: State) {
    && (forall i | 0 <= i < |s.answers| && s.answers[i].message.Some? :: s.answers[i].message.value < |s.published|)
    && (forall i, j | 0 <= i < j < |s.answers| && s.answers[i].message.Some? && s.answers[j].message.Some? ::
          s.answers[i].message.value < s.answers[j].message.value)
  }

  ghost predicate Inv(setup: Setup, s: State) {
    WorkersGenuine(s) && AcksBacked(s) && NothingLost(s) && AnswersBacked(setup, s) && MessagesDistinct(s)
  }

  lemma GenuineIsNewlineFree(published: seq<Row>, msgs: seq<Worker.Msg>)
    requires Genuine(published, msgs)
    ensures Worker.NewlineFree(msgs)
  {
  }

  lemma GenuineRowsAreStored(published: seq<Row>, batch: seq<Worker.Msg>, stored: seq<Bytes>)
    requires Genuine(published, batch)
    ensures forall n | n in SeqNos(batch) :: n < |published| && published[n] in stored + Worker.DataOf(batch)
  {
    forall n | n in SeqNos(batch) ensures n < |published| && published[n] in stored + Worker.DataOf(batch) {
      var i :| 0 <= i < |batch| && batch[i].seqNo == n;
      assert (stored + Worker.DataOf(batch))[|stored| + i] == batch[i].data;
    }
  }

  /** A flush of genuine messages acknowledges only what it stored, and stores whole batches. */
  lemma FlushIsBacked(published: seq<Row>, w: Worker.State, outcome: Insertion)
    requires w.acked == [] && Genuine(published, w.batch)
    ensures var t := Worker.Flush(w, outcome);
      && w.stored <= t.stored && t.ch == w.ch && t.batch == []
      && forall n | n in SeqNos(t.acked) :: n < |published| && published[n] in t.stored
  {
    GenuineIsNewlineFree(published, w.batch);
    Worker.FlushStores(w, outcome);
    var t := Worker.Flush(w, outcome);
    if outcome.Confirmed? {
      GenuineRowsAreStored(published, w.batch, w.stored);
      assert t.acked == w.batch;
    } else {
      assert t.acked == [];
    }
  }

  lemma StepIsBacked(published: seq<Row>, size: nat, w: Worker.State, e: Worker.Event)
    requires w.acked == [] && Genuine(published, w.ch) && Genuine(published, w.batch)
    requires e.Arrive? ==> e.msg.seqNo < |published| && e.msg.data == published[e.msg.seqNo]
    ensures var t := Worker.Step(size, w, e);
      && w.stored <= t.stored && Genuine(published, t.ch) && Genuine(published, t.batch)
      && forall n | n in SeqNos(t.acked) :: n < |published| && published[n] in t.stored
  {
    match e
    case Arrive(m) =>
    case Receive(outcome) =>
      if w.running && w.ch != [] {
        var moved := w.(ch := w.ch[1..], batch := w.batch + [w.ch[0]]);
        assert Genuine(published, moved.batch) && Genuine(published, moved.ch);
        FlushIsBacked(published, moved, outcome);
      }
    case Tick(outcome) => FlushIsBacked(published, w, outcome);
    case Shutdown(outcome) => FlushIsBacked(published, w, outcome);
  }

  /** Nothing that is safe becomes unsafe when the table only grows and the stream is untouched. */
  lemma TableGrows(setup: Setup, s: State, t: State)
    requires Inv(setup, s)
    requires t.published == s.published && t.stream == s.stream && s.table <= t.table && t.answers == s.answers
    requires WorkersGenuine(t)
    requires forall n | n in t.acks :: n in s.acks || (n < |t.published| && t.published[n] in t.table)
    ensures Inv(setup, t)
  {
    forall n | 0 <= n < |t.published| ensures Safe(t, n) {
      assert Safe(s, n);
    }
  }

  lemma WorkerTurnKeepsInv(setup: Setup, s: State, w: nat, turn: Worker.Event)
    requires Inv(setup, s) && w in s.workers
    requires turn.Arrive? ==> turn.msg.seqNo < |s.published| && turn.msg.data == s.published[turn.msg.seqNo]
    ensures Inv(setup, WorkerTurn(setup, s, w, turn))
  {
    var before := s.workers[w].(acked := [], naked := [], stored := s.table);
    StepIsBacked(s.published, setup.batchSize, before, turn);
    TableGrows(setup, s, WorkerTurn(setup, s, w, turn));
  }

  lemma GenuineExtends(published: seq<Row>, row: Row, msgs: seq<Worker.Msg>)
    requires Genuine(published, msgs)
    ensures Genuine(published + [row], msgs)
  {
  }

  lemma PublishKeepsInv(setup: Setup, s: State, row: Row)
    requires Inv(setup, s)
    ensures Inv(setup, s.(published := s.published + [row], stream := s.stream + {|s.published|}))
  {
    var t := s.(published := s.published + [row], stream := s.stream + {|s.published|});
    forall w | w in t.workers
      ensures Genuine(t.published, t.workers[w].ch) && Genuine(t.published, t.workers[w].batch)
    {
      GenuineExtends(s.published, row, s.workers[w].ch);
      GenuineExtends(s.published, row, s.workers[w].batch);
    }
    forall n | 0 <= n < |t.published| ensures Safe(t, n) {
      if n < |s.published| {
        assert Safe(s, n);
      }
    }
  }

  /** One more answer, about the message published with it if there is one. */
  lemma AnswerKeepsInv(setup: Setup, s: State, a: Answer)
    requires Inv(setup, s)
    requires a.message.Some? ==> a.message.value == |s.published| - 1
    requires forall i | 0 <= i < |s.answers| && s.answers[i].message.Some? && a.message.Some? ::
               s.answers[i].message.value < a.message.value
    requires a.status == 200 ==>
      && a.event.outcome.Success? && a.event.requestID == a.request && a.message.Some?
      && s.published[a.message.value] == setup.encode(a.event)
    ensures Inv(setup, s.(answers := s.answers + [a]))
  {
    var t := s.(answers := s.answers + [a]);
    forall n | 0 <= n < |t.published| ensures Safe(t, n) {
      assert Safe(s, n);
    }
  }

  lemma ServeKeepsInv(setup: Setup, s: State, e: Event)
    requires Inv(setup, s) && e.Serve?
    ensures Inv(setup, Apply(setup, s, e))
  {
    var seen := e.world.(auditAccepts := e.reply.StoredAcked?);
    var verdict := Judge(setup.cfg, setup.lib, e.caller, e.route, e.request, seen);
    var event := EventOf(setup.cfg, setup.lib, e.request, verdict, seen);
    var status := ResponseOf(e.route, e.request, verdict, seen.auditAccepts).status;
    ResponseMatchesEvent(setup.cfg, setup.lib, e.caller, e.route, e.request, seen);
    if e.reply.Full? {
      AnswerKeepsInv(setup, s, Answer(e.request.id, status, event, None));
    } else {
      var row := setup.encode(event);
      PublishKeepsInv(setup, s, row);
      var t := s.(published := s.published + [row], stream := s.stream + {|s.published|});
      AnswerKeepsInv(setup, t, Answer(e.request.id, status, event, Some(|s.published|)));
    }
  }

  lemma ApplyKeepsInv(setup: Setup, s: State, e: Event)
    requires Inv(setup, s)
    ensures Inv(setup, Apply(setup, s, e))
  {
    match e
    case Serve(_, _, _, _, _) => ServeKeepsInv(setup, s, e);
    case WorkerStarts(w) => TableGrows(setup, s, Apply(setup, s, e));
    case Deliver(w, n) =>
      if w in s.workers && n in s.stream && n < |s.published| {
        var t := WorkerTurn(setup, s, w, Worker.Arrive(Worker.Msg(s.deliveries, n, s.published[n])));
        WorkerTurnKeepsInv(setup, s, w, Worker.Arrive(Worker.Msg(s.deliveries, n, s.published[n])));
        TableGrows(setup, t, Apply(setup, s, e));
      }
    case Turn(w, turn) => if w in s.workers && !turn.Arrive? { WorkerTurnKeepsInv(setup, s, w, turn); }
    case CrashDuringInsert(w, outcome) => if w in s.workers { TableGrows(setup, s, Apply(setup, s, e)); }
    case Crash(w) => TableGrows(setup, s, Apply(setup, s, e));
    case AckArrives(n) => AckKeepsInv(setup, s, n);
    case AckLost(n) => TableGrows(setup, s, Apply(setup, s, e));
  }

  lemma AckKeepsInv(setup: Setup, s: State, n: nat)
    requires Inv(setup, s)
    ensures Inv(setup, Apply(setup, s, AckArrives(n)))
  {
    var t := Apply(setup, s, AckArrives(n));
    forall m | 0 <= m < |t.published| ensures Safe(t, m) {
      assert Safe(s, m);
    }
  }

  lemma {:induction false} RunKeepsInv(setup: Setup, s: State, events: seq<Event>)
    requires Inv(setup, s)
    ensures Inv(setup, Run(setup, s, events))
    decreases |events|
  {
    if events != [] {
      ApplyKeepsInv(setup, s, events[0]);
      RunKeepsInv(setup, Apply(setup, s, events[0]), events[1..]);
    }
  }

  /** Answers and published messages are never taken back, and the table never shrinks. */
  lemma {:induction false} HistoryGrows(setup: Setup, s: State, events: seq<Event>)
    requires Inv(setup, s)
    ensures var t := Run(setup, s, events); s.answers <= t.answers && s.published <= t.published && s.table <= t.table
    decreases |events|
  {
    if events != [] {
      var t := Apply(setup, s, events[0]);
      ApplyKeepsInv(setup, s, events[0]);
      StepGrows(setup, s, events[0]);
      HistoryGrows(setup, t, events[1..]);
    }
  }

  lemma StepGrows(setup: Setup, s: State, e: Event)
    requires Inv(setup, s)
    ensures var t := Apply(setup, s, e); s.answers <= t.answers && s.published <= t.published && s.table <= t.table
  {
    if e.Turn? && e.worker in s.workers {
      var before := s.workers[e.worker].(acked := [], naked := [], stored := s.table);
      if !e.turn.Arrive? {
        StepIsBacked(s.published, setup.batchSize, before, e.turn);
      }
    }
  }

  // ---------------------------------------------------------------- theorems over every run

  /**
   * What serving a request puts on record, in every state: one answer with its event, and the event's message unless
   * the stream refused it. The client sees 200 exactly for an authenticated caller, an accepted address, a lookup
   * that found what was asked for, and a publication that was acknowledged.
   */
  lemma ServingIsRecorded(
      setup: Setup, s: State, route: Route, request: Request, caller: Option<string>, world: World, reply: StreamReply)
    ensures var t := Apply(setup, s, Serve(route, request, caller, world, reply));
      && |t.answers| == |s.answers| + 1 && t.answers[..|s.answers|] == s.answers
      && t.table == s.table && t.workers == s.workers && t.acks == s.acks
      && var answer := t.answers[|s.answers|];
         && answer.request == request.id
         && (if reply.Full? then answer.message.None? && t.published == s.published && t.stream == s.stream
             else
               && answer.message == Some(|s.published|) && t.published == s.published + [setup.encode(answer.event)]
               && t.stream == s.stream + {|s.published|})
         && var target := TargetOf(setup.cfg, setup.lib, route, request);
            (answer.status == 200 <==>
               && caller.Some? && target.Aim? && world.lookup(target.ip).Found? && reply.StoredAcked?
               && (route.Country? ==> world.lookup(target.ip).geo.country != ""))
  {
    var seen := world.(auditAccepts := reply.StoredAcked?);
    EveryRequestHasItsAnswer(setup.cfg, setup.lib, caller, route, request, seen);
    ResponseMatchesEvent(setup.cfg, setup.lib, caller, route, request, seen);
  }

  /**
   * End-to-end conservation: in every run, every request answered 200 has a message of its own, shared with no other
   * answer, which holds its success event with that request's id; at the time of the answer and in every later
   * state that message is in the stream or its row is in the table.
   */
  lemma EveryAnswerStaysAudited(setup: Setup, events: seq<Event>, more: seq<Event>, i: nat)
    requires i < |Run(setup, Empty, events).answers| && Run(setup, Empty, events).answers[i].status == 200
    ensures var answer := Run(setup, Empty, events).answers[i];
      var later := Run(setup, Run(setup, Empty, events), more);
      && answer.event.outcome.Success? && answer.event.requestID == answer.request
      && i < |later.answers| && later.answers[i] == answer
      && (forall j | 0 <= j < |later.answers| && j != i :: later.answers[j].message != answer.message)
      && answer.message.Some? && answer.message.value < |later.published|
      && var n := answer.message.value;
         later.published[n] == setup.encode(answer.event) && (n in later.stream || later.published[n] in later.table)
  {
    var s := Run(setup, Empty, events);
    RunKeepsInv(setup, Empty, events);
    RunKeepsInv(setup, s, more);
    HistoryGrows(setup, s, more);
    var later := Run(setup, s, more);
    assert later.answers[i] == s.answers[i];
    assert Safe(later, s.answers[i].message.value);
  }

  /** A message leaves the stream only when its bytes are in the table. */
  lemma LeavingTheStreamMeansStored(setup: Setup, events: seq<Event>, e: Event, n: nat)
    requires n in Run(setup, Empty, events).stream && n !in Apply(setup, Run(setup, Empty, events), e).stream
    ensures var s := Run(setup, Empty, events); n < |s.published| && s.published[n] in s.table && e == AckArrives(n)
  {
    RunKeepsInv(setup, Empty, events);
  }

  /** A new worker is sent the message, inserts it, and its acknowledgement arrives. */
  function Rescue(w: nat, n: nat): seq<Event> {
    [WorkerStarts(w), Deliver(w, n), Turn(w, Worker.Receive(Confirmed)), Turn(w, Worker.Tick(Confirmed)), AckArrives(n)]
  }

  /**
   * No message is ever stuck: from every state, whatever has failed before, a worker that starts, is sent the message
   * and inserts it takes it out of the stream and into the table, and touches nothing else that is retained.
   */
  lemma EveryMessageCanGetThrough(setup: Setup, s: State, w: nat, n: nat)
    requires setup.batchSize > 0 && n in s.stream && n < |s.published| && w !in s.workers
    ensures var t := Run(setup, s, Rescue(w, n));
      && t.stream == s.stream - {n} && t.table == s.table + [s.published[n]]
      && t.published == s.published && t.answers == s.answers && t.acks == s.acks - {n}
      && t.workers == s.workers[w := Worker.Idle]
  {
    var events := Rescue(w, n);
    var s1 := Apply(setup, s, events[0]);
    var s2 := Apply(setup, s1, events[1]);
    var s3 := Apply(setup, s2, events[2]);
    var s4 := Apply(setup, s3, events[3]);
    RescueInserts(setup, s, w, n);
    RunFive(setup, events, s, s1, s2, s3, s4, Apply(setup, s4, events[4]));
  }

  lemma RescueInserts(setup: Setup, s: State, w: nat, n: nat)
    requires setup.batchSize > 0 && n in s.stream && n < |s.published| && w !in s.workers
    ensures var sent := Apply(setup, Apply(setup, s, WorkerStarts(w)), Deliver(w, n));
      Apply(setup, Apply(setup, sent, Turn(w, Worker.Receive(Confirmed))), Turn(w, Worker.Tick(Confirmed)))
      == s.(workers := s.workers[w := Worker.Idle], table := s.table + [s.published[n]], acks := s.acks + {n},
            deliveries := s.deliveries + 1)
  {
    var m := Worker.Msg(s.deliveries, n, s.published[n]);
    var started := Apply(setup, s, WorkerStarts(w));
    DeliveryReachesIdle(setup, started, w, n);
    var sent := Apply(setup, started, Deliver(w, n));
    LoneMessageIsInserted(setup, sent, w, m);
    assert sent.workers[w := Worker.Idle] == s.workers[w := Worker.Idle];
  }

  lemma DeliveryReachesIdle(setup: Setup, s: State, w: nat, n: nat)
    requires setup.batchSize > 0 && w in s.workers && s.workers[w] == Worker.Idle
    requires n in s.stream && n < |s.published|
    ensures var m := Worker.Msg(s.deliveries, n, s.published[n]);
      Apply(setup, s, Deliver(w, n))
      == s.(workers := s.workers[w := Worker.Idle.(ch := [m])], deliveries := s.deliveries + 1)
  {
    var m := Worker.Msg(s.deliveries, n, s.published[n]);
    var after := Worker.Step(setup.batchSize, Worker.Idle.(stored := s.table), Worker.Arrive(m));
    assert after == Worker.Idle.(ch := [m], stored := s.table);
    assert SeqNos(after.acked) == {};
  }

  /** What a turn does to the pipeline, given what it does to the worker. */
  lemma TurnEffect(setup: Setup, s: State, w: nat, turn: Worker.Event, after: Worker.State)
    requires w in s.workers && !turn.Arrive?
    requires after == Worker.Step(setup.batchSize, s.workers[w].(acked := [], naked := [], stored := s.table), turn)
    ensures Apply(setup, s, Turn(w, turn))
         == s.(workers := s.workers[w := after.(acked := [], naked := [], stored := [])],
               table := after.stored, acks := s.acks + SeqNos(after.acked))
  {
  }

  lemma LoneMessageIsInserted(setup: Setup, s: State, w: nat, m: Worker.Msg)
    requires setup.batchSize > 0 && w in s.workers && s.workers[w] == Worker.Idle.(ch := [m]) && NEWLINE !in m.data
    ensures Apply(setup, Apply(setup, s, Turn(w, Worker.Receive(Confirmed))), Turn(w, Worker.Tick(Confirmed)))
         == s.(workers := s.workers[w := Worker.Idle], table := s.table + [m.data], acks := s.acks + {m.seqNo})
  {
    var size, receive, tick := setup.batchSize, Worker.Receive(Confirmed), Worker.Tick(Confirmed);
    var received := Worker.Step(size, Worker.Idle.(ch := [m], stored := s.table), receive);
    Worker.LoneMessageIsStored(size, s.table, m);
    TurnEffect(setup, s, w, receive, received);
    var t := Apply(setup, s, Turn(w, receive));
    assert t.workers[w] == received.(acked := [], naked := [], stored := []);
    var ticked := Worker.Step(size, t.workers[w].(stored := t.table), tick);
    TurnEffect(setup, t, w, tick, ticked);
    assert SeqNos([m]) == {m.seqNo} by {
      assert [m][0].seqNo == m.seqNo;
    }
    assert SeqNos([]) == {};
    if size == 1 {
      assert ticked == Worker.Idle.(stored := t.table);
    } else {
      assert ticked == Worker.Step(size, received, tick);
    }
    assert received.running && ticked.running;
    assert t.workers[w := Worker.Idle] == s.workers[w := Worker.Idle];
  }

  /** With batches of one, an idle worker takes one delivery all the way to the table and is idle again. */
  lemma OneDelivery(setup: Setup, s: State, row: Row, outcome: Insertion)
    requires setup.batchSize == 1 && s.published == [row] && 0 in s.stream && s.workers == map[0 := Worker.Idle]
    requires Stores(outcome)
    ensures var t := Apply(setup, Apply(setup, s, Deliver(0, 0)), Turn(0, Worker.Receive(outcome)));
      t.table == s.table + [row] && t.published == s.published && t.stream == s.stream && t.workers == s.workers
  {
    var m := Worker.Msg(s.deliveries, 0, row);
    var s1 := Apply(setup, s, Deliver(0, 0));
    assert s1.workers[0] == Worker.Idle.(ch := [m]);
    Worker.SingleMessageBatch(s.table, m, outcome);
    var t := Apply(setup, s1, Turn(0, Worker.Receive(outcome)));
    assert t.workers[0] == Worker.Idle;
  }

  /** A request, a delivery stored without the client learning of it, then the redelivery. */
  function StoredTwice(request: Event): seq<Event> {
    [request, WorkerStarts(0), Deliver(0, 0), Turn(0, Worker.Receive(StoredUnconfirmed)),
     Deliver(0, 0), Turn(0, Worker.Receive(Confirmed))]
  }

  /**
   * Delivery is at least once, not exactly once: whatever the first request is, if the stream takes its event, an
   * insert that was stored but not confirmed is handed back, delivered again and stored twice.
   */
  lemma RowsMayRepeat(setup: Setup, request: Event)
    requires setup.batchSize == 1 && request.Serve? && !request.reply.Full?
    ensures var s := Run(setup, Empty, StoredTwice(request));
      |s.published| == 1 && s.table == [s.published[0], s.published[0]]
  {
    var events := StoredTwice(request);
    var s0 := Apply(setup, Empty, request);
    var row := s0.published[0];
    assert s0.published == [row] && s0.stream == {0} && s0.table == [] && s0.workers == map[];
    var s1 := Apply(setup, s0, events[1]);
    var s2 := Apply(setup, s1, events[2]);
    var s3 := Apply(setup, s2, events[3]);
    var s4 := Apply(setup, s3, events[4]);
    var s5 := Apply(setup, s4, events[5]);
    OneDelivery(setup, s1, row, StoredUnconfirmed);
    OneDelivery(setup, s3, row, Confirmed);
    RunFive(setup, events[1..], s0, s1, s2, s3, s4, s5);
  }

  /** A delivery whose worker dies after its insert went through: the row is there, the worker and the ACK are not. */
  function DiesInserting(w: nat, n: nat): seq<Event> {
    [WorkerStarts(w), Deliver(w, n), Turn(w, Worker.Receive(Confirmed)), CrashDuringInsert(w, StoredUnconfirmed)]
  }

  /** So a crash at the wrong moment repeats a row too, from every state that still has the message. */
  lemma CrashMayRepeatARow(setup: Setup, s: State, w: nat, n: nat)
    requires setup.batchSize > 1 && n in s.stream && n < |s.published| && w !in s.workers
    ensures var row := s.published[n];
      var crashed := Run(setup, s, DiesInserting(w, n));
      && crashed == s.(table := s.table + [row], deliveries := s.deliveries + 1)
      && Run(setup, crashed, Rescue(w, n)).table == s.table + [row, row]
  {
    var m := Worker.Msg(s.deliveries, n, s.published[n]);
    var events := DiesInserting(w, n);
    var started := Apply(setup, s, events[0]);
    var sent := Apply(setup, started, events[1]);
    var batched := Apply(setup, sent, events[2]);
    var crashed := Apply(setup, batched, events[3]);
    DeliveryReachesIdle(setup, started, w, n);
    LoneMessageIsBatched(setup, sent, w, m);
    CrashStores(setup, batched, w, m);
    assert crashed.workers == s.workers;
    RunFour(setup, events, s, started, sent, batched, crashed);
    EveryMessageCanGetThrough(setup, crashed, w, n);
  }

  /** A delivery inserted and acknowledged, but the acknowledgement never arrives. */
  function LosesItsAck(w: nat, n: nat): seq<Event> {
    [WorkerStarts(w), Deliver(w, n), Turn(w, Worker.Receive(Confirmed)), Turn(w, Worker.Tick(Confirmed)), AckLost(n)]
  }

  /** And so does a lost acknowledgement: the message stays in the stream and another worker inserts it again. */
  lemma LostAckMayRepeatARow(setup: Setup, s: State, w: nat, other: nat, n: nat)
    requires setup.batchSize > 0 && n in s.stream && n < |s.published|
    requires w !in s.workers && other !in s.workers && w != other
    ensures var row := s.published[n];
      var lost := Run(setup, s, LosesItsAck(w, n));
      && lost.stream == s.stream && lost.table == s.table + [row] && Apply(setup, lost, AckArrives(n)) == lost
      && Run(setup, lost, Rescue(other, n)).table == s.table + [row, row]
  {
    var events := LosesItsAck(w, n);
    var s1 := Apply(setup, s, events[0]);
    var s2 := Apply(setup, s1, events[1]);
    var s3 := Apply(setup, s2, events[2]);
    var s4 := Apply(setup, s3, events[3]);
    var lost := Apply(setup, s4, events[4]);
    RescueInserts(setup, s, w, n);
    RunFive(setup, events, s, s1, s2, s3, s4, lost);
    EveryMessageCanGetThrough(setup, lost, other, n);
  }

  lemma LoneMessageIsBatched(setup: Setup, s: State, w: nat, m: Worker.Msg)
    requires setup.batchSize > 1 && w in s.workers && s.workers[w] == Worker.Idle.(ch := [m]) && NEWLINE !in m.data
    ensures Apply(setup, s, Turn(w, Worker.Receive(Confirmed)))
         == s.(workers := s.workers[w := Worker.Idle.(batch := [m])])
  {
    var received := Worker.Step(setup.batchSize, Worker.Idle.(ch := [m], stored := s.table), Worker.Receive(Confirmed));
    Worker.LoneMessageIsStored(setup.batchSize, s.table, m);
    TurnEffect(setup, s, w, Worker.Receive(Confirmed), received);
    assert SeqNos([]) == {};
  }

  lemma CrashStores(setup: Setup, s: State, w: nat, m: Worker.Msg)
    requires w in s.workers && s.workers[w] == Worker.Idle.(batch := [m]) && NEWLINE !in m.data
    ensures Apply(setup, s, CrashDuringInsert(w, StoredUnconfirmed))
         == s.(workers := s.workers - {w}, table := s.table + [m.data])
  {
    assert Worker.DataOf([m]) == [m.data];
    FramingRoundTrip([m.data]);
  }

  lemma RunFour(setup: Setup, events: seq<Event>, s0: State, s1: State, s2: State, s3: State, s4: State)
    requires |events| == 4
    requires Apply(setup, s0, events[0]) == s1 && Apply(setup, s1, events[1]) == s2
    requires Apply(setup, s2, events[2]) == s3 && Apply(setup, s3, events[3]) == s4
    ensures Run(setup, s0, events) == s4
  {
    assert Run(setup, s4, events[4..]) == s4;
    assert events[3..][1..] == events[4..];
    assert Run(setup, s3, events[3..]) == s4;
    assert events[2..][1..] == events[3..];
    assert Run(setup, s2, events[2..]) == s4;
    assert events[1..][1..] == events[2..];
    assert Run(setup, s1, events[1..]) == s4;
  }

  lemma RunFive(setup: Setup, events: seq<Event>, s0: State, s1: State, s2: State, s3: State, s4: State, s5: State)
    requires |events| == 5
    requires Apply(setup, s0, events[0]) == s1 && Apply(setup, s1, events[1]) == s2 && Apply(setup, s2, events[2]) == s3
    requires Apply(setup, s3, events[3]) == s4 && Apply(setup, s4, events[4]) == s5
    ensures Run(setup, s0, events) == s5
  {
    assert Run(setup, s5, events[5..]) == s5;
    assert events[4..][1..] == events[5..];
    assert Run(setup, s4, events[4..]) == s5;
    assert events[3..][1..] == events[4..];
    assert Run(setup, s3, events[3..]) == s5;
    assert events[2..][1..] == events[3..];
    assert Run(setup, s2, events[2..]) == s5;
    assert events[1..][1..] == events[2..];
    assert Run(setup, s1, events[1..]) == s5;
  }
}
