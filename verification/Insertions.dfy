/**
 * Which messages the workers insert, in every run of the pipeline whatever goes wrong: the table is exactly the rows
 * of the messages inserted so far, and a message will be inserted again exactly as long as the stream or some worker
 * can still bring it to an insert.
 */
module Insertions {
  import opened Encoding
  import opened ClickHouse
  import Worker
  import opened AuditPipeline

  /** The stream sequences of some deliveries. */
  function Nos(msgs: seq<Worker.Msg>): (n: seq<nat>)
    ensures |n| == |msgs| && forall i | 0 <= i < |msgs| :: n[i] == msgs[i].seqNo
  {
    seq(|msgs|, i requires 0 <= i < |msgs| => msgs[i].seqNo)
  }

  // ---------------------------------------------------------------- what an event inserts

  /** The batch a worker's turn gets stored, confirmed or not. */
  function TurnInserts(size: nat, w: Worker.State, e: Worker.Event): seq<Worker.Msg> {
    match e
    case Arrive(_) => []
    case Receive(outcome) =>
      if w.running && w.ch != [] && |w.batch| + 1 >= size && Stores(outcome) then w.batch + [w.ch[0]] else []
    case Tick(outcome) => if w.running && Stores(outcome) then w.batch else []
    case Shutdown(outcome) => if w.running && Stores(outcome) then w.batch else []
  }

  /** The stream sequences of the messages an event inserts. */
  function Inserts(setup: Setup, s: State, e: Event): seq<nat> {
    match e
    case Turn(w, turn) => if w in s.workers then Nos(TurnInserts(setup.batchSize, s.workers[w], turn)) else []
    case CrashDuringInsert(w, outcome) =>
      if w in s.workers && Stores(outcome) then Nos(s.workers[w].batch) else []
    case _ => []
  }

  /** The stream sequences of all messages inserted in a run, in order. */
  function Ledger(setup: Setup, s: State, events: seq<Event>): seq<nat>
    decreases |events|
  {
    if events == [] then [] else Inserts(setup, s, events[0]) + Ledger(setup, Apply(setup, s, events[0]), events[1..])
  }

  predicate Known(published: seq<Row>, ledger: seq<nat>) {
    forall i | 0 <= i < |ledger| :: ledger[i] < |published|
  }

  function RowsOf(published: seq<Row>, ledger: seq<nat>): (rows: seq<Bytes>)
    requires Known(published, ledger)
    ensures |rows| == |ledger| && forall i | 0 <= i < |ledger| :: rows[i] == published[ledger[i]]
  {
    seq(|ledger|, i requires 0 <= i < |ledger| => published[ledger[i]])
  }

  // ---------------------------------------------------------------- the table is the ledger

  lemma GenuineRows(published: seq<Row>, msgs: seq<Worker.Msg>)
    requires Genuine(published, msgs)
    ensures Known(published, Nos(msgs)) && RowsOf(published, Nos(msgs)) == Worker.DataOf(msgs)
  {
  }

  /** A turn adds to the table the rows of exactly the messages it inserts. */
  lemma TurnStoresInserts(published: seq<Row>, size: nat, w: Worker.State, e: Worker.Event)
    requires Genuine(published, w.batch) && Genuine(published, w.ch) && !e.Arrive?
    ensures var msgs := TurnInserts(size, w, e);
      Genuine(published, msgs) && Worker.Step(size, w, e).stored == w.stored + Worker.DataOf(msgs)
  {
    var msgs := TurnInserts(size, w, e);
    assert Worker.DataOf([]) == [];
    if e.Receive? && w.running && w.ch != [] {
      var moved := w.(ch := w.ch[1..], batch := w.batch + [w.ch[0]]);
      assert Genuine(published, moved.batch);
      FlushStoresBatch(published, moved, e.outcome);
    } else if !e.Receive? && w.running {
      FlushStoresBatch(published, w, e.outcome);
    }
  }

  lemma FlushStoresBatch(published: seq<Row>, w: Worker.State, outcome: Insertion)
    requires Genuine(published, w.batch)
    ensures Worker.Flush(w, outcome).stored
         == if Stores(outcome) then w.stored + Worker.DataOf(w.batch) else w.stored
  {
    GenuineIsNewlineFree(published, w.batch);
    Worker.FlushStores(w, outcome);
  }

  lemma EventStoresInserts(setup: Setup, s: State, e: Event)
    requires WorkersGenuine(s)
    ensures Known(s.published, Inserts(setup, s, e))
    ensures Apply(setup, s, e).table == s.table + RowsOf(s.published, Inserts(setup, s, e))
  {
    if e.Turn? && e.worker in s.workers && !e.turn.Arrive? {
      var w := s.workers[e.worker];
      var before := w.(acked := [], naked := [], stored := s.table);
      TurnStoresInserts(s.published, setup.batchSize, before, e.turn);
      assert TurnInserts(setup.batchSize, before, e.turn) == TurnInserts(setup.batchSize, w, e.turn);
      GenuineRows(s.published, TurnInserts(setup.batchSize, w, e.turn));
    } else if e.CrashDuringInsert? && e.worker in s.workers && Stores(e.outcome) {
      var batch := s.workers[e.worker].batch;
      GenuineIsNewlineFree(s.published, batch);
      FramingRoundTrip(Worker.DataOf(batch));
      GenuineRows(s.published, batch);
    } else {
      QuietEventStoresNothing(setup, s, e);
    }
  }

  lemma QuietEventStoresNothing(setup: Setup, s: State, e: Event)
    requires !(e.Turn? && e.worker in s.workers && !e.turn.Arrive?)
    requires !(e.CrashDuringInsert? && e.worker in s.workers && Stores(e.outcome))
    ensures Inserts(setup, s, e) == [] && Apply(setup, s, e).table == s.table
  {
  }

  /** Two gains of the table one after the other. */
  lemma GainsAdd(
      published: seq<Row>, longer: seq<Row>, before: seq<Bytes>, between: seq<Bytes>, after: seq<Bytes>,
      first: seq<nat>, second: seq<nat>)
    requires published <= longer && Known(published, first) && Known(longer, second)
    requires between == before + RowsOf(published, first) && after == between + RowsOf(longer, second)
    ensures Known(longer, first + second) && after == before + RowsOf(longer, first + second)
  {
    assert RowsOf(longer, first) == RowsOf(published, first);
    assert RowsOf(longer, first + second) == RowsOf(longer, first) + RowsOf(longer, second);
  }

  lemma EventGains(setup: Setup, s: State, e: Event)
    requires Inv(setup, s)
    ensures var t := Apply(setup, s, e);
      && Inv(setup, t) && s.published <= t.published && Known(s.published, Inserts(setup, s, e))
      && t.table == s.table + RowsOf(s.published, Inserts(setup, s, e))
  {
    ApplyKeepsInv(setup, s, e);
    EventStoresInserts(setup, s, e);
    StepGrows(setup, s, e);
  }

  /**
   * In every run, however often messages are redelivered, inserts fail or stay unconfirmed, and workers crash: what
   * the table gains is, row for row, what the messages in the ledger say.
   */
  lemma {:induction false} TableIsLedger(setup: Setup, s: State, events: seq<Event>)
    requires Inv(setup, s)
    ensures var t := Run(setup, s, events);
      && s.published <= t.published && Known(t.published, Ledger(setup, s, events))
      && t.table == s.table + RowsOf(t.published, Ledger(setup, s, events))
    decreases |events|
  {
    if events != [] {
      var t := Apply(setup, s, events[0]);
      var later := Run(setup, t, events[1..]);
      EventGains(setup, s, events[0]);
      TableIsLedger(setup, t, events[1..]);
      var first, second := Inserts(setup, s, events[0]), Ledger(setup, t, events[1..]);
      GainsAdd(s.published, later.published, s.table, t.table, later.table, first, second);
    }
  }

  lemma {:induction false} LedgerConcat(setup: Setup, s: State, events: seq<Event>, more: seq<Event>)
    ensures Ledger(setup, s, events + more) == Ledger(setup, s, events) + Ledger(setup, Run(setup, s, events), more)
    decreases |events|
  {
    if events == [] {
      assert events + more == more;
    } else {
      assert (events + more)[1..] == events[1..] + more;
      LedgerConcat(setup, Apply(setup, s, events[0]), events[1..], more);
    }
  }

  // ---------------------------------------------------------------- when a message is done with

  /** A worker can still insert the message: it is in its batch, or in the channel of a running loop. */
  predicate CanInsert(w: Worker.State, n: nat) {
    n in Nos(w.batch) || (w.running && n in Nos(w.ch))
  }

  /** The message has left the stream and no worker can still insert it. */
  ghost predicate DoneWith(s: State, n: nat) {
    n !in s.stream && forall w | w in s.workers :: !CanInsert(s.workers[w], n)
  }

  /** No continuation whatever inserts the message. */
  ghost predicate NeverInserted(setup: Setup, s: State, n: nat) {
    forall events: seq<Event> :: n !in Ledger(setup, s, events)
  }

  lemma NosConcat(a: seq<Worker.Msg>, b: seq<Worker.Msg>)
    ensures Nos(a + b) == Nos(a) + Nos(b)
  {
  }

  /** A worker that cannot insert the message does not, and does not become able to by a turn of its own. */
  lemma TurnStaysUnable(size: nat, w: Worker.State, e: Worker.Event, n: nat)
    requires !CanInsert(w, n) && !e.Arrive?
    ensures n !in Nos(TurnInserts(size, w, e)) && !CanInsert(Worker.Step(size, w, e), n)
  {
    if e.Receive? && w.running && w.ch != [] {
      assert w.ch == [w.ch[0]] + w.ch[1..];
      NosConcat([w.ch[0]], w.ch[1..]);
      NosConcat(w.batch, [w.ch[0]]);
      assert Nos([w.ch[0]]) == [w.ch[0].seqNo];
      assert w.ch[0].seqNo == Nos(w.ch)[0];
    }
  }

  lemma ArrivalStaysUnable(size: nat, w: Worker.State, m: Worker.Msg, n: nat)
    requires !CanInsert(w, n) && m.seqNo != n
    ensures !CanInsert(Worker.Step(size, w, Worker.Arrive(m)), n)
  {
    NosConcat(w.ch, [m]);
    assert Nos([m]) == [m.seqNo];
  }

  lemma ApplyKeepsDone(setup: Setup, s: State, e: Event, n: nat)
    requires DoneWith(s, n) && n < |s.published|
    ensures DoneWith(Apply(setup, s, e), n) && n < |Apply(setup, s, e).published|
    ensures n !in Inserts(setup, s, e)
  {
    match e
    case Turn(w, turn) =>
      if w in s.workers && !turn.Arrive? {
        var before := s.workers[w].(acked := [], naked := [], stored := s.table);
        assert !CanInsert(before, n);
        TurnStaysUnable(setup.batchSize, before, turn, n);
        assert TurnInserts(setup.batchSize, before, turn) == TurnInserts(setup.batchSize, s.workers[w], turn);
      }
    case Deliver(w, m) =>
      if w in s.workers && m in s.stream && m < |s.published| {
        var before := s.workers[w].(acked := [], naked := [], stored := s.table);
        assert !CanInsert(before, n);
        ArrivalStaysUnable(setup.batchSize, before, Worker.Msg(s.deliveries, m, s.published[m]), n);
      }
    case WorkerStarts(w) => assert !CanInsert(Worker.Idle, n);
    case _ =>
  }

  lemma {:induction false} DoneStaysDone(setup: Setup, s: State, events: seq<Event>, n: nat)
    requires DoneWith(s, n) && n < |s.published|
    ensures n !in Ledger(setup, s, events)
    decreases |events|
  {
    if events != [] {
      ApplyKeepsDone(setup, s, events[0], n);
      DoneStaysDone(setup, Apply(setup, s, events[0]), events[1..], n);
    }
  }

  // ---------------------------------------------------------------- how it can still be inserted

  lemma LedgerStarts(setup: Setup, s: State, e: Event, more: seq<Event>)
    ensures Ledger(setup, s, [e] + more) == Inserts(setup, s, e) + Ledger(setup, Apply(setup, s, e), more)
  {
    assert ([e] + more)[1..] == more;
  }

  /** From a batch: the worker crashes while inserting it, and the insert was stored. */
  lemma BatchIsInserted(setup: Setup, s: State, w: nat, n: nat) returns (events: seq<Event>)
    requires w in s.workers && n in Nos(s.workers[w].batch)
    ensures n in Ledger(setup, s, events)
  {
    var e := CrashDuringInsert(w, StoredUnconfirmed);
    LedgerStarts(setup, s, e, []);
    events := [e] + [];
  }

  /** From a channel: the loop works it off up to the message, which is then in the batch, or inserted at once. */
  lemma {:induction false} ChannelIsInserted(setup: Setup, s: State, w: nat, n: nat) returns (events: seq<Event>)
    requires w in s.workers && s.workers[w].running && n in Nos(s.workers[w].ch)
    ensures n in Ledger(setup, s, events)
    decreases if w in s.workers then |s.workers[w].ch| else 0
  {
    var held := s.workers[w];
    var e := Turn(w, Worker.Receive(StoredUnconfirmed));
    var t := Apply(setup, s, e);
    var more: seq<Event>;
    assert held.ch == [held.ch[0]] + held.ch[1..];
    NosConcat([held.ch[0]], held.ch[1..]);
    NosConcat(held.batch, [held.ch[0]]);
    assert Nos([held.ch[0]]) == [held.ch[0].seqNo];
    ReceiveMoves(setup, s, w);
    if held.ch[0].seqNo != n {
      more := ChannelIsInserted(setup, t, w, n);
    } else if |held.batch| + 1 >= setup.batchSize {
      more := [];
      assert n in Inserts(setup, s, e);
    } else {
      more := BatchIsInserted(setup, t, w, n);
    }
    LedgerStarts(setup, s, e, more);
    events := [e] + more;
  }

  /** One message received: the channel is one shorter, and the message is in the batch unless it was inserted. */
  lemma ReceiveMoves(setup: Setup, s: State, w: nat)
    requires w in s.workers && s.workers[w].running && s.workers[w].ch != []
    ensures var held := s.workers[w];
      var t := Apply(setup, s, Turn(w, Worker.Receive(StoredUnconfirmed)));
      && w in t.workers && t.workers[w].running && t.workers[w].ch == held.ch[1..]
      && (|held.batch| + 1 < setup.batchSize ==> t.workers[w].batch == held.batch + [held.ch[0]])
  {
  }

  /** From the stream: a fresh worker is sent the message. */
  lemma StreamIsInserted(setup: Setup, s: State, n: nat) returns (events: seq<Event>)
    requires setup.batchSize > 0 && n < |s.published| && n in s.stream
    ensures n in Ledger(setup, s, events)
  {
    var s1 := Apply(setup, s, Crash(0));
    var s2 := Apply(setup, s1, WorkerStarts(0));
    var s3 := Apply(setup, s2, Deliver(0, n));
    var m := Worker.Msg(s.deliveries, n, s.published[n]);
    assert s2.workers[0] == Worker.Idle;
    assert s3.workers[0].running && s3.workers[0].ch == [] + [m];
    assert Nos(s3.workers[0].ch)[0] == n;
    var more := ChannelIsInserted(setup, s3, 0, n);
    LedgerStarts(setup, s2, Deliver(0, n), more);
    LedgerStarts(setup, s1, WorkerStarts(0), [Deliver(0, n)] + more);
    LedgerStarts(setup, s, Crash(0), [WorkerStarts(0)] + ([Deliver(0, n)] + more));
    events := [Crash(0)] + ([WorkerStarts(0)] + ([Deliver(0, n)] + more));
  }

  /**
   * Over all states: no continuation inserts a published message if and only if it has left the stream and no
   * worker has it in its batch, or in its channel while running.
   */
  lemma NeverInsertedIff(setup: Setup, s: State, n: nat)
    requires setup.batchSize > 0 && n < |s.published|
    ensures NeverInserted(setup, s, n) <==> DoneWith(s, n)
  {
    if DoneWith(s, n) {
      forall events: seq<Event> ensures n !in Ledger(setup, s, events) {
        DoneStaysDone(setup, s, events, n);
      }
    } else {
      var events: seq<Event>;
      if n in s.stream {
        events := StreamIsInserted(setup, s, n);
      } else {
        var w :| w in s.workers && CanInsert(s.workers[w], n);
        if n in Nos(s.workers[w].batch) {
          events := BatchIsInserted(setup, s, w, n);
        } else {
          events := ChannelIsInserted(setup, s, w, n);
        }
      }
      assert n in Ledger(setup, s, events);
    }
  }

  /** How often a run inserts a message. */
  function Copies(setup: Setup, s: State, events: seq<Event>, n: nat): nat {
    multiset(Ledger(setup, s, events))[n]
  }

  /**
   * So in any run of the pipeline the number of rows a message has is final, in every continuation, if and only if
   * the message is done with: a row may repeat exactly until then, whatever has been stored before.
   */
  lemma CopiesAreFinalIff(setup: Setup, events: seq<Event>, n: nat)
    requires setup.batchSize > 0 && n < |Run(setup, Empty, events).published|
    ensures (forall more: seq<Event> :: Copies(setup, Empty, events + more, n) == Copies(setup, Empty, events, n))
       <==> DoneWith(Run(setup, Empty, events), n)
  {
    var s := Run(setup, Empty, events);
    NeverInsertedIff(setup, s, n);
    forall more: seq<Event>
      ensures Copies(setup, Empty, events + more, n) == Copies(setup, Empty, events, n)
         <==> n !in Ledger(setup, s, more)
    {
      LedgerConcat(setup, Empty, events, more);
      assert n in Ledger(setup, s, more) <==> n in multiset(Ledger(setup, s, more));
    }
    if NeverInserted(setup, s, n) {
      forall more: seq<Event> ensures Copies(setup, Empty, events + more, n) == Copies(setup, Empty, events, n) {
        assert n !in Ledger(setup, s, more);
      }
    } else {
      var more: seq<Event> :| n in Ledger(setup, s, more);
      assert Copies(setup, Empty, events + more, n) != Copies(setup, Empty, events, n);
    }
  }
}
