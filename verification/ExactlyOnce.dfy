/**
 * When the at-least-once pipeline stores every message once, retries included: inserts are stored or refused but not
 * left in doubt, no acknowledgement is lost, and a message is delivered again only after whoever had it has given it
 * back. Rejected inserts, refused deliveries, and crashes before storing may repeat any number of times.
 */
module ExactlyOnce {
  import opened ClickHouse
  import Worker
  import opened AuditPipeline
  import opened Insertions

  /** What a worker holds, oldest first: its batch, then its channel. */
  function Queue(w: Worker.State): seq<Worker.Msg> {
    w.batch + w.ch
  }

  predicate Distinct(n: seq<nat>) {
    forall i, j | 0 <= i < j < |n| :: n[i] != n[j]
  }

  // ---------------------------------------------------------------- orderly runs

  predicate OrderlyOutcome(o: Insertion) {
    !o.StoredUnconfirmed?
  }

  predicate OrderlyTurn(e: Worker.Event) {
    match e
    case Arrive(_) => true
    case Receive(outcome) => OrderlyOutcome(outcome)
    case Tick(outcome) => OrderlyOutcome(outcome)
    case Shutdown(outcome) => OrderlyOutcome(outcome)
  }

  ghost predicate HeldByAWorker(s: State, n: nat) {
    exists w :: w in s.workers && n in Nos(Queue(s.workers[w]))
  }

  /** What the surroundings can see to before each event. */
  ghost predicate OrderlyEvent(s: State, e: Event) {
    match e
    case Turn(_, turn) => OrderlyTurn(turn)
    case CrashDuringInsert(_, outcome) => !Stores(outcome)
    case Deliver(_, n) => n !in s.acks && !HeldByAWorker(s, n)
    case AckLost(n) => n !in s.acks
    case _ => true
  }

  ghost predicate Orderly(setup: Setup, s: State, events: seq<Event>)
    decreases |events|
  {
    events == [] || (OrderlyEvent(s, events[0]) && Orderly(setup, Apply(setup, s, events[0]), events[1..]))
  }

  // ---------------------------------------------------------------- the ledger

  /** A worker holds nothing twice and nothing already stored. */
  ghost predicate QueueOk(published: seq<Row>, ledger: seq<nat>, q: seq<Worker.Msg>) {
    Genuine(published, q) && Distinct(ledger + Nos(q))
  }

  ghost predicate Apart(p: seq<Worker.Msg>, q: seq<Worker.Msg>) {
    forall n | n in Nos(p) :: n !in Nos(q)
  }

  ghost predicate WorkersOk(s: State, ledger: seq<nat>) {
    && (forall w | w in s.workers :: QueueOk(s.published, ledger, Queue(s.workers[w])))
    && (forall v, w | v in s.workers && w in s.workers && v != w :: Apart(Queue(s.workers[v]), Queue(s.workers[w])))
  }

  /** What is acknowledged, or has left the stream, is in the ledger; and what is in the ledger is one of the two. */
  ghost predicate StreamOk(s: State, ledger: seq<nat>) {
    && (forall n | n in s.acks :: n in ledger)
    && (forall n | 0 <= n < |s.published| :: n in s.stream || n in ledger)
    && (forall n | n in ledger :: n < |s.published| && (n in s.acks || n !in s.stream))
  }

  ghost predicate OnceOk(s: State, ledger: seq<nat>) {
    Distinct(ledger) && WorkersOk(s, ledger) && StreamOk(s, ledger)
  }

  // ---------------------------------------------------------------- one worker turn

  /** The worker disposed of the first k messages it held: inserted and acknowledged them, or handed them back. */
  ghost predicate Disposes(size: nat, before: Worker.State, e: Worker.Event, k: nat, stores: bool) {
    var q, after := Queue(before), Worker.Step(size, before, e);
    && k <= |q| && Queue(after) == q[k..]
    && after.acked == before.acked + (if stores then q[..k] else [])
    && TurnInserts(size, before, e) == if stores then q[..k] else []
  }

  lemma FlushDisposes(w: Worker.State, outcome: Insertion)
    requires OrderlyOutcome(outcome)
    ensures var q, after := Queue(w), Worker.Flush(w, outcome);
      && q[..|w.batch|] == w.batch && Queue(after) == q[|w.batch|..]
      && after.acked == w.acked + (if outcome.Confirmed? then w.batch else [])
  {
    assert Queue(w)[..|w.batch|] == w.batch && Queue(w)[|w.batch|..] == w.ch;
    assert Queue(Worker.Flush(w, outcome)) == [] + w.ch;
  }

  lemma TurnDisposes(size: nat, w: Worker.State, e: Worker.Event) returns (k: nat, stores: bool)
    requires OrderlyTurn(e) && !e.Arrive?
    ensures Disposes(size, w, e, k, stores)
  {
    k, stores := 0, false;
    if !w.running || (e.Receive? && w.ch == []) {
      assert Queue(w)[0..] == Queue(w);
    } else if e.Receive? {
      var moved := w.(ch := w.ch[1..], batch := w.batch + [w.ch[0]]);
      assert Queue(moved) == Queue(w);
      if |moved.batch| >= size {
        k, stores := |moved.batch|, e.outcome.Confirmed?;
        FlushDisposes(moved, e.outcome);
      } else {
        assert Queue(w)[0..] == Queue(w);
      }
    } else {
      k, stores := |w.batch|, e.outcome.Confirmed?;
      FlushDisposes(w, e.outcome);
    }
  }

  // ---------------------------------------------------------------- the ledger kept

  /** A distinct list without its middle, and without its end. */
  lemma DistinctParts(a: seq<nat>, b: seq<nat>, c: seq<nat>)
    requires Distinct(a + (b + c))
    ensures Distinct(a + c) && Distinct(a + b)
  {
    var whole := a + (b + c);
    assert a + b == whole[..|a + b|];
    forall i, j | 0 <= i < j < |a + c| ensures (a + c)[i] != (a + c)[j] {
      assert whole[if i < |a| then i else i + |b|] == (a + c)[i];
      assert whole[if j < |a| then j else j + |b|] == (a + c)[j];
    }
  }

  lemma GenuineParts(published: seq<Row>, q: seq<Worker.Msg>, k: nat)
    requires Genuine(published, q) && k <= |q|
    ensures Genuine(published, q[..k]) && Genuine(published, q[k..])
  {
  }

  lemma NosSplit(q: seq<Worker.Msg>, k: nat)
    requires k <= |q|
    ensures Nos(q) == Nos(q[..k]) + Nos(q[k..])
  {
  }

  /** Dropping the front of a queue, or moving it to the ledger, leaves the rest as it was. */
  lemma QueueAdvances(
      published: seq<Row>, ledger: seq<nat>, q: seq<Worker.Msg>, k: nat, stores: bool)
    requires QueueOk(published, ledger, q) && k <= |q|
    ensures QueueOk(published, if stores then ledger + Nos(q[..k]) else ledger, q[k..])
    ensures Distinct(ledger + Nos(q[..k]))
  {
    NosSplit(q, k);
    DistinctSplit(ledger, Nos(q), Nos(q[..k]), Nos(q[k..]));
    GenuineParts(published, q, k);
  }

  lemma DistinctSplit(ledger: seq<nat>, all: seq<nat>, front: seq<nat>, rest: seq<nat>)
    requires all == front + rest && Distinct(ledger + all)
    ensures Distinct(ledger + front) && Distinct(ledger + rest) && Distinct((ledger + front) + rest)
    ensures forall n | n in rest :: n in all
  {
    DistinctParts(ledger, front, rest);
    assert ledger + (front + rest) == ledger + front + rest;
  }

  /** What another worker stores does not concern this one's queue. */
  lemma OtherQueueUndisturbed(
      published: seq<Row>, ledger: seq<nat>, p: seq<Worker.Msg>, q: seq<Worker.Msg>, k: nat)
    requires QueueOk(published, ledger, p) && QueueOk(published, ledger, q)
    requires Apart(p, q) && k <= |q|
    ensures QueueOk(published, ledger + Nos(q[..k]), p)
  {
    var front := Nos(q[..k]);
    var all := ledger + front + Nos(p);
    forall i | 0 <= i < |front| ensures front[i] in Nos(q) && front[i] !in ledger {
      assert Nos(q)[i] == front[i];
      assert (ledger + Nos(q))[|ledger| + i] == front[i];
      forall j | 0 <= j < |ledger| ensures ledger[j] != front[i] {
        assert (ledger + Nos(q))[j] == ledger[j];
      }
    }
    assert Distinct(ledger + front) by {
      QueueAdvances(published, ledger, q, k, true);
    }
    forall i, j | 0 <= i < j < |all| ensures all[i] != all[j] {
      if j < |ledger + front| {
        assert all[i] == (ledger + front)[i] && all[j] == (ledger + front)[j];
      } else {
        var m := j - |ledger + front|;
        assert all[j] == Nos(p)[m] == (ledger + Nos(p))[|ledger| + m];
        if i < |ledger| {
          assert all[i] == (ledger + Nos(p))[i];
        } else if i < |ledger + front| {
          assert all[i] == front[i - |ledger|];
          assert Nos(p)[m] in Nos(p);
        } else {
          assert all[i] == (ledger + Nos(p))[i - |front|];
        }
      }
    }
  }

  lemma AdvancedStaysApart(p: seq<Worker.Msg>, q: seq<Worker.Msg>, k: nat)
    requires k <= |q|
    ensures Apart(p, q) ==> Apart(p, q[k..])
    ensures Apart(q, p) ==> Apart(q[k..], p)
  {
    forall n | n in Nos(q[k..]) ensures n in Nos(q) {
      var i :| 0 <= i < |q[k..]| && Nos(q[k..])[i] == n;
      assert Nos(q)[k + i] == n;
    }
  }

  /** The workers after one of them disposed of its front. */
  lemma DisposalKeepsWorkers(
      s: State, t: State, ledger: seq<nat>, w: nat, k: nat, stores: bool)
    requires OnceOk(s, ledger) && w in s.workers && k <= |Queue(s.workers[w])|
    requires t.published == s.published && t.workers.Keys == s.workers.Keys
    requires Queue(t.workers[w]) == Queue(s.workers[w])[k..]
    requires forall v | v in s.workers && v != w :: t.workers[v] == s.workers[v]
    ensures WorkersOk(t, if stores then ledger + Nos(Queue(s.workers[w])[..k]) else ledger)
  {
    var q := Queue(s.workers[w]);
    var more := if stores then ledger + Nos(q[..k]) else ledger;
    QueueAdvances(s.published, ledger, q, k, stores);
    forall v | v in t.workers ensures QueueOk(t.published, more, Queue(t.workers[v])) {
      if v != w && stores {
        OtherQueueUndisturbed(s.published, ledger, Queue(s.workers[v]), q, k);
      }
    }
    forall u, v | u in t.workers && v in t.workers && u != v
      ensures Apart(Queue(t.workers[u]), Queue(t.workers[v]))
    {
      assert Apart(Queue(s.workers[u]), Queue(s.workers[v]));
      if u == w {
        AdvancedStaysApart(Queue(s.workers[v]), q, k);
      } else if v == w {
        AdvancedStaysApart(Queue(s.workers[u]), q, k);
      }
    }
  }

  lemma DisposalKeepsOnce(s: State, t: State, ledger: seq<nat>, w: nat, k: nat, stores: bool)
    requires OnceOk(s, ledger) && w in s.workers && k <= |Queue(s.workers[w])|
    requires t.published == s.published && t.stream == s.stream && t.workers.Keys == s.workers.Keys
    requires Queue(t.workers[w]) == Queue(s.workers[w])[k..]
    requires forall v | v in s.workers && v != w :: t.workers[v] == s.workers[v]
    requires t.acks == s.acks + SeqNos(if stores then Queue(s.workers[w])[..k] else [])
    ensures OnceOk(t, if stores then ledger + Nos(Queue(s.workers[w])[..k]) else ledger)
  {
    var q := Queue(s.workers[w]);
    DisposalKeepsWorkers(s, t, ledger, w, k, stores);
    if stores {
      QueueAdvances(s.published, ledger, q, k, true);
      GenuineParts(s.published, q, k);
      AckedIsInLedger(ledger, q[..k]);
    }
  }

  /** What a turn does to the pipeline, in terms of the messages the worker disposes of. */
  lemma TurnEffect(setup: Setup, s: State, w: nat, turn: Worker.Event) returns (k: nat, stores: bool)
    requires w in s.workers && OrderlyTurn(turn) && !turn.Arrive?
    ensures var q, t := Queue(s.workers[w]), WorkerTurn(setup, s, w, turn);
      && k <= |q| && Queue(t.workers[w]) == q[k..]
      && t.acks == s.acks + SeqNos(if stores then q[..k] else [])
      && Inserts(setup, s, Turn(w, turn)) == Nos(if stores then q[..k] else [])
  {
    var before := s.workers[w].(acked := [], naked := [], stored := s.table);
    k, stores := TurnDisposes(setup.batchSize, before, turn);
    var disposed := if stores then Queue(before)[..k] else [];
    assert [] + disposed == disposed;
    assert Queue(before) == Queue(s.workers[w]);
    assert TurnInserts(setup.batchSize, before, turn) == TurnInserts(setup.batchSize, s.workers[w], turn);
  }

  lemma TurnKeepsOnce(setup: Setup, s: State, ledger: seq<nat>, w: nat, turn: Worker.Event)
    requires OnceOk(s, ledger) && w in s.workers && OrderlyTurn(turn) && !turn.Arrive?
    ensures OnceOk(WorkerTurn(setup, s, w, turn), ledger + Inserts(setup, s, Turn(w, turn)))
  {
    var k, stores := TurnEffect(setup, s, w, turn);
    DisposalKeepsOnce(s, WorkerTurn(setup, s, w, turn), ledger, w, k, stores);
    assert ledger + Nos([]) == ledger;
  }

  lemma AckedIsInLedger(ledger: seq<nat>, front: seq<Worker.Msg>)
    ensures forall n | n in SeqNos(front) :: n in ledger + Nos(front)
    ensures forall n | n in ledger + Nos(front) :: n in ledger || n in SeqNos(front)
  {
    forall n | n in SeqNos(front) ensures n in ledger + Nos(front) {
      var i :| 0 <= i < |front| && front[i].seqNo == n;
      assert (ledger + Nos(front))[|ledger| + i] == n;
    }
  }

  /** A delivery of a message nobody has, taken or refused. */
  lemma DeliveryKeepsOnce(setup: Setup, s: State, ledger: seq<nat>, w: nat, n: nat)
    requires OnceOk(s, ledger) && n !in s.acks && !HeldByAWorker(s, n)
    ensures OnceOk(Apply(setup, s, Deliver(w, n)), ledger)
  {
    var t := Apply(setup, s, Deliver(w, n));
    if w in s.workers && n in s.stream && n < |s.published| {
      var m := Worker.Msg(s.deliveries, n, s.published[n]);
      var before := s.workers[w].(acked := [], naked := [], stored := s.table);
      var after := Worker.Step(setup.batchSize, before, Worker.Arrive(m));
      assert Queue(t.workers[w]) == Queue(after);
      if after.ch != before.ch {
        assert Queue(after) == Queue(s.workers[w]) + [m];
        ArrivalKeepsWorkers(s, t, ledger, w, m);
      } else {
        assert Queue(after) == Queue(s.workers[w]);
      }
    }
  }

  lemma ArrivalKeepsWorkers(s: State, t: State, ledger: seq<nat>, w: nat, m: Worker.Msg)
    requires WorkersOk(s, ledger) && w in s.workers && m.seqNo !in ledger && !HeldByAWorker(s, m.seqNo)
    requires m.seqNo < |s.published| && m.data == s.published[m.seqNo]
    requires t.published == s.published && t.workers.Keys == s.workers.Keys
    requires Queue(t.workers[w]) == Queue(s.workers[w]) + [m]
    requires forall v | v in s.workers && v != w :: t.workers[v] == s.workers[v]
    ensures WorkersOk(t, ledger)
  {
    assert m.seqNo !in Nos(Queue(s.workers[w]));
    ArrivalJoins(s.published, ledger, Queue(s.workers[w]), m);
    assert Nos(Queue(t.workers[w])) == Nos(Queue(s.workers[w])) + [m.seqNo];
    forall v | v in s.workers && v != w
      ensures Apart(Queue(t.workers[v]), Queue(t.workers[w])) && Apart(Queue(t.workers[w]), Queue(t.workers[v]))
    {
      assert Apart(Queue(s.workers[v]), Queue(s.workers[w])) && Apart(Queue(s.workers[w]), Queue(s.workers[v]));
      assert m.seqNo !in Nos(Queue(s.workers[v]));
    }
  }

  lemma ArrivalJoins(published: seq<Row>, ledger: seq<nat>, q: seq<Worker.Msg>, m: Worker.Msg)
    requires QueueOk(published, ledger, q) && m.seqNo !in ledger && m.seqNo !in Nos(q)
    requires m.seqNo < |published| && m.data == published[m.seqNo]
    ensures QueueOk(published, ledger, q + [m])
  {
    assert Nos(q + [m]) == Nos(q) + [m.seqNo];
    assert ledger + Nos(q + [m]) == ledger + Nos(q) + [m.seqNo];
    forall i | 0 <= i < |ledger + Nos(q)| ensures (ledger + Nos(q))[i] != m.seqNo {
      if i < |ledger| {
        assert ledger[i] in ledger;
      } else {
        assert Nos(q)[i - |ledger|] in Nos(q);
      }
    }
  }

  lemma PublishKeepsOnce(s: State, t: State, ledger: seq<nat>)
    requires OnceOk(s, ledger)
    requires s.published <= t.published && t.workers == s.workers && t.table == s.table && t.acks == s.acks
    requires s.stream <= t.stream && forall n | |s.published| <= n < |t.published| :: n in t.stream
    requires forall n | n in t.stream && n !in s.stream :: |s.published| <= n
    ensures OnceOk(t, ledger)
  {
    forall w | w in t.workers ensures QueueOk(t.published, ledger, Queue(t.workers[w])) {
      assert QueueOk(s.published, ledger, Queue(s.workers[w]));
    }
  }

  lemma WorkersGoneKeepsOnce(s: State, t: State, ledger: seq<nat>)
    requires OnceOk(s, ledger) && t == s.(workers := t.workers)
    requires forall w | w in t.workers :: Queue(t.workers[w]) == [] || (w in s.workers && t.workers[w] == s.workers[w])
    ensures OnceOk(t, ledger)
  {
    forall w | w in t.workers ensures QueueOk(t.published, ledger, Queue(t.workers[w])) {
      if Queue(t.workers[w]) == [] {
        assert ledger + Nos(Queue(t.workers[w])) == ledger;
      }
    }
  }

  lemma AckKeepsOnce(s: State, ledger: seq<nat>, n: nat)
    requires OnceOk(s, ledger) && n in s.acks
    ensures OnceOk(s.(stream := s.stream - {n}, acks := s.acks - {n}), ledger)
  {
  }

  /** The events that insert nothing. */
  lemma QuietEventKeepsOnce(setup: Setup, s: State, ledger: seq<nat>, e: Event)
    requires OnceOk(s, ledger) && OrderlyEvent(s, e) && !e.Turn?
    ensures OnceOk(Apply(setup, s, e), ledger)
  {
    match e
    case Serve(_, _, _, _, _) => PublishKeepsOnce(s, Apply(setup, s, e), ledger);
    case WorkerStarts(w) => WorkersGoneKeepsOnce(s, Apply(setup, s, e), ledger);
    case Deliver(w, n) => DeliveryKeepsOnce(setup, s, ledger, w, n);
    case CrashDuringInsert(w, outcome) =>
      if w in s.workers {
        assert Apply(setup, s, e).table == s.table;
        WorkersGoneKeepsOnce(s, s.(workers := s.workers - {w}), ledger);
      }
    case Crash(w) => WorkersGoneKeepsOnce(s, Apply(setup, s, e), ledger);
    case AckArrives(n) => if n in s.acks { AckKeepsOnce(s, ledger, n); }
    case AckLost(n) => assert s.acks - {n} == s.acks;
  }

  lemma ApplyKeepsOnce(setup: Setup, s: State, ledger: seq<nat>, e: Event)
    requires OnceOk(s, ledger) && OrderlyEvent(s, e)
    ensures OnceOk(Apply(setup, s, e), ledger + Inserts(setup, s, e))
  {
    assert ledger + [] == ledger;
    if !e.Turn? {
      QuietEventKeepsOnce(setup, s, ledger, e);
    } else if e.worker in s.workers && !e.turn.Arrive? {
      TurnKeepsOnce(setup, s, ledger, e.worker, e.turn);
    }
  }

  lemma {:induction false} RunKeepsOnce(setup: Setup, s: State, ledger: seq<nat>, events: seq<Event>)
    requires OnceOk(s, ledger) && Orderly(setup, s, events)
    ensures OnceOk(Run(setup, s, events), ledger + Ledger(setup, s, events))
    decreases |events|
  {
    if events == [] {
      assert ledger + [] == ledger;
    } else {
      var now, rest := Inserts(setup, s, events[0]), Ledger(setup, Apply(setup, s, events[0]), events[1..]);
      ApplyKeepsOnce(setup, s, ledger, events[0]);
      RunKeepsOnce(setup, Apply(setup, s, events[0]), ledger + now, events[1..]);
      assert ledger + (now + rest) == ledger + now + rest;
    }
  }

  /**
   * In an orderly run, with any number of requests, workers, crashes, rejected inserts and redeliveries: the table is
   * row for row the ledger, no message is in it twice, and every message that has left the stream is in it.
   */
  lemma OrderlyRunsStoreOnce(setup: Setup, events: seq<Event>)
    requires Orderly(setup, Empty, events)
    ensures var s := Run(setup, Empty, events);
      var ledger := Ledger(setup, Empty, events);
      && Known(s.published, ledger) && s.table == RowsOf(s.published, ledger)
      && Distinct(ledger)
      && forall n | 0 <= n < |s.published| && n !in s.stream :: n in ledger
  {
    var ledger := Ledger(setup, Empty, events);
    TableIsLedger(setup, Empty, events);
    RunKeepsOnce(setup, Empty, [], events);
    assert [] + ledger == ledger;
    assert Run(setup, Empty, events).table == [] + RowsOf(Run(setup, Empty, events).published, ledger);
  }
}
