/**
 * internal/worker/worker.go: a delivery callback feeding a bounded channel, and a loop that batches, inserts and
 * only then acknowledges.
 */
module Worker {
  import opened Encoding
  import opened ClickHouse

  /** One delivery of a stream message; `id` tells deliveries apart, `seqNo` names the stream message. */
  datatype Msg = Msg(id: nat, seqNo: nat, data: Bytes)

  // ---------------------------------------------------------------- the specification

  /** `stored`, `acked` and `naked` are what the loop has made the outside world do so far. */
  datatype State = State(
    ch: seq<Msg>, batch: seq<Msg>, acked: seq<Msg>, naked: seq<Msg>, stored: seq<Bytes>, running: bool)

  const Idle := State([], [], [], [], [], true)

  datatype Event =
    | Arrive(msg: Msg)
    | Receive(outcome: Insertion)
    | Tick(outcome: Insertion)
    | Shutdown(outcome: Insertion)

  function DataOf(batch: seq<Msg>): (rows: seq<Bytes>)
    ensures |rows| == |batch| && forall i | 0 <= i < |batch| :: rows[i] == batch[i].data
  {
    seq(|batch|, i requires 0 <= i < |batch| => batch[i].data)
  }

  /** Everything in the batch is acknowledged if the insert was confirmed, handed back otherwise. */
  function Flush(w: State, outcome: Insertion): State {
    if w.batch == [] then w
    else
      w.(stored := if Stores(outcome) then w.stored + Lines(Frame(DataOf(w.batch))) else w.stored,
         acked := if outcome.Confirmed? then w.acked + w.batch else w.acked,
         naked := if outcome.Confirmed? then w.naked else w.naked + w.batch,
         batch := [])
  }

  function Step(size: nat, w: State, e: Event): State {
    match e
    case Arrive(m) => if |w.ch| < 4 * size then w.(ch := w.ch + [m]) else w.(naked := w.naked + [m])
    case Receive(outcome) =>
      if !w.running || w.ch == [] then w
      else
        var t := w.(ch := w.ch[1..], batch := w.batch + [w.ch[0]]);
        if |t.batch| >= size then Flush(t, outcome) else t
    case Tick(outcome) => if w.running then Flush(w, outcome) else w
    case Shutdown(outcome) => if w.running then Flush(w, outcome).(running := false) else w
  }

  function Run(size: nat, w: State, events: seq<Event>): State
    decreases |events|
  {
    if events == [] then w else Run(size, Step(size, w, events[0]), events[1..])
  }

  // ---------------------------------------------------------------- conservation

  function Arrivals(events: seq<Event>): seq<Msg> {
    if events == [] then []
    else (if events[0].Arrive? then [events[0].msg] else []) + Arrivals(events[1..])
  }

  /** Where the deliveries are. */
  function Held(w: State): multiset<Msg> {
    multiset(w.ch) + multiset(w.batch) + multiset(w.acked) + multiset(w.naked)
  }

  ghost predicate Bounded(size: nat, w: State) {
    && |w.ch| <= 4 * size
    && (size > 0 ==> |w.batch| < size)
    && (!w.running ==> w.batch == [])
  }

  /** An acknowledged message's rows are in the table: for newline-free data, the very bytes. */
  ghost predicate AckedAreStored(w: State) {
    forall i | 0 <= i < |w.acked| :: NEWLINE !in w.acked[i].data ==> w.acked[i].data in w.stored
  }

  predicate NewlineFree(msgs: seq<Msg>) {
    forall i | 0 <= i < |msgs| :: NEWLINE !in msgs[i].data
  }

  lemma FlushConserves(w: State, outcome: Insertion)
    ensures Held(Flush(w, outcome)) == Held(w)
    ensures Flush(w, outcome).batch == [] && Flush(w, outcome).ch == w.ch && Flush(w, outcome).running == w.running
  {
  }

  lemma ReceiveConserves(w: State)
    requires w.ch != []
    ensures Held(w.(ch := w.ch[1..], batch := w.batch + [w.ch[0]])) == Held(w)
  {
    assert w.ch == [w.ch[0]] + w.ch[1..];
  }

  lemma ArriveConserves(size: nat, w: State, m: Msg)
    ensures Held(Step(size, w, Arrive(m))) == Held(w) + multiset([m])
  {
  }

  lemma StepKeepsBounds(size: nat, w: State, e: Event)
    requires size > 0 && Bounded(size, w)
    ensures Bounded(size, Step(size, w, e))
  {
  }

  lemma StepConserves(size: nat, w: State, e: Event)
    ensures Held(Step(size, w, e)) == Held(w) + multiset(if e.Arrive? then [e.msg] else [])
  {
    match e
    case Arrive(m) => ArriveConserves(size, w, m);
    case Receive(outcome) =>
      if w.running && w.ch != [] {
        ReceiveConserves(w);
        FlushConserves(w.(ch := w.ch[1..], batch := w.batch + [w.ch[0]]), outcome);
      }
    case Tick(outcome) => FlushConserves(w, outcome);
    case Shutdown(outcome) => FlushConserves(w, outcome);
  }

  /**
   * In every crash-free run each delivery is in exactly one of channel, batch, acknowledged and handed back;
   * the channel never exceeds four batches, the batch is below its size between turns, and it is empty once
   * the loop has returned.
   */
  lemma {:induction false} Conservation(size: nat, w: State, events: seq<Event>)
    requires size > 0 && Bounded(size, w)
    ensures Bounded(size, Run(size, w, events))
    ensures Held(Run(size, w, events)) == Held(w) + multiset(Arrivals(events))
    decreases |events|
  {
    if events != [] {
      StepKeepsBounds(size, w, events[0]);
      StepConserves(size, w, events[0]);
      Conservation(size, Step(size, w, events[0]), events[1..]);
    }
  }

  lemma FlushStores(w: State, outcome: Insertion)
    requires NewlineFree(w.batch)
    ensures var t := Flush(w, outcome);
      && w.stored <= t.stored && w.acked <= t.acked
      && (outcome.Rejected? ==> t.stored == w.stored)
      && (outcome.Confirmed? ==> t.acked == w.acked + w.batch && t.naked == w.naked)
      && (!outcome.Confirmed? ==> t.acked == w.acked && t.naked == w.naked + w.batch)
      && (Stores(outcome) ==> t.stored == w.stored + DataOf(w.batch))
  {
    FramingRoundTrip(DataOf(w.batch));
  }

  lemma ArrivalsSplit(events: seq<Event>)
    requires events != [] && NewlineFree(Arrivals(events))
    ensures NewlineFree(Arrivals(events[1..]))
    ensures events[0].Arrive? ==> NEWLINE !in events[0].msg.data
  {
    var first := if events[0].Arrive? then [events[0].msg] else [];
    PartsAreNewlineFree(first, Arrivals(events[1..]));
    if events[0].Arrive? {
      assert first[0] == events[0].msg;
    }
  }

  lemma PartsAreNewlineFree(first: seq<Msg>, more: seq<Msg>)
    requires NewlineFree(first + more)
    ensures NewlineFree(first) && NewlineFree(more)
  {
    var all := first + more;
    forall i | 0 <= i < |first| ensures NEWLINE !in first[i].data {
      assert all[i] == first[i];
    }
    forall i | 0 <= i < |more| ensures NEWLINE !in more[i].data {
      assert all[|first| + i] == more[i];
    }
  }

  lemma {:induction false} NewlineFreeRun(size: nat, w: State, events: seq<Event>)
    requires NewlineFree(w.ch) && NewlineFree(w.batch) && NewlineFree(Arrivals(events)) && AckedAreStored(w)
    ensures AckedAreStored(Run(size, w, events)) && w.stored <= Run(size, w, events).stored
    decreases |events|
  {
    if events != [] {
      var e := events[0];
      var t := Step(size, w, e);
      ArrivalsSplit(events);
      StepKeepsAcksStored(size, w, e);
      NewlineFreeRun(size, t, events[1..]);
    }
  }

  lemma StepKeepsAcksStored(size: nat, w: State, e: Event)
    requires NewlineFree(w.ch) && NewlineFree(w.batch) && AckedAreStored(w)
    requires e.Arrive? ==> NEWLINE !in e.msg.data
    ensures var t := Step(size, w, e);
      NewlineFree(t.ch) && NewlineFree(t.batch) && AckedAreStored(t) && w.stored <= t.stored
  {
    match e
    case Arrive(m) =>
    case Receive(outcome) =>
      if w.running && w.ch != [] {
        FlushKeepsAcksStored(w.(ch := w.ch[1..], batch := w.batch + [w.ch[0]]), outcome);
      }
    case Tick(outcome) => FlushKeepsAcksStored(w, outcome);
    case Shutdown(outcome) => FlushKeepsAcksStored(w, outcome);
  }

  lemma FlushKeepsAcksStored(w: State, outcome: Insertion)
    requires NewlineFree(w.batch) && AckedAreStored(w)
    ensures AckedAreStored(Flush(w, outcome)) && w.stored <= Flush(w, outcome).stored
  {
    FlushStores(w, outcome);
    var t := Flush(w, outcome);
    forall i | 0 <= i < |t.acked| && NEWLINE !in t.acked[i].data ensures t.acked[i].data in t.stored {
      if i < |w.acked| {
        assert w.acked[i] == t.acked[i];
        var k :| 0 <= k < |w.stored| && w.stored[k] == w.acked[i].data;
        assert t.stored[k] == w.stored[k];
      } else {
        assert t.acked[i].data == DataOf(w.batch)[i - |w.acked|];
        assert t.stored[|w.stored| + (i - |w.acked|)] == t.acked[i].data;
      }
    }
  }

  /** An ACK follows only a confirmed insert of that very message's bytes, and what was stored stays stored. */
  lemma AckFollowsStorage(size: nat, events: seq<Event>, m: Msg)
    requires NewlineFree(Arrivals(events)) && m in Run(size, Idle, events).acked && size > 0
    ensures m.data in Run(size, Idle, events).stored && m in Arrivals(events)
  {
    NewlineFreeRun(size, Idle, events);
    Conservation(size, Idle, events);
    assert m in Held(Run(size, Idle, events));
    assert m in multiset(Arrivals(events));
    assert NEWLINE !in m.data;
  }

  /** With batches of one, a received message is inserted at once. */
  lemma SingleMessageBatch(stored: seq<Bytes>, m: Msg, outcome: Insertion)
    requires NEWLINE !in m.data && Stores(outcome)
    ensures var t := Step(1, Idle.(ch := [m], stored := stored), Receive(outcome));
      t.ch == [] && t.batch == [] && t.running && t.stored == stored + [m.data]
  {
    var moved := Idle.(batch := [m], stored := stored);
    assert [m][1..] == [] && [] + [m] == [m];
    assert Step(1, Idle.(ch := [m], stored := stored), Receive(outcome)) == Flush(moved, outcome);
    FlushStores(moved, outcome);
    assert DataOf([m]) == [m.data];
  }

  /** A new worker that receives one message and then sees its timer fire, both inserts confirmed. */
  lemma LoneMessageIsStored(size: nat, stored: seq<Bytes>, m: Msg)
    requires size > 0 && NEWLINE !in m.data
    ensures var w := Step(size, Idle.(stored := stored), Arrive(m));
      var received := Step(size, w, Receive(Confirmed));
      var t := Step(size, received, Tick(Confirmed));
      && w == Idle.(ch := [m], stored := stored)
      && received.naked == [] && t.stored == stored + [m.data] && t.ch == [] && t.batch == [] && t.running
      && (if size == 1 then received.acked == [m] && received.stored == t.stored && received.batch == []
          else received == Idle.(batch := [m], stored := stored) && t.acked == [m])
  {
    var batched := Idle.(batch := [m], stored := stored);
    assert [m][1..] == [] && [] + [m] == [m];
    FlushStores(batched, Confirmed);
    assert DataOf([m]) == [m.data];
  }

  // ---------------------------------------------------------------- the object

  /**
   * The channel and the loop's two reusable slices: `batch` and `rows` keep their backing arrays for the
   * whole run and are truncated, never reallocated.
   */
  class AuditWorker {
    const batchSize: nat
    var ch: seq<Msg>
    var acked: seq<Msg>
    var naked: seq<Msg>
    var running: bool
    const table: Table
    const batch: array<Msg>
    const rows: array<Bytes>
    var count: nat

    ghost predicate Valid()
      reads this
    {
      batchSize > 0 && batch.Length == batchSize && rows.Length == batchSize && count <= batchSize
    }

    ghost function View(): State
      reads this, table, batch
      requires Valid()
    {
      State(ch, batch[..count], acked, naked, table.stored, running)
    }

    constructor (batchSize: nat, table: Table)
      requires batchSize > 0
      ensures Valid() && this.batchSize == batchSize && this.table == table && fresh(batch) && fresh(rows)
      ensures View() == Idle.(stored := table.stored)
    {
      this.batchSize := batchSize;
      this.table := table;
      ch, acked, naked, running, count := [], [], [], true, 0;
      batch := new Msg[batchSize](_ => Msg(0, 0, []));
      rows := new Bytes[batchSize](_ => []);
    }

    /** The delivery callback: into the channel if there is room, otherwise straight back to the server. */
    method OnMessage(m: Msg)
      requires Valid()
      modifies this`ch, this`naked
      ensures Valid() && View() == Step(batchSize, old(View()), Arrive(m))
    {
      if |ch| < 4 * batchSize {
        ch := ch + [m];
      } else {
        naked := naked + [m];
      }
    }

    /**
     * Copies the batch into the reused rows slice and inserts exactly those rows: whatever the arrays held
     * from earlier batches, the table sees the data of the current batch and nothing else.
     */
    method FillRows()
      requires Valid()
      modifies rows
      ensures Valid() && View() == old(View()) && rows[..count] == DataOf(batch[..count])
    {
      for i := 0 to count
        invariant Valid() && View() == old(View())
        invariant rows[..i] == DataOf(batch[..count])[..i]
      {
        rows[i] := batch[i].data;
      }
    }

    method FlushBatch(outcome: Insertion)
      requires Valid()
      modifies this`count, this`acked, this`naked, rows, table
      ensures Valid() && View() == Flush(old(View()), outcome) && count == 0
    {
      if count == 0 {
        return;
      }
      FillRows();
      var ok := table.Insert(rows, count, outcome);
      for i := 0 to count
        invariant Valid() && count == old(count) && ch == old(ch) && running == old(running)
        invariant acked == if ok then old(acked) + batch[..i] else old(acked)
        invariant naked == if ok then old(naked) else old(naked) + batch[..i]
        invariant table.stored == Flush(old(View()), outcome).stored
      {
        if ok {
          acked := acked + [batch[i]];
        } else {
          naked := naked + [batch[i]];
        }
      }
      count := 0;
    }

    /** One turn of the loop's select. */
    method Turn(e: Event)
      requires Valid() && running && !e.Arrive? && count < batchSize
      modifies this`ch, this`count, this`acked, this`naked, this`running, batch, rows, table
      ensures Valid() && View() == Step(batchSize, old(View()), e) && count < batchSize
    {
      match e {
        case Receive(outcome) =>
          if ch != [] {
            ghost var before := batch[..count];
            batch[count] := ch[0];
            count := count + 1;
            ch := ch[1..];
            assert batch[..count] == before + [old(ch)[0]];
            if count >= batchSize {
              FlushBatch(outcome);
            }
          }
        case Tick(outcome) =>
          FlushBatch(outcome);
        case Shutdown(outcome) =>
          FlushBatch(outcome);
          running := false;
      }
    }

    /** The whole run: callbacks and loop turns in any order, until shutdown. */
    method RunAll(events: seq<Event>)
      requires Valid() && count < batchSize
      modifies this`ch, this`count, this`acked, this`naked, this`running, batch, rows, table
      ensures Valid() && View() == Run(batchSize, old(View()), events)
    {
      var size := batchSize;
      for i := 0 to |events|
        invariant Valid() && count < batchSize && size == batchSize
        invariant Run(size, View(), events[i..]) == Run(size, old(View()), events)
      {
        assert events[i..][1..] == events[i + 1..];
        if events[i].Arrive? {
          OnMessage(events[i].msg);
        } else if running {
          Turn(events[i]);
        }
      }
    }
  }
}
