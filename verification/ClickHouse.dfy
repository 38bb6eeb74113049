/** internal/worker/clickhouse.go: a batch of rows framed as NDJSON into one pre-sized buffer and posted. */
module ClickHouse {
  import opened Text
  import opened Encoding

  const NEWLINE: byte := 10

  function BodySize(rows: seq<Bytes>): nat {
    if rows == [] then 0 else |rows[0]| + 1 + BodySize(rows[1..])
  }

  /** One row, one newline, in order. */
  function Frame(rows: seq<Bytes>): Bytes {
    Terminate(rows, NEWLINE)
  }

  /** How a JSONEachRow reader takes a body apart: at newlines, the empty tail after the last one dropped. */
  function Lines(body: Bytes): seq<Bytes> {
    var parts := Split(body, NEWLINE);
    if parts[|parts| - 1] == [] then parts[..|parts| - 1] else parts
  }

  lemma {:induction false} FrameSize(rows: seq<Bytes>)
    ensures |Frame(rows)| == BodySize(rows)
  {
    if rows != [] {
      FrameSize(rows[1..]);
    }
  }

  /** The reader gets back exactly the rows, in order, if and only if no row contains a newline. */
  lemma FramingRoundTrip(rows: seq<Bytes>)
    ensures Lines(Frame(rows)) == rows <==> forall i | 0 <= i < |rows| :: NEWLINE !in rows[i]
  {
    if forall i | 0 <= i < |rows| :: NEWLINE !in rows[i] {
      SplitTerminated(rows, NEWLINE);
    }
    if Lines(Frame(rows)) == rows {
      var parts := Split(Frame(rows), NEWLINE);
      forall i | 0 <= i < |rows| ensures NEWLINE !in rows[i] {
        assert rows[i] == parts[i];
      }
    }
  }

  lemma {:induction false} FrameAppend(rows: seq<Bytes>, row: Bytes)
    ensures Frame(rows + [row]) == Frame(rows) + row + [NEWLINE]
    ensures BodySize(rows + [row]) == BodySize(rows) + |row| + 1
  {
    if rows == [] {
      assert rows + [row] == [row];
      assert Frame([row]) == row + [NEWLINE] + Frame([]);
    } else {
      assert (rows + [row])[1..] == rows[1..] + [row];
      FrameAppend(rows[1..], row);
    }
  }

  lemma {:induction false} BodySizePrefix(rows: seq<Bytes>, n: nat)
    requires n <= |rows|
    ensures BodySize(rows[..n]) <= BodySize(rows)
    decreases |rows| - n
  {
    if n < |rows| {
      assert rows[..n + 1] == rows[..n] + [rows[n]];
      FrameAppend(rows[..n], rows[n]);
      BodySizePrefix(rows, n + 1);
    } else {
      assert rows[..n] == rows;
    }
  }

  /** bytes.Buffer: bytes written so far at the front of an array that is replaced only when it is too small. */
  class Buffer {
    var data: array<byte>
    var len: nat

    ghost predicate Valid()
      reads this
    {
      len <= data.Length
    }

    function Contents(): Bytes
      reads this, data
      requires Valid()
    {
      data[..len]
    }

    constructor ()
      ensures Valid() && Contents() == [] && fresh(data)
    {
      data := new byte[0];
      len := 0;
    }

    /** Room for n more bytes. */
    method Grow(n: nat)
      requires Valid()
      modifies this
      ensures Valid() && Contents() == old(Contents()) && len == old(len)
      ensures data.Length >= len + n
      ensures data == old(data) || fresh(data)
      ensures old(data.Length) >= len + n ==> data == old(data)
    {
      if data.Length < len + n {
        var bigger := new byte[2 * data.Length + n];
        for i := 0 to len
          invariant len <= data.Length && len == old(len) && data == old(data) && fresh(bigger)
          invariant bigger[..i] == data[..i] && data[..] == old(data[..])
        {
          bigger[i] := data[i];
        }
        data := bigger;
      }
    }

    method Write(row: Bytes)
      requires Valid()
      modifies this, data
      ensures Valid() && Contents() == old(Contents()) + row
      ensures data == old(data) || fresh(data)
      ensures old(data.Length) >= old(len) + |row| ==> data == old(data)
    {
      Grow(|row|);
      var start := len;
      ghost var before := data[..start];
      var target := data;
      for i := 0 to |row|
        invariant data == target && len == start && target.Length >= start + |row|
        invariant target[..start] == before && target[start..start + i] == row[..i]
      {
        target[start + i] := row[i];
      }
      len := start + |row|;
      assert data[..len] == data[..start] + data[start..start + |row|];
    }
  }

  /**
   * What became of a posted body: stored and confirmed, refused without effect, or stored although the
   * client saw an error (a timeout, a lost or truncated response).
   */
  datatype Insertion = Confirmed | Rejected | StoredUnconfirmed

  predicate Stores(o: Insertion) {
    !o.Rejected?
  }

  class Table {
    var stored: seq<Bytes>

    constructor ()
      ensures stored == []
    {
      stored := [];
    }

    /**
     * Inserts the first n rows of a slice. The body is sized in one pass and filled in a second without ever
     * growing; success is reported only for a confirmed post. No rows, no request.
     */
    method Insert(rows: array<Bytes>, n: nat, outcome: Insertion) returns (ok: bool)
      requires n <= rows.Length
      modifies this
      ensures stored == if n > 0 && Stores(outcome) then old(stored) + Lines(Frame(rows[..n])) else old(stored)
      ensures ok <==> n == 0 || outcome.Confirmed?
    {
      if n == 0 {
        return true;
      }
      ghost var all := rows[..n];
      var bodyBytes := n;
      for i := 0 to n
        invariant bodyBytes == n + BodySize(all[..i]) - i
        invariant rows[..n] == all && stored == old(stored)
      {
        bodyBytes := bodyBytes + |rows[i]|;
        assert all[..i + 1] == all[..i] + [all[i]];
        FrameAppend(all[..i], all[i]);
      }
      assert all[..n] == all;
      var body := new Buffer();
      body.Grow(bodyBytes);
      ghost var room := body.data;
      for i := 0 to n
        invariant body.Valid() && body.Contents() == Frame(all[..i])
        invariant fresh(body) && fresh(body.data) && body.data == room && room.Length >= BodySize(all)
        invariant rows[..n] == all && stored == old(stored)
      {
        assert all[..i + 1] == all[..i] + [all[i]];
        FrameAppend(all[..i], all[i]);
        FrameSize(all[..i]);
        BodySizePrefix(all, i + 1);
        body.Write(rows[i]);
        body.Write([NEWLINE]);
      }
      if Stores(outcome) {
        stored := stored + Lines(body.Contents());
      }
      ok := outcome.Confirmed?;
    }
  }
}
