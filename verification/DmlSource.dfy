/** sqlDmlSource: a cursor that pages through the ledger and hands out one statement per call from a
    FIFO buffer. A read can fail before its query, or after any number of scanned rows. */
module DmlSource {
  import opened Wrappers
  import opened Ledger

  const DEFAULT_QUERY_BLOCK_SIZE: nat := 100

  datatype SourceState = SourceState(lastSequence: int, blockSize: nat, buffer: seq<LedgerRow>)

  /** How the read of a page goes wrong: the query fails, or an error (a failed scan, an unreadable
      timestamp, or rows.Err) follows the first n rows. */
  datatype ReadFault = NoReadFault | QueryFails | ReadFails(n: nat)

  datatype SourceError = SelectError | ScanError

  datatype Fetched = Got(row: LedgerRow) | NoNewStatements | Failed(error: SourceError)

  /** The rows a SELECT ... WHERE seq > after ORDER BY seq finds in a ledger in order. */
  function RowsAfter(ledger: seq<LedgerRow>, after: int): seq<LedgerRow> {
    if ledger == [] then []
    else
      var n := |ledger| - 1;
      RowsAfter(ledger[..n], after) + (if ledger[n].seqNo > after then [ledger[n]] else [])
  }

  function Take<T>(s: seq<T>, n: nat): seq<T> {
    if n < |s| then s[..n] else s
  }

  function Page(s: SourceState, ledger: seq<LedgerRow>): seq<LedgerRow> {
    Take(RowsAfter(ledger, s.lastSequence), if s.blockSize == 0 then DEFAULT_QUERY_BLOCK_SIZE else s.blockSize)
  }

  /** The source after buffering these rows of a page. */
  function Buffered(s: SourceState, rows: seq<LedgerRow>): SourceState {
    s.(buffer := s.buffer + rows,
       lastSequence := if rows == [] then s.lastSequence else rows[|rows| - 1].seqNo)
  }

  function Pop(s: SourceState): (SourceState, Fetched) {
    if s.buffer == [] then (s, NoNewStatements) else (s.(buffer := s.buffer[1..]), Got(s.buffer[0]))
  }

  /** One call of Next while the ledger has these rows. The fault matters only if the call reads. */
  function NextStatement(s: SourceState, ledger: seq<LedgerRow>, fault: ReadFault): (SourceState, Fetched) {
    if s.buffer != [] then Pop(s)
    else
      match fault
      case NoReadFault => Pop(Buffered(s, Page(s, ledger)))
      case QueryFails => (s, Failed(SelectError))
      case ReadFails(n) => (Buffered(s, Take(Page(s, ledger), n)), Failed(ScanError))
  }

  class SqlDmlSource {
    var lastSequence: int
    const queryBlockSize: nat
    var buffer: seq<LedgerRow>

    ghost function State(): SourceState
      reads this
    {
      SourceState(lastSequence, queryBlockSize, buffer)
    }

    constructor (lastSequence: int, queryBlockSize: nat)
      ensures State() == SourceState(lastSequence, queryBlockSize, [])
    {
      this.lastSequence, this.queryBlockSize, this.buffer := lastSequence, queryBlockSize, [];
    }

    /** The scan loop: buffers the rows of a page one by one, and stops where a scan fails. */
    method ReadRows(rows: seq<LedgerRow>, failAfter: Option<nat>)
      modifies this
      ensures State() == Buffered(old(State()), if failAfter.Some? then Take(rows, failAfter.value) else rows)
    {
      ghost var start := State();
      var i := 0;
      assert buffer + rows[..0] == buffer;
      while i < |rows| && failAfter != Some(i)
        invariant 0 <= i <= |rows|
        invariant failAfter.Some? ==> i <= failAfter.value
        invariant State() == Buffered(start, rows[..i])
      {
        assert start.buffer + rows[..i] + [rows[i]] == start.buffer + rows[..i + 1];
        buffer := buffer + [rows[i]];
        // kept up with every row, so that an early return cannot lose or repeat one
        lastSequence := rows[i].seqNo;
        i := i + 1;
      }
      assert rows[..|rows|] == rows;
    }

    method Next(ledger: seq<LedgerRow>, fault: ReadFault) returns (r: Fetched)
      modifies this
      ensures (State(), r) == NextStatement(old(State()), ledger, fault)
    {
      hide RowsAfter;
      if |buffer| == 0 {
        var blockSize := queryBlockSize;
        if blockSize == 0 {
          blockSize := DEFAULT_QUERY_BLOCK_SIZE;
        }
        if fault.QueryFails? {
          return Failed(SelectError);
        }
        var rows := Take(RowsAfter(ledger, lastSequence), blockSize);
        ReadRows(rows, if fault.ReadFails? then Some(fault.n) else None);
        if fault.ReadFails? {
          return Failed(ScanError);
        }
      }
      if |buffer| > 0 {
        r := Got(buffer[0]);
        buffer := buffer[1..];
      } else {
        r := NoNewStatements;
      }
    }
  }

  // ---------- exactness ----------

  /** One call: the ledger it reads, and its fault. */
  datatype Fetch = Fetch(ledger: seq<LedgerRow>, fault: ReadFault)

  function Run(s: SourceState, calls: seq<Fetch>): (SourceState, seq<LedgerRow>) {
    if calls == [] then (s, [])
    else
      var n := |calls| - 1;
      var (mid, delivered) := Run(s, calls[..n]);
      var (s', r) := NextStatement(mid, calls[n].ledger, calls[n].fault);
      (s', if r.Got? then delivered + [r.row] else delivered)
  }

  /** Every call reads the ledger as it stood at some time: some prefix of what it becomes. */
  ghost predicate ReadsOf(calls: seq<Fetch>, final: seq<LedgerRow>) {
    && Increasing(final)
    && (forall i :: 0 <= i < |calls| ==> calls[i].ledger <= final)
  }

  /** The rows with lo < seq <= hi, in order. */
  function Between(rows: seq<LedgerRow>, lo: int, hi: int): seq<LedgerRow> {
    if rows == [] then []
    else
      var n := |rows| - 1;
      Between(rows[..n], lo, hi) + (if lo < rows[n].seqNo <= hi then [rows[n]] else [])
  }

  /** Both filters of an increasing ledger are slices of it. */
  lemma {:induction false} RowsAfterIsSuffix(ledger: seq<LedgerRow>, after: int) returns (p: nat)
    requires Increasing(ledger)
    ensures p <= |ledger| && RowsAfter(ledger, after) == ledger[p..]
    ensures forall i :: 0 <= i < |ledger| ==> (ledger[i].seqNo > after <==> i >= p)
  {
    var n := |ledger| - 1;
    if ledger == [] {
      p := 0;
    } else if ledger[n].seqNo > after {
      hide RowsAfter, Increasing;
      var front := ledger[..n];
      FrontIncreases(ledger);
      RowsAfterOneMore(ledger, after);
      p := RowsAfterIsSuffix(front, after);
      SuffixOneMore(ledger, p);
      forall i | 0 <= i < n ensures ledger[i].seqNo > after <==> i >= p {
        assert front[i] == ledger[i];
      }
    } else {
      hide RowsAfter;
      p := n + 1;
      RowsAfterNone(ledger, after);
    }
  }

  lemma FrontIncreases(ledger: seq<LedgerRow>)
    requires ledger != [] && Increasing(ledger)
    ensures Increasing(ledger[..|ledger| - 1])
  {
  }

  lemma SuffixOneMore(ledger: seq<LedgerRow>, p: nat)
    requires p < |ledger|
    ensures ledger[p..] == ledger[..|ledger| - 1][p..] + [ledger[|ledger| - 1]]
  {
  }

  lemma RowsAfterOneMore(ledger: seq<LedgerRow>, after: int)
    requires ledger != []
    ensures
      var n := |ledger| - 1;
      RowsAfter(ledger, after) == RowsAfter(ledger[..n], after) + (if ledger[n].seqNo > after then [ledger[n]] else [])
  {
  }

  lemma {:induction false} RowsAfterNone(ledger: seq<LedgerRow>, after: int)
    requires forall i :: 0 <= i < |ledger| ==> ledger[i].seqNo <= after
    ensures RowsAfter(ledger, after) == []
  {
    if ledger != [] {
      RowsAfterNone(ledger[..|ledger| - 1], after);
    }
  }

  lemma {:induction false} BetweenIsSlice(rows: seq<LedgerRow>, lo: int, hi: int, p: nat, q: nat)
    requires p <= q <= |rows|
    requires forall i :: 0 <= i < |rows| ==> (lo < rows[i].seqNo <= hi <==> p <= i < q)
    ensures Between(rows, lo, hi) == rows[p..q]
  {
    if rows != [] {
      var n := |rows| - 1;
      if q == |rows| {
        if p == q {
          BetweenIsSlice(rows[..n], lo, hi, n, n);
        } else {
          BetweenIsSlice(rows[..n], lo, hi, p, n);
          assert rows[p..q] == rows[..n][p..n] + [rows[n]];
        }
      } else {
        BetweenIsSlice(rows[..n], lo, hi, p, q);
        assert rows[p..q] == rows[..n][p..q];
      }
    }
  }

  /** What a run keeps: delivered rows followed by the buffer are a slice of the ledger that
      starts after start and ends at lastSequence. */
  ghost predicate Exact(start: int, s: SourceState, delivered: seq<LedgerRow>, ledger: seq<LedgerRow>, p: nat, q: nat) {
    && p <= q <= |ledger|
    && delivered + s.buffer == ledger[p..q]
    && (forall i :: 0 <= i < |ledger| ==> (ledger[i].seqNo > start <==> i >= p))
    && s.lastSequence == (if p == q then start else ledger[q - 1].seqNo)
  }

  lemma PageIsNextSlice(start: int, s: SourceState, delivered: seq<LedgerRow>, final: seq<LedgerRow>, p: nat, q: nat,
      ledger: seq<LedgerRow>)
    returns (r: nat)
    requires Increasing(final) && ledger <= final && Exact(start, s, delivered, final, p, q)
    ensures q <= r <= |final| && RowsAfter(ledger, s.lastSequence) == final[q..r]
    ensures q <= |ledger| ==> r == |ledger|
    ensures q > |ledger| ==> r == q
  {
    assert Increasing(ledger) by {
      forall i | 0 <= i < |ledger| ensures ledger[i] == final[i] {}
    }
    var k := RowsAfterIsSuffix(ledger, s.lastSequence);
    forall i | 0 <= i < |final| ensures final[i].seqNo > s.lastSequence <==> i >= q {
      if p < q && i >= q { assert final[q - 1].seqNo < final[i].seqNo; }
      if p < q && i < q - 1 { assert final[i].seqNo < final[q - 1].seqNo; }
    }
    if k < |ledger| { assert ledger[k] == final[k]; }
    if q < |ledger| { assert ledger[q] == final[q]; }
    if q <= |ledger| {
      r := |ledger|;
      assert k == q;
      assert ledger[k..] == final[q..r];
    } else {
      r := q;
      assert k == |ledger|;
      assert ledger[k..] == [] == final[q..r];
    }
  }

  lemma BufferKeepsExact(start: int, s: SourceState, delivered: seq<LedgerRow>, final: seq<LedgerRow>, p: nat,
      q: nat, r: nat, rows: seq<LedgerRow>, n: nat)
    requires Exact(start, s, delivered, final, p, q) && q <= r <= |final| && rows == final[q..r] && n <= |rows|
    ensures Exact(start, Buffered(s, rows[..n]), delivered, final, p, q + n)
  {
    assert delivered + (s.buffer + rows[..n]) == (delivered + s.buffer) + rows[..n];
    assert final[p..q] + rows[..n] == final[p..q + n];
  }

  lemma PopKeepsExact(start: int, s: SourceState, delivered: seq<LedgerRow>, final: seq<LedgerRow>, p: nat, q: nat)
    requires Exact(start, s, delivered, final, p, q)
    ensures
      var (s', r) := Pop(s);
      Exact(start, s', if r.Got? then delivered + [r.row] else delivered, final, p, q)
  {
    if s.buffer != [] {
      assert (delivered + [s.buffer[0]]) + s.buffer[1..] == delivered + s.buffer;
    }
  }

  lemma TakeIsPrefix<T>(s: seq<T>, n: nat)
    ensures Take(s, n) == s[..|Take(s, n)|]
  {
  }

  /** A row handed out after the first p rows of a ledger is row p. */
  lemma HandedOutIsNext(rows: seq<LedgerRow>, p: nat, row: LedgerRow, buffer: seq<LedgerRow>, q: nat)
    requires p <= |rows| && q <= |rows| && (rows[..p] + [row]) + buffer == rows[0..q]
    ensures p < |rows| && row == rows[p] && rows[..p] + [row] == rows[..p + 1] && q == p + 1 + |buffer|
  {
    var all := (rows[..p] + [row]) + buffer;
    assert |all| == q && all[p] == row;
  }

  /** One call of Next by a reader that has been handed the first p rows. */
  lemma NextHandsOutNext(s: SourceState, rows: seq<LedgerRow>, p: nat, call: Fetch)
    requires Increasing(rows) && call.ledger <= rows && p <= |rows|
    requires Exact(0, s, rows[..p], rows, 0, p + |s.buffer|)
    ensures
      var (s', f) := NextStatement(s, call.ledger, call.fault);
      var k := if f.Got? then p + 1 else p;
      && (f.Got? ==> p < |rows| && f.row == rows[p])
      && k <= |rows| && Exact(0, s', rows[..k], rows, 0, k + |s'.buffer|)
  {
    hide NextStatement, Increasing;
    var q := NextKeepsExact(0, s, rows[..p], rows, 0, p + |s.buffer|, call);
    var (s', f) := NextStatement(s, call.ledger, call.fault);
    if f.Got? {
      HandedOutIsNext(rows, p, f.row, s'.buffer, q);
    } else {
      assert |rows[..p] + s'.buffer| == q;
    }
  }

  /** However many rows of a page are read, what is buffered is the next stretch of the ledger. */
  lemma ReadKeepsExact(start: int, s: SourceState, delivered: seq<LedgerRow>, final: seq<LedgerRow>, p: nat, q: nat,
      ledger: seq<LedgerRow>, n: nat)
    returns (q': nat)
    requires Increasing(final) && ledger <= final && Exact(start, s, delivered, final, p, q)
    ensures Exact(start, Buffered(s, Page(s, ledger)), delivered, final, p, q + |Page(s, ledger)|)
    ensures Exact(start, Buffered(s, Take(Page(s, ledger), n)), delivered, final, p, q')
  {
    hide Exact, Increasing, RowsAfter, Buffered;
    var r := PageIsNextSlice(start, s, delivered, final, p, q, ledger);
    var all := final[q..r];
    var page := Page(s, ledger);
    TakeIsPrefix(all, if s.blockSize == 0 then DEFAULT_QUERY_BLOCK_SIZE else s.blockSize);
    BufferKeepsExact(start, s, delivered, final, p, q, r, all, |page|);
    var rows := Take(page, n);
    TakeIsPrefix(page, n);
    assert rows == all[..|rows|];
    BufferKeepsExact(start, s, delivered, final, p, q, r, all, |rows|);
    q' := q + |rows|;
  }

  lemma NextKeepsExact(start: int, s: SourceState, delivered: seq<LedgerRow>, final: seq<LedgerRow>, p: nat, q: nat,
      call: Fetch)
    returns (q': nat)
    requires Increasing(final) && call.ledger <= final && Exact(start, s, delivered, final, p, q)
    ensures
      var (s', r) := NextStatement(s, call.ledger, call.fault);
      Exact(start, s', if r.Got? then delivered + [r.row] else delivered, final, p, q')
  {
    hide Exact, Increasing, RowsAfter, Page, Buffered, Pop;
    q' := q;
    if s.buffer != [] {
      PopKeepsExact(start, s, delivered, final, p, q);
    } else if call.fault.NoReadFault? {
      var _ := ReadKeepsExact(start, s, delivered, final, p, q, call.ledger, 0);
      var page := Page(s, call.ledger);
      q' := q + |page|;
      PopKeepsExact(start, Buffered(s, page), delivered, final, p, q');
    } else if call.fault.ReadFails? {
      q' := ReadKeepsExact(start, s, delivered, final, p, q, call.ledger, call.fault.n);
    }
  }

  lemma {:induction false} RunKeepsExact(s: SourceState, calls: seq<Fetch>, final: seq<LedgerRow>)
    returns (p: nat, q: nat)
    requires s.buffer == [] && ReadsOf(calls, final)
    ensures Exact(s.lastSequence, Run(s, calls).0, Run(s, calls).1, final, p, q)
  {
    if calls == [] {
      p := RowsAfterIsSuffix(final, s.lastSequence);
      q := p;
    } else {
      var n := |calls| - 1;
      p, q := RunKeepsExact(s, calls[..n], final);
      var (mid, delivered) := Run(s, calls[..n]);
      q := NextKeepsExact(s.lastSequence, mid, delivered, final, p, q, calls[n]);
    }
  }

  /** A read that nothing fails buffers the rows of one page, and hands out the first: as many of the next rows as the
      block size allows, which is 100 unless it is configured. */
  lemma ReadsOnePage(s: SourceState, rows: seq<LedgerRow>, p: nat)
    requires Increasing(rows) && p <= |rows| && s.buffer == [] && Exact(0, s, rows[..p], rows, 0, p)
    ensures
      var size := if s.blockSize == 0 then 100 else s.blockSize;
      var (s', f) := NextStatement(s, rows, NoReadFault);
      var q := if p + size < |rows| then p + size else |rows|;
      && s'.blockSize == s.blockSize
      && if p < |rows| then f == Got(rows[p]) && s'.buffer == rows[p + 1..q] else f == NoNewStatements && s' == s
  {
    hide *;
    var r := PageIsNextSlice(0, s, rows[..p], rows, 0, p, rows);
    var size := if s.blockSize == 0 then 100 else s.blockSize;
    var q := if p + size < |rows| then p + size else |rows|;
    TakeOfSlice(rows, p, size);
    HandsOutThePage(s, rows, rows[p..q]);
    assert p < |rows| ==> rows[p..q][0] == rows[p] && rows[p..q][1..] == rows[p + 1..q];
  }

  lemma TakeOfSlice(rows: seq<LedgerRow>, p: nat, size: nat)
    requires p <= |rows|
    ensures Take(rows[p..|rows|], size) == rows[p..if p + size < |rows| then p + size else |rows|]
  {
  }

  lemma HandsOutThePage(s: SourceState, rows: seq<LedgerRow>, page: seq<LedgerRow>)
    requires s.buffer == []
    requires page == Take(RowsAfter(rows, s.lastSequence), if s.blockSize == 0 then 100 else s.blockSize)
    ensures
      var (s', f) := NextStatement(s, rows, NoReadFault);
      && s'.blockSize == s.blockSize
      && if page == [] then f == NoNewStatements && s' == s else f == Got(page[0]) && s'.buffer == page[1..]
  {
    hide RowsAfter, Take;
    assert [] + page == page;
  }

  lemma BuffersAtMostOnePage(s: SourceState, ledger: seq<LedgerRow>, fault: ReadFault)
    ensures
      var size := if s.blockSize == 0 then 100 else s.blockSize;
      |s.buffer| <= size ==> |NextStatement(s, ledger, fault).0.buffer| <= size
  {
    hide RowsAfter;
  }

  /** For every page size, every mid-page failure and every growth of the ledger between calls
      (a call may even read an older state than the one before it): the rows delivered so far
      followed by the buffer are exactly the ledger rows with start < seq <= lastSequence, in
      order. */
  lemma SourceIsExact(s: SourceState, calls: seq<Fetch>, final: seq<LedgerRow>)
    requires s.buffer == [] && ReadsOf(calls, final)
    ensures
      var (s', delivered) := Run(s, calls);
      && s.lastSequence <= s'.lastSequence
      && delivered + s'.buffer == Between(final, s.lastSequence, s'.lastSequence)
  {
    var p, q := RunKeepsExact(s, calls, final);
    var (s', delivered) := Run(s, calls);
    forall i | 0 <= i < |final| ensures s.lastSequence < final[i].seqNo <= s'.lastSequence <==> p <= i < q {
      if p < q && i < q - 1 { assert final[i].seqNo < final[q - 1].seqNo; }
      if p < q && i >= q { assert final[q - 1].seqNo < final[i].seqNo; }
    }
    BetweenIsSlice(final, s.lastSequence, s'.lastSequence, p, q);
  }
}
