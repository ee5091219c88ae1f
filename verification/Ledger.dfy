/** The DML ledger of the ctldb: rows numbered by an auto-increment column, appended by Mutate in
    blocks. A block is a lone row statement, or a BEGIN marker, two or more row statements and a
    COMMIT marker, with consecutive sequence numbers. */
module Ledger {
  import opened Wrappers
  import opened Tables

  datatype LedgerRow = LedgerRow(seqNo: int, timestamp: int, stmt: Statement)

  ghost predicate Increasing(rows: seq<LedgerRow>) {
    && (forall i :: 0 <= i < |rows| ==> 0 < rows[i].seqNo)
    && (forall i, j :: 0 <= i < j < |rows| ==> rows[i].seqNo < rows[j].seqNo)
  }

  /** select max(seq), with 0 for NULL. */
  function LastSeq(rows: seq<LedgerRow>): int {
    if rows == [] then 0 else rows[|rows| - 1].seqNo
  }

  /** Whether a reader that has consumed these rows is between a BEGIN and its COMMIT. */
  predicate InTx(rows: seq<LedgerRow>) {
    rows != [] &&
    match rows[|rows| - 1].stmt
    case TxBegin => true
    case TxEnd => false
    case Row(_) => InTx(rows[..|rows| - 1])
  }

  /** The tables after running every row statement of the rows; markers change nothing. */
  function Replay(db: Tables, rows: seq<LedgerRow>): Option<Tables> {
    if rows == [] then Some(db)
    else
      match Replay(db, rows[..|rows| - 1])
      case None => None
      case Some(t) =>
        match rows[|rows| - 1].stmt
        case Row(d) => Exec(t, d)
        case TxBegin => Some(t)
        case TxEnd => Some(t)
  }

  /** The number of statements Mutate logs for a batch: markers only when there is more than one request. */
  function LogLength(ds: seq<Dml>): nat {
    if |ds| > 1 then |ds| + 2 else |ds|
  }

  /** The i-th of them. */
  function LogAt(ds: seq<Dml>, i: nat): Statement
    requires i < LogLength(ds)
  {
    if |ds| == 1 then Row(ds[i])
    else if i == 0 then TxBegin
    else if i == |ds| + 1 then TxEnd
    else Row(ds[i - 1])
  }

  ghost predicate Consecutive(rows: seq<LedgerRow>) {
    forall i :: 0 <= i < |rows| ==> rows[i].seqNo == rows[0].seqNo + i
  }

  /** The rows are the first statements logged for the batch, without a hole in their numbers. */
  ghost predicate StartsBlock(rows: seq<LedgerRow>, ds: seq<Dml>) {
    && |rows| <= LogLength(ds)
    && (forall i :: 0 <= i < |rows| ==> rows[i].stmt == LogAt(ds, i))
    && Consecutive(rows)
  }

  /** The rows one committed Mutate of the batch ds leaves in the ledger. */
  ghost predicate IsBlock(rows: seq<LedgerRow>, ds: seq<Dml>) {
    ds != [] && StartsBlock(rows, ds) && |rows| == LogLength(ds)
  }

  function Flatten(blocks: seq<seq<LedgerRow>>): seq<LedgerRow> {
    if blocks == [] then [] else Flatten(blocks[..|blocks| - 1]) + blocks[|blocks| - 1]
  }

  /** The ledger is a concatenation of blocks, one for each batch, in increasing order. */
  ghost predicate OfBlocks(rows: seq<LedgerRow>, blocks: seq<seq<LedgerRow>>, batches: seq<seq<Dml>>) {
    && |blocks| == |batches|
    && (forall i :: 0 <= i < |blocks| ==> IsBlock(blocks[i], batches[i]))
    && Flatten(blocks) == rows
    && Increasing(rows)
  }

  /** What the rows before position i demand of row i: markers alternate, and inside a
      transaction the numbers have no hole. */
  ghost predicate Fits(rows: seq<LedgerRow>, i: nat)
    requires i < |rows|
  {
    && (rows[i].stmt.TxBegin? ==> !InTx(rows[..i]))
    && (rows[i].stmt.TxEnd? ==> InTx(rows[..i]))
    && (InTx(rows[..i]) ==> i > 0 && rows[i].seqNo == rows[i - 1].seqNo + 1)
  }

  /** The reader's view of OfBlocks: every row fits and no transaction is left open. */
  ghost predicate WellFormed(rows: seq<LedgerRow>) {
    && Increasing(rows)
    && (forall i :: 0 <= i < |rows| ==> Fits(rows, i))
    && !InTx(rows)
  }

  /** Position n is right after a whole block. */
  predicate Boundary(rows: seq<LedgerRow>, n: nat) {
    n <= |rows| && !InTx(rows[..n])
  }

  /** The number of the last row before position n, None at the start. */
  function SeqAt(rows: seq<LedgerRow>, n: nat): Option<int>
    requires n <= |rows|
  {
    if n == 0 then None else Some(rows[n - 1].seqNo)
  }

  // ---------- lemmas ----------

  lemma ReplayConcat(db: Tables, a: seq<LedgerRow>, b: seq<LedgerRow>)
    ensures Replay(db, a + b) ==
            match Replay(db, a) { case None => None case Some(t) => Replay(t, b) }
  {
    if b == [] {
      assert a + b == a;
    } else {
      assert (a + b)[..|a + b| - 1] == a + b[..|b| - 1];
      ReplayConcat(db, a, b[..|b| - 1]);
    }
  }

  /** Inside a block of k rows read so far, a transaction is open exactly strictly between
      the markers. */
  lemma {:induction false} InTxInBlock(rows: seq<LedgerRow>, b: seq<LedgerRow>, ds: seq<Dml>, k: nat)
    requires !InTx(rows) && IsBlock(b, ds) && k <= |b|
    ensures InTx(rows + b[..k]) <==> |ds| > 1 && 0 < k < |b|
  {
    if k == 0 {
      assert rows + b[..0] == rows;
    } else {
      var r := rows + b[..k];
      assert r[..|r| - 1] == rows + b[..k - 1];
      assert r[|r| - 1] == b[k - 1];
      InTxInBlock(rows, b, ds, k - 1);
    }
  }

  /** Where a reader of rows + b is inside a transaction. */
  lemma InTxAppended(rows: seq<LedgerRow>, b: seq<LedgerRow>, ds: seq<Dml>, n: nat)
    requires !InTx(rows) && IsBlock(b, ds) && n <= |rows| + |b|
    ensures n <= |rows| ==> (rows + b)[..n] == rows[..n]
    ensures n >= |rows| ==> (InTx((rows + b)[..n]) <==> |ds| > 1 && 0 < n - |rows| < |b|)
  {
    if n >= |rows| {
      assert (rows + b)[..n] == rows + b[..n - |rows|];
      InTxInBlock(rows, b, ds, n - |rows|);
    }
  }

  lemma BlockRowFits(rows: seq<LedgerRow>, b: seq<LedgerRow>, ds: seq<Dml>, i: nat)
    requires !InTx(rows) && IsBlock(b, ds) && |rows| <= i < |rows| + |b|
    ensures Fits(rows + b, i)
  {
    var k := i - |rows|;
    InTxAppended(rows, b, ds, i);
    assert (rows + b)[i] == b[k];
    if k > 0 {
      assert (rows + b)[i - 1] == b[k - 1];
    }
  }

  /** Appending a block above the last number keeps the ledger well formed, and the only new
      boundary is its end. */
  lemma AppendBlock(rows: seq<LedgerRow>, b: seq<LedgerRow>, ds: seq<Dml>)
    requires WellFormed(rows) && IsBlock(b, ds) && |b| > 0 && LastSeq(rows) < b[0].seqNo && 0 < b[0].seqNo
    ensures WellFormed(rows + b)
    ensures forall n: nat :: Boundary(rows + b, n) <==> Boundary(rows, n) || n == |rows| + |b|
  {
    var r := rows + b;
    forall i | 0 <= i < |r| ensures Fits(r, i) {
      if i < |rows| {
        assert Fits(rows, i);
        InTxAppended(rows, b, ds, i);
        assert r[i] == rows[i] && (i > 0 ==> r[i - 1] == rows[i - 1]);
      } else {
        BlockRowFits(rows, b, ds, i);
      }
    }
    AppendIncreasing(rows, b);
    forall n: nat ensures Boundary(r, n) <==> Boundary(rows, n) || n == |rows| + |b| {
      if n <= |r| {
        InTxAppended(rows, b, ds, n);
        assert rows[..|rows|] == rows;
      }
    }
    InTxAppended(rows, b, ds, |r|);
    assert r[..|r|] == r;
  }

  lemma AppendIncreasing(rows: seq<LedgerRow>, b: seq<LedgerRow>)
    requires Increasing(rows) && Consecutive(b) && |b| > 0 && LastSeq(rows) < b[0].seqNo && 0 < b[0].seqNo
    ensures Increasing(rows + b)
  {
  }

  /** The two descriptions of a ledger agree: a concatenation of blocks is well formed. */
  lemma {:induction false} BlocksAreWellFormed(rows: seq<LedgerRow>, blocks: seq<seq<LedgerRow>>,
      batches: seq<seq<Dml>>)
    requires OfBlocks(rows, blocks, batches)
    ensures WellFormed(rows)
    decreases |blocks|
  {
    if blocks != [] {
      var k := |blocks| - 1;
      var front := Flatten(blocks[..k]);
      var b := blocks[k];
      assert rows == front + b;
      forall i | 0 <= i < |front| ensures front[i] == rows[i] {}
      BlocksAreWellFormed(front, blocks[..k], batches[..k]);
      assert rows[|front|] == b[0];
      AppendBlock(front, b, batches[k]);
    }
  }

  /** Replaying a block runs the batch it logs. */
  lemma {:induction false} ReplayBlock(db: Tables, b: seq<LedgerRow>, ds: seq<Dml>)
    requires IsBlock(b, ds)
    ensures Replay(db, b) == ExecAll(db, ds)
  {
    var lo := if |ds| > 1 then 1 else 0;
    ReplayBody(db, b[..lo + |ds|], ds, lo);
    if |ds| > 1 {
      assert b[..|b| - 1] == b[..lo + |ds|];
    } else {
      assert b[..lo + |ds|] == b;
    }
  }

  lemma {:induction false} ReplayBody(db: Tables, rows: seq<LedgerRow>, ds: seq<Dml>, lo: nat)
    requires |rows| == lo + |ds| && lo <= 1
    requires lo == 1 ==> rows[0].stmt == TxBegin
    requires forall i :: lo <= i < |rows| ==> rows[i].stmt == Row(ds[i - lo])
    ensures Replay(db, rows) == ExecAll(db, ds)
  {
    if ds != [] {
      ReplayBody(db, rows[..|rows| - 1], ds[..|ds| - 1], lo);
    } else if lo == 1 {
      assert rows[..0] == [];
    }
  }
}
