/** What the replay writer promises for every sequence of calls: any statements, well formed or not,
    with a failure at any SQL call, and Close at any point. */
module LdbWriterTheorems {
  import opened Wrappers
  import opened Tables
  import opened Ledger
  import opened LdbWriter

  datatype Call = ApplyCall(row: LedgerRow, fault: ApplyFault) | CloseCall

  function Step(w: Writer, call: Call): (Writer, Option<ApplyError>) {
    match call
    case ApplyCall(row, fault) => Apply(w, row, fault)
    case CloseCall => (Closed(w), None)
  }

  function Run(w: Writer, calls: seq<Call>): Writer {
    if calls == [] then w else Step(Run(w, calls[..|calls| - 1]), calls[|calls| - 1]).0
  }

  /** Sequence numbers with a missing row below every number. */
  predicate Before(a: Option<int>, b: int) {
    a.None? || a.value < b
  }

  /** An open ledger transaction has already moved past the committed number. */
  predicate Coherent(w: Writer) {
    w.tx.Live? ==> w.tx.view.seqNo.Some? && Before(w.db.seqNo, w.tx.view.seqNo.value)
  }

  /** The committed contents change exactly when a lone statement outside a ledger transaction, or
      a COMMIT of an open one, succeeds; each change moves the stored number strictly up to
      that of the statement. */
  lemma ChangesExactlyOnCommit(w: Writer, row: LedgerRow, fault: ApplyFault)
    requires Coherent(w)
    ensures Coherent(Apply(w, row, fault).0)
    ensures
      var (w', err) := Apply(w, row, fault);
      && (w'.db != w.db <==> err.None? && (if w.tx.NoTx? then row.stmt.Row? else row.stmt.TxEnd?))
      && (w'.db != w.db ==> Before(w.db.seqNo, row.seqNo) && w'.db.seqNo == Some(row.seqNo) && w'.tx.NoTx?)
  {
  }

  /** A statement numbered at or below what the transaction sees never takes effect. */
  lemma ReplaysAreRefused(w: Writer, row: LedgerRow, fault: ApplyFault)
    requires match w.tx {
               case NoTx => !Before(w.db.seqNo, row.seqNo)
               case Live(v) => !Before(v.seqNo, row.seqNo)
               case Dead => true
             }
    ensures Apply(w, row, fault).1.Some?
    ensures Apply(w, row, fault).0.db == w.db
    ensures !Apply(w, row, fault).0.tx.Live?
  {
  }

  // ---------- the journal: what an observer of the return values can tell ----------

  /** The statements that have taken effect, and those of the open transaction, kept by someone who
      sees only the calls and whether each returned an error. */
  datatype Journal = Journal(committed: seq<LedgerRow>, pending: seq<LedgerRow>)

  function Note(j: Journal, call: Call, err: Option<ApplyError>): Journal {
    if call.CloseCall? || err.Some? then j.(pending := [])
    else
      match call.row.stmt
      case TxBegin => j.(pending := [call.row])
      case TxEnd => Journal(j.committed + (j.pending + [call.row]), [])
      case Row(_) =>
        if j.pending == [] then j.(committed := j.committed + [call.row])
        else j.(pending := j.pending + [call.row])
  }

  function JournalOf(w: Writer, calls: seq<Call>): Journal {
    if calls == [] then Journal([], [])
    else
      var before := calls[..|calls| - 1];
      var last := calls[|calls| - 1];
      Note(JournalOf(w, before), last, Step(Run(w, before), last).1)
  }

  /** The numbers of the rows climb strictly from base. */
  ghost predicate Climbs(base: Option<int>, rows: seq<LedgerRow>) {
    && (forall i :: 0 <= i < |rows| ==> Before(base, rows[i].seqNo))
    && (forall i, j :: 0 <= i < j < |rows| ==> rows[i].seqNo < rows[j].seqNo)
  }

  function Top(base: Option<int>, rows: seq<LedgerRow>): Option<int> {
    if rows == [] then base else Some(rows[|rows| - 1].seqNo)
  }

  /** The contents are those of base after the rows. */
  ghost predicate IsAfter(base: Ldb, rows: seq<LedgerRow>, view: Ldb) {
    && Replay(base.tables, rows) == Some(view.tables)
    && view.seqNo == Top(base.seqNo, rows)
    && view.lastUpdate == (if rows == [] then base.lastUpdate else Some(rows[|rows| - 1].timestamp))
  }

  ghost predicate Explains(base: Ldb, w: Writer, j: Journal) {
    && IsAfter(base, j.committed, w.db)
    && Climbs(base.seqNo, j.committed + j.pending)
    && (w.tx.Live? <==> j.pending != [])
    && (w.tx.Live? ==> IsAfter(w.db, j.pending, w.tx.view))
  }

  lemma IsAfterOne(base: Ldb, rows: seq<LedgerRow>, view: Ldb, row: LedgerRow)
    requires IsAfter(base, rows, view) && Climbs(base.seqNo, rows)
    requires Effect(view, row).Ok?
    ensures IsAfter(base, rows + [row], Effect(view, row).value)
    ensures Climbs(base.seqNo, rows + [row])
  {
    assert (rows + [row])[..|rows|] == rows;
  }

  lemma IsAfterBoth(base: Ldb, a: seq<LedgerRow>, mid: Ldb, b: seq<LedgerRow>, view: Ldb)
    requires IsAfter(base, a, mid) && IsAfter(mid, b, view)
    ensures IsAfter(base, a + b, view)
  {
    ReplayConcat(base.tables, a, b);
  }

  lemma CommittedClimbs(base: Ldb, w: Writer, j: Journal)
    requires Explains(base, w, j)
    ensures Climbs(base.seqNo, j.committed)
  {
    forall i | 0 <= i < |j.committed| ensures (j.committed + j.pending)[i] == j.committed[i] {}
  }

  lemma NoteOutside(base: Ldb, w: Writer, j: Journal, row: LedgerRow, fault: ApplyFault)
    requires Explains(base, w, j) && w.tx.NoTx? && Apply(w, row, fault).1.None?
    ensures Explains(base, Apply(w, row, fault).0, Note(j, ApplyCall(row, fault), None))
  {
    assert j.pending == [] && j.committed + [] == j.committed;
    IsAfterOne(base, j.committed, w.db, row);
    if row.stmt.TxBegin? {
      assert [] + [row] == [row];
      IsAfterOne(w.db, [], w.db, row);
    } else {
      assert (j.committed + [row]) + [] == j.committed + [row];
    }
  }

  lemma NoteInside(base: Ldb, w: Writer, j: Journal, row: LedgerRow, fault: ApplyFault)
    requires Explains(base, w, j) && w.tx.Live? && Apply(w, row, fault).1.None?
    ensures Explains(base, Apply(w, row, fault).0, Note(j, ApplyCall(row, fault), None))
  {
    var v := Effect(w.tx.view, row).value;
    assert j.committed + (j.pending + [row]) == (j.committed + j.pending) + [row];
    IsAfterBoth(base, j.committed, w.db, j.pending, w.tx.view);
    IsAfterOne(base, j.committed + j.pending, w.tx.view, row);
    if row.stmt.TxEnd? {
      assert (j.committed + (j.pending + [row])) + [] == j.committed + (j.pending + [row]);
    } else {
      PendingClimbs(base, j, w.db.seqNo);
      IsAfterOne(w.db, j.pending, w.tx.view, row);
    }
  }

  lemma NoteExplains(base: Ldb, w: Writer, j: Journal, call: Call)
    requires Explains(base, w, j)
    ensures Explains(base, Step(w, call).0, Note(j, call, Step(w, call).1))
  {
    CommittedClimbs(base, w, j);
    assert j.committed + [] == j.committed;
    if call.ApplyCall? && Apply(w, call.row, call.fault).1.None? {
      if w.tx.NoTx? {
        NoteOutside(base, w, j, call.row, call.fault);
      } else {
        NoteInside(base, w, j, call.row, call.fault);
      }
    } else if call.ApplyCall? {
      FailureKeepsDb(w, call.row, call.fault);
    }
  }

  lemma FailureKeepsDb(w: Writer, row: LedgerRow, fault: ApplyFault)
    requires Apply(w, row, fault).1.Some?
    ensures Apply(w, row, fault).0.db == w.db && !Apply(w, row, fault).0.tx.Live?
  {
  }

  lemma PendingClimbs(base: Ldb, j: Journal, top: Option<int>)
    requires Climbs(base.seqNo, j.committed + j.pending) && top == Top(base.seqNo, j.committed)
    ensures Climbs(top, j.pending)
  {
    var all := j.committed + j.pending;
    forall i | 0 <= i < |j.pending| ensures all[|j.committed| + i] == j.pending[i] {}
    if j.committed != [] {
      assert all[|j.committed| - 1] == j.committed[|j.committed| - 1];
    }
  }

  /** The committed contents are always the starting contents plus the statements that took effect, in
      call order and with strictly climbing numbers: no statement is lost, repeated, reordered
      or applied in part. */
  lemma {:induction false} JournalExplainsRun(w: Writer, calls: seq<Call>)
    requires w.tx.NoTx?
    ensures Explains(w.db, Run(w, calls), JournalOf(w, calls))
  {
    if calls == [] {
      assert JournalOf(w, calls).committed + JournalOf(w, calls).pending == [];
    } else {
      var before := calls[..|calls| - 1];
      JournalExplainsRun(w, before);
      NoteExplains(w.db, Run(w, before), JournalOf(w, before), calls[|calls| - 1]);
    }
  }

  // ---------- the poisoned writer ----------

  /** Which calls poison the writer: any failure while a ledger transaction is set, also of a BEGIN
      that fails after setting it, or of a nested BEGIN. A failed BEGIN that could not open
      its transaction does not. */
  lemma PoisonedExactlyWhen(w: Writer, row: LedgerRow, fault: ApplyFault)
    ensures Apply(w, row, fault).0.tx.Dead? <==>
            Apply(w, row, fault).1.Some? && Apply(w, row, fault).1 != Some(OpenTxError)
            && (!w.tx.NoTx? || row.stmt.TxBegin?)
  {
  }

  lemma DeadRefuses(w: Writer, call: Call)
    requires w.tx.Dead? && call.ApplyCall?
    ensures Step(w, call).0 == w && Step(w, call).1.Some?
  {
  }

  lemma {:induction false} DeadStays(w: Writer, calls: seq<Call>)
    requires w.tx.Dead?
    requires forall i :: 0 <= i < |calls| ==> calls[i].ApplyCall?
    ensures Run(w, calls) == w
  {
    if calls != [] {
      DeadStays(w, calls[..|calls| - 1]);
      DeadRefuses(w, calls[|calls| - 1]);
    }
  }

  /** A poisoned writer refuses everything and changes nothing until Close; then it is again a
      new writer on the same contents. */
  lemma PoisonedUntilClose(w: Writer, calls: seq<Call>)
    requires w.tx.Dead?
    requires forall i :: 0 <= i < |calls| ==> calls[i].ApplyCall?
    ensures forall i :: 0 <= i < |calls| ==> Run(w, calls[..i]) == w && Step(w, calls[i]).1.Some?
    ensures Run(w, calls + [CloseCall]) == Writer(w.db, NoTx)
  {
    forall i | 0 <= i < |calls| ensures Run(w, calls[..i]) == w && Step(w, calls[i]).1.Some? {
      DeadStays(w, calls[..i]);
      DeadRefuses(w, calls[i]);
    }
    DeadStays(w, calls);
    assert (calls + [CloseCall])[..|calls|] == calls;
  }
}
