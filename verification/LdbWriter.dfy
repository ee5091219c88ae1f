/** SqlLdbWriter: replays ledger statements into the local database (LDB). A BEGIN statement opens a
    transaction that stays open across calls until its COMMIT, and a sequence row guards against
    replays. Every SQL call may fail. */
module LdbWriter {
  import opened Wrappers
  import opened Tables
  import opened Ledger

  /** The contents of the LDB: the mirrored tables, the _ldb_seq row and the _ldb_last_update row. */
  datatype Ldb = Ldb(tables: Tables, seqNo: Option<int>, lastUpdate: Option<int>)

  /** The writer's LedgerTx: nil, an open transaction and what it sees, or a finished one that
      has not been cleared. */
  datatype TxState = NoTx | Live(view: Ldb) | Dead

  datatype Writer = Writer(db: Ldb, tx: TxState)

  /** The first SQL call of an apply that fails. Whatever follows it is only a rollback. */
  datatype ApplyFault =
    | NoFault | BeginFails | LastUpdateFails | SeqFails | RowsAffectedFails | ExecFails | CommitFails

  datatype ApplyError =
    | OpenTxError | NestedBegin | LastUpdateError | SeqError | RowsAffectedError
    | ReplayDetected | EndWithoutBegin | ExecError | CommitError

  /** FetchSeqFromLdb: a missing row reads as 0. */
  function FetchSeq(db: Ldb): int {
    if db.seqNo.None? then 0 else db.seqNo.value
  }

  /** The guarded update of the sequence row: None when no row was affected. */
  function Stamp(view: Ldb, row: LedgerRow): Option<Ldb> {
    if view.seqNo.None? || view.seqNo.value < row.seqNo
    then Some(view.(seqNo := Some(row.seqNo), lastUpdate := Some(row.timestamp)))
    else None
  }

  /** What a statement does to the contents that its transaction sees. */
  function Effect(view: Ldb, row: LedgerRow): Result<Ldb, ApplyError> {
    match Stamp(view, row)
    case None => Err(ReplayDetected)
    case Some(v) =>
      if !row.stmt.Row? then Ok(v)
      else
        match Exec(v.tables, row.stmt.dml)
        case None => Err(ExecError)
        case Some(t) => Ok(v.(tables := t))
  }

  /** The error an injected fault produces for this statement, if the fault is reached
      before the statement succeeds. */
  function FaultError(fault: ApplyFault, commits: bool, dml: bool): Option<ApplyError> {
    match fault
    case LastUpdateFails => Some(LastUpdateError)
    case SeqFails => Some(SeqError)
    case RowsAffectedFails => Some(RowsAffectedError)
    case ExecFails => if dml then Some(ExecError) else None
    case CommitFails => if commits then Some(CommitError) else None
    case _ => None
  }

  /** Whether the error of a fault comes before the error of the statement itself. */
  predicate FaultFirst(fault: ApplyFault, e: ApplyError) {
    fault.LastUpdateFails? || fault.SeqFails? || (fault.RowsAffectedFails? && !e.SeqError?)
  }

  /** One call of ApplyDMLStatement. Any error leaves the committed contents alone; it also
      finishes the ledger transaction, if there is one, without clearing it. */
  function Apply(w: Writer, row: LedgerRow, fault: ApplyFault): (r: (Writer, Option<ApplyError>)) {
    if w.tx.Dead? then (w, Some(if row.stmt.TxBegin? then NestedBegin else LastUpdateError))
    else if w.tx.NoTx? && fault.BeginFails? then (w, Some(OpenTxError))
    else if w.tx.Live? && row.stmt.TxBegin? then (w.(tx := Dead), Some(NestedBegin))
    else
      var broken := w.(tx := if w.tx.Live? || row.stmt.TxBegin? then Dead else NoTx);
      var commits := row.stmt.TxEnd? || (w.tx.NoTx? && row.stmt.Row?);
      var injected := FaultError(fault, commits, row.stmt.Row?);
      match (if w.tx.NoTx? && row.stmt.TxEnd? && Stamp(w.db, row).Some? then Err(EndWithoutBegin)
             else Effect(if w.tx.Live? then w.tx.view else w.db, row))
      case Err(e) =>
        (broken, if injected.Some? && FaultFirst(fault, e) then injected else Some(e))
      case Ok(v) =>
        if injected.Some? then (broken, injected)
        else (if commits then Writer(v, NoTx) else w.(tx := Live(v)), None)
  }

  /** Close rolls back whatever transaction is left. */
  function Closed(w: Writer): Writer {
    w.(tx := NoTx)
  }

  // ---------- the imperative writer ----------

  /** A database handle: the committed contents, and the contents seen by the one transaction
      that may be open on it. Each call takes its own failure as a parameter. */
  class LdbDatabase {
    var committed: Ldb
    var open: Option<Ldb>

    constructor (contents: Ldb)
      ensures committed == contents && open == None
    {
      committed, open := contents, None;
    }

    method Begin(fails: bool) returns (ok: bool)
      requires open.None?
      modifies this`open
      ensures ok == !fails
      ensures open == if ok then Some(committed) else None
    {
      ok := !fails;
      if ok { open := Some(committed); }
    }

    /** REPLACE INTO _ldb_last_update. On a finished transaction every call is an error. */
    method SetLastUpdate(timestamp: int, fails: bool) returns (ok: bool)
      modifies this`open
      ensures ok == (old(open).Some? && !fails)
      ensures open == if ok then Some(old(open).value.(lastUpdate := Some(timestamp))) else old(open)
    {
      ok := open.Some? && !fails;
      if ok { open := Some(open.value.(lastUpdate := Some(timestamp))); }
    }

    /** INSERT OR REPLACE of the sequence row where it is missing or smaller. */
    method AdvanceSeq(seqNo: int, fails: bool) returns (ok: bool, affected: nat)
      modifies this`open
      ensures ok == (old(open).Some? && !fails)
      ensures !ok ==> open == old(open)
      ensures ok ==>
        var was := old(open).value;
        if was.seqNo.None? || was.seqNo.value < seqNo
        then affected == 1 && open == Some(was.(seqNo := Some(seqNo)))
        else affected == 0 && open == Some(was)
    {
      ok, affected := open.Some? && !fails, 0;
      if ok && (open.value.seqNo.None? || open.value.seqNo.value < seqNo) {
        open := Some(open.value.(seqNo := Some(seqNo)));
        affected := 1;
      }
    }

    method ExecDml(d: Dml, fails: bool) returns (ok: bool)
      modifies this`open
      ensures ok == (old(open).Some? && !fails && Exec(old(open).value.tables, d).Some?)
      ensures open == if ok then Some(old(open).value.(tables := Exec(old(open).value.tables, d).value)) else old(open)
    {
      ok := open.Some? && !fails && Exec(open.value.tables, d).Some?;
      if ok { open := Some(open.value.(tables := Exec(open.value.tables, d).value)); }
    }

    /** A failed commit is no commit. Either way the transaction is finished. */
    method Commit(fails: bool) returns (ok: bool)
      modifies this
      ensures ok == (old(open).Some? && !fails)
      ensures open == None
      ensures committed == if ok then old(open).value else old(committed)
    {
      ok := open.Some? && !fails;
      if ok { committed := open.value; }
      open := None;
    }

    method Rollback()
      modifies this`open
      ensures open == None
    {
      open := None;
    }
  }

  class SqlLdbWriter {
    const db: LdbDatabase
    var ledgerTx: bool  // LedgerTx != nil

    /** Outside a call, a transaction is open only as the ledger transaction. */
    ghost predicate Valid()
      reads this, db
    {
      !ledgerTx ==> db.open.None?
    }

    ghost function State(): Writer
      reads this, db
    {
      Writer(db.committed, if !ledgerTx then NoTx else if db.open.Some? then Live(db.open.value) else Dead)
    }

    constructor (db: LdbDatabase)
      requires db.open.None?
      ensures this.db == db && !ledgerTx
      ensures Valid() && State() == Writer(db.committed, NoTx)
    {
      this.db := db;
      ledgerTx := false;
    }

    method ApplyDMLStatement(row: LedgerRow, fault: ApplyFault) returns (err: Option<ApplyError>)
      requires Valid()
      modifies this, db
      ensures Valid()
      ensures (State(), err) == Apply(old(State()), row, fault)
    {
      // without a ledger transaction this call needs a local one
      if !ledgerTx {
        var began := db.Begin(fault.BeginFails?);
        if !began { return Some(OpenTxError); }
      }

      if row.stmt.TxBegin? {
        if ledgerTx {
          db.Rollback();
          return Some(NestedBegin);
        }
        ledgerTx := true;
      }

      var ok := db.SetLastUpdate(row.timestamp, fault.LastUpdateFails?);
      if !ok {
        db.Rollback();
        return Some(LastUpdateError);
      }
      var affected;
      ok, affected := db.AdvanceSeq(row.seqNo, fault.SeqFails?);
      if !ok {
        db.Rollback();
        return Some(SeqError);
      }
      if fault.RowsAffectedFails? {
        db.Rollback();
        return Some(RowsAffectedError);
      }
      if affected == 0 {
        db.Rollback();
        return Some(ReplayDetected);
      }

      if row.stmt.TxBegin? {
        return None;
      }
      if row.stmt.TxEnd? {
        if !ledgerTx {
          db.Rollback();
          return Some(EndWithoutBegin);
        }
        ok := db.Commit(fault.CommitFails?);
        if !ok {
          db.Rollback();
          return Some(CommitError);
        }
        ledgerTx := false;
        return None;
      }

      ok := db.ExecDml(row.stmt.dml, fault.ExecFails?);
      if !ok {
        db.Rollback();
        return Some(ExecError);
      }
      // outside a ledger transaction this was a one-statement transaction
      if !ledgerTx {
        ok := db.Commit(fault.CommitFails?);
        if !ok {
          db.Rollback();
          return Some(CommitError);
        }
      }
      return None;
    }

    method Close()
      requires Valid()
      modifies this, db`open
      ensures Valid()
      ensures State() == Closed(old(State()))
    {
      if ledgerTx {
        db.Rollback();
        ledgerTx := false;
      }
    }
  }
}
