/** The ctldb as one Mutate sees it: committed contents, and those of the transaction it has open. */
module CtlDb {
  import opened Wrappers
  import opened Tables
  import opened Ledger
  import opened Mutators

  /** writer_usage: the amount for each writer and bucket. */
  type Usage = map<(string, int), int>

  datatype CtlData = CtlData(tables: Tables, ledger: seq<LedgerRow>, mutators: MutatorRows, usage: Usage)

  class CtlDatabase {
    var committed: CtlData
    var open: Option<CtlData>
    var counter: int  // the ledger's auto-increment value, which a rollback does not restore

    constructor (contents: CtlData, counter: int)
      ensures committed == contents && open == None && this.counter == counter
    {
      committed, open, this.counter := contents, None, counter;
    }

    method Begin(fails: bool) returns (ok: bool)
      requires open.None?
      modifies this`open
      ensures ok == !fails
      ensures open == if ok then Some(committed) else None
    {
      ok := !fails;
      if ok { open := Some(committed); }
    }

    /** A failed commit is no commit. */
    method Commit(fails: bool) returns (ok: bool)
      requires open.Some?
      modifies this`committed, this`open
      ensures ok == !fails
      ensures committed == if ok then old(open).value else old(committed)
      ensures open == None
    {
      ok := !fails;
      if ok { committed := open.value; }
      open := None;
    }

    method Rollback()
      modifies this`open
      ensures open == None
    {
      open := None;
    }
  }

  datatype CookieFault = NoCookieFault | UpdateFails | GetFails

  /** The error of an update with this result when these SQL calls fail: cookies that are too long are
      refused before any call, and only an update of no row is followed by the lookup. */
  function CookieOutcome(r: Result<MutatorRows, CookieError>, fault: CookieFault): Option<CookieError> {
    if r == Err(CookieTooLong) then Some(CookieTooLong)
    else if fault.UpdateFails? then Some(CookieSqlError)
    else if r.Err? then Some(if fault.GetFails? then CookieSqlError else r.error)
    else None
  }

  /** mutatorStore on the open transaction. */
  class MutatorStore {
    const db: CtlDatabase

    constructor (db: CtlDatabase)
      ensures this.db == db
    {
      this.db := db;
    }

    /** UPDATE mutators SET cookie, clock + 1 WHERE writer and secret and, if given, cookie match. */
    method ExecUpdate(who: Credentials, cookie: Cookie, ifCookie: Option<Cookie>) returns (affected: nat)
      requires db.open.Some?
      modifies db`open
      ensures
        var was := old(db.open).value;
        var current := Get(was.mutators, who);
        if current.Some? && (ifCookie.None? || ifCookie == current)
        then affected == 1 && db.open == Some(was.(mutators := was.mutators[who.writer :=
               Mutator(who.secret, cookie, was.mutators[who.writer].clock + 1)]))
        else affected == 0 && db.open == old(db.open)
    {
      var rows := db.open.value.mutators;
      affected := 0;
      if who.writer in rows && rows[who.writer].secret == who.secret
         && (ifCookie.None? || ifCookie.value == rows[who.writer].cookie) {
        db.open := Some(db.open.value.(mutators := rows[who.writer :=
                   Mutator(who.secret, cookie, rows[who.writer].clock + 1)]));
        affected := 1;
      }
    }

    /** When no row was affected, a lookup tells a wrong cookie from an unknown writer. */
    method Update(who: Credentials, cookie: Cookie, ifCookie: Option<Cookie>, fault: CookieFault)
      returns (err: Option<CookieError>)
      requires db.open.Some?
      modifies db`open
      ensures
        var was := old(db.open).value;
        var rows := Mutators.Update(was.mutators, who, cookie, ifCookie);
        && (err.None? ==> rows.Ok? && db.open == Some(was.(mutators := rows.value)))
        && (err.Some? ==> db.open == old(db.open))
        && err == CookieOutcome(rows, fault)
    {
      if |cookie| > LIMIT_WRITER_COOKIE_SIZE || (ifCookie.Some? && |ifCookie.value| > LIMIT_WRITER_COOKIE_SIZE) {
        return Some(CookieTooLong);
      }
      if fault.UpdateFails? {
        return Some(CookieSqlError);
      }
      var affected := ExecUpdate(who, cookie, ifCookie);
      if affected == 0 {
        if fault.GetFails? {
          return Some(CookieSqlError);
        }
        var found := Get(db.open.value.mutators, who);
        if found.None? {
          return Some(WriterNotFound);
        }
        return Some(CookieConflict);
      }
      return None;
    }
  }

  /** LastInsertId fails only after the row has been inserted. */
  datatype AddFault = NoAddFault | InsertFails | LastInsertIdFails

  /** dmlLedgerWriter: appends rows within the open transaction. */
  class DmlLedgerWriter {
    const db: CtlDatabase

    constructor (db: CtlDatabase)
      ensures this.db == db
    {
      this.db := db;
    }

    method Add(stmt: Statement, timestamp: int, fault: AddFault) returns (seqNo: Option<int>)
      requires db.open.Some?
      modifies db`open, db`counter
      ensures seqNo == if fault.NoAddFault? then Some(old(db.counter)) else None
      ensures fault.InsertFails? ==> db.open == old(db.open) && db.counter == old(db.counter)
      ensures !fault.InsertFails? ==>
                var was := old(db.open).value;
                && db.open == Some(was.(ledger := was.ledger + [LedgerRow(old(db.counter), timestamp, stmt)]))
                && db.counter == old(db.counter) + 1
    {
      if fault.InsertFails? {
        return None;
      }
      var seqId := db.counter;
      db.open := Some(db.open.value.(ledger := db.open.value.ledger + [LedgerRow(seqId, timestamp, stmt)]));
      db.counter := db.counter + 1;
      if fault.LastInsertIdFails? {
        return None;
      }
      return Some(seqId);
    }
  }
}
