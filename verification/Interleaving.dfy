/** Mutates running at the same time, interleaved SQL statement by SQL statement. The row lock on
    ('locks', 'ledger') is the only thing that keeps them apart: it is taken before the cookie
    check and held until commit or rollback. */
module Interleaving {
  import opened Wrappers
  import opened Tables
  import opened Ledger
  import opened Mutators

  datatype Request = Request(who: Credentials, cookie: Cookie, check: Option<Cookie>, batch: seq<Dml>)

  /** How far a transaction is: begun; holding the lock; or past the cookie check, with `done`
      statements logged and, for a row statement, whether it has been executed. */
  datatype Stage = Begun | Locked | Writing(done: nat, executed: bool)

  /** A transaction and its own uncommitted writes. */
  datatype Txn = Txn(req: Request, stage: Stage, tables: Tables, rows: seq<LedgerRow>, mutator: Option<Mutator>)

  /** The ctldb: committed contents, the auto-increment counter (which no rollback restores by
      itself), the holder of the ledger lock, and the transactions under way. */
  datatype Ctl = Ctl(
    tables: Tables, ledger: seq<LedgerRow>, mutators: MutatorRows,
    counter: int, lock: Option<nat>, txns: map<nat, Txn>)

  datatype Step =
    | Begin(id: nat, req: Request)
    | TakeLock(id: nat)
    | CheckCookie(id: nat)
    | ExecRow(id: nat)
    | LogRow(id: nat, timestamp: int)
    | Commit(id: nat)
      /** A rollback, by an error at any SQL call or a lost connection. The counter may stay where it
          is, or be set back to anything above the committed rows. */
    | Rollback(id: nat, counter: int)
    | SetCookie(who: Credentials, cookie: Cookie)
    | RegisterWriter(who: Credentials, token: Cookie)

  predicate Holds(s: Ctl, id: nat) {
    s.lock == Some(id) && id in s.txns
  }

  /** The row of this writer is locked by an uncommitted cookie update. */
  predicate WriterBusy(s: Ctl, writer: string) {
    s.lock.Some? && s.lock.value in s.txns && s.txns[s.lock.value].stage.Writing?
    && s.txns[s.lock.value].req.who.writer == writer
  }

  /** The state after a step; None if the step cannot be taken. */
  function Next(s: Ctl, step: Step): Option<Ctl> {
    match step
    case Begin(id, req) =>
      if id in s.txns || req.batch == [] then None
      else Some(s.(txns := s.txns[id := Txn(req, Begun, map[], [], None)]))
    case TakeLock(id) =>
      if id !in s.txns || !s.txns[id].stage.Begun? || s.lock.Some? then None
      else Some(s.(lock := Some(id), txns := s.txns[id := s.txns[id].(stage := Locked, tables := s.tables)]))
    case CheckCookie(id) =>
      if !Holds(s, id) || !s.txns[id].stage.Locked? then None
      else
        var t := s.txns[id];
        (match Update(s.mutators, t.req.who, t.req.cookie, t.req.check)
         case Err(_) => None
         case Ok(rows) =>
           if t.req.who.writer !in rows then None
           else Some(s.(txns := s.txns[id := t.(stage := Writing(0, false), mutator := Some(rows[t.req.who.writer]))])))
    case ExecRow(id) =>
      if !Holds(s, id) || !s.txns[id].stage.Writing? then None
      else
        var t := s.txns[id];
        var k := t.stage.done;
        if t.stage.executed || k >= LogLength(t.req.batch) || !LogAt(t.req.batch, k).Row? then None
        else
          (match Exec(t.tables, LogAt(t.req.batch, k).dml)
           case None => None
           case Some(tables) =>
             Some(s.(txns := s.txns[id := t.(tables := tables, stage := Writing(k, true))])))
    case LogRow(id, timestamp) =>
      if !Holds(s, id) || !s.txns[id].stage.Writing? then None
      else
        var t := s.txns[id];
        var k := t.stage.done;
        if k >= LogLength(t.req.batch) || (LogAt(t.req.batch, k).Row? && !t.stage.executed) then None
        else
          var row := LedgerRow(s.counter, timestamp, LogAt(t.req.batch, k));
          Some(s.(counter := s.counter + 1,
                  txns := s.txns[id := t.(rows := t.rows + [row], stage := Writing(k + 1, false))]))
    case Commit(id) =>
      if !Holds(s, id) || s.txns[id].stage != Writing(LogLength(s.txns[id].req.batch), false)
         || s.txns[id].mutator.None? then None
      else
        var t := s.txns[id];
        Some(s.(tables := t.tables, ledger := s.ledger + t.rows,
                mutators := s.mutators[t.req.who.writer := t.mutator.value],
                lock := None, txns := s.txns - {id}))
    case Rollback(id, counter) =>
      if id !in s.txns || (if s.lock == Some(id) then counter <= LastSeq(s.ledger) else counter != s.counter) then None
      else Some(s.(counter := counter, lock := if s.lock == Some(id) then None else s.lock, txns := s.txns - {id}))
    case SetCookie(who, cookie) =>
      if WriterBusy(s, who.writer) then None
      else
        (match Update(s.mutators, who, cookie, None)
         case Err(_) => None
         case Ok(rows) => Some(s.(mutators := rows)))
    case RegisterWriter(who, token) =>
      if WriterBusy(s, who.writer) then None
      else
        (match Register(s.mutators, who, token)
         case None => None
         case Some(rows) => Some(s.(mutators := rows)))
  }

  ghost predicate Init(s: Ctl) {
    s.ledger == [] && s.counter > 0 && s.lock == None && s.txns == map[]
  }

  /** The statements executed so far by a transaction that has logged `done` statements. */
  function Executed(batch: seq<Dml>, stage: Stage): seq<Dml>
    requires stage.Writing? && stage.done <= LogLength(batch)
  {
    var lead := if |batch| > 1 then 1 else 0;
    var n := stage.done - lead + (if stage.executed then 1 else 0);
    if n <= 0 then [] else if n < |batch| then batch[..n] else batch
  }

  /** The cookie check passes and would leave this row. */
  predicate Passes(rows: MutatorRows, req: Request, row: Mutator) {
    && Update(rows, req.who, req.cookie, req.check).Ok?
    && rows[req.who.writer := row] == Update(rows, req.who, req.cookie, req.check).value
  }

  /** What a transaction that holds the lock has done, in terms of the committed contents: its cookie
      check still holds, its tables are the committed ones after its executed statements, and its
      rows are the start of a block numbered from just after the counter when it started. */
  ghost predicate HolderOk(s: Ctl, t: Txn) {
    && t.req.batch != []
    && !t.stage.Begun?
    && (t.stage.Locked? ==> t.rows == [] && t.tables == s.tables)
    && (t.stage.Writing? ==>
          && t.stage.done == |t.rows| <= LogLength(t.req.batch)
          && (t.stage.executed ==> t.stage.done < LogLength(t.req.batch) && LogAt(t.req.batch, t.stage.done).Row?)
          && t.mutator.Some?
          && Passes(s.mutators, t.req, t.mutator.value)
          && ExecAll(s.tables, Executed(t.req.batch, t.stage)) == Some(t.tables)
          && StartsBlock(t.rows, t.req.batch)
          && s.counter == (if t.rows == [] then s.counter else t.rows[0].seqNo + |t.rows|)
          && (t.rows != [] ==> t.rows[0].seqNo > LastSeq(s.ledger)))
  }

  ghost predicate Inv(s: Ctl) {
    && s.counter > LastSeq(s.ledger) >= 0
    && (s.lock.Some? ==> s.lock.value in s.txns && HolderOk(s, s.txns[s.lock.value]))
    && (forall id :: id in s.txns && s.lock != Some(id) ==>
          s.txns[id].stage.Begun? && s.txns[id].rows == [] && s.txns[id].req.batch != [])
  }

  /** An indivisible Mutate: the cookie check passes, the batch runs on the committed tables, and one
      block for it is appended above every committed row. */
  ghost predicate AtomicMutate(s: Ctl, req: Request, b: seq<LedgerRow>, s': Ctl) {
    && Update(s.mutators, req.who, req.cookie, req.check) == Ok(s'.mutators)
    && ExecAll(s.tables, req.batch) == Some(s'.tables)
    && IsBlock(b, req.batch) && |b| > 0 && b[0].seqNo > LastSeq(s.ledger) && b[0].seqNo > 0
    && s'.ledger == s.ledger + b
  }

  lemma BeginKeeps(s: Ctl, id: nat, req: Request)
    requires Inv(s) && Next(s, Begin(id, req)).Some?
    ensures Inv(Next(s, Begin(id, req)).value)
  {
  }

  lemma TakeLockKeeps(s: Ctl, id: nat)
    requires Inv(s) && Next(s, TakeLock(id)).Some?
    ensures Inv(Next(s, TakeLock(id)).value)
  {
  }

  lemma CheckCookieKeeps(s: Ctl, id: nat)
    requires Inv(s) && Next(s, CheckCookie(id)).Some?
    ensures Inv(Next(s, CheckCookie(id)).value)
  {
    var t := s.txns[id];
    assert Executed(t.req.batch, Writing(0, false)) == [];
    assert HolderOk(Next(s, CheckCookie(id)).value, Next(s, CheckCookie(id)).value.txns[id]);
  }

  lemma ExecutedOneMore(batch: seq<Dml>, k: nat)
    requires k < LogLength(batch) && LogAt(batch, k).Row?
    ensures Executed(batch, Writing(k, true)) == Executed(batch, Writing(k, false)) + [LogAt(batch, k).dml]
  {
  }

  lemma ExecutedAsLogged(batch: seq<Dml>, k: nat, executed: bool)
    requires k < LogLength(batch) && executed == LogAt(batch, k).Row?
    ensures Executed(batch, Writing(k + 1, false)) == Executed(batch, Writing(k, executed))
  {
  }

  lemma ExecRowKeeps(s: Ctl, id: nat)
    requires Inv(s) && Next(s, ExecRow(id)).Some?
    ensures Inv(Next(s, ExecRow(id)).value)
  {
    var t := s.txns[id];
    var k := t.stage.done;
    var before, after := Executed(t.req.batch, t.stage), Executed(t.req.batch, Writing(k, true));
    ExecutedOneMore(t.req.batch, k);
    assert after[..|after| - 1] == before;
    assert HolderOk(Next(s, ExecRow(id)).value, Next(s, ExecRow(id)).value.txns[id]);
  }

  lemma StartsBlockGrows(rows: seq<LedgerRow>, batch: seq<Dml>, row: LedgerRow)
    requires StartsBlock(rows, batch) && |rows| < LogLength(batch)
    requires row.stmt == LogAt(batch, |rows|) && (rows != [] ==> row.seqNo == rows[0].seqNo + |rows|)
    ensures StartsBlock(rows + [row], batch)
  {
  }

  lemma LogRowKeeps(s: Ctl, id: nat, timestamp: int)
    requires Inv(s) && Next(s, LogRow(id, timestamp)).Some?
    ensures Inv(Next(s, LogRow(id, timestamp)).value)
  {
    hide Passes, Exec, ExecAll, Executed, StartsBlock, LogAt;
    var t := s.txns[id];
    var s' := Next(s, LogRow(id, timestamp)).value;
    ExecutedAsLogged(t.req.batch, t.stage.done, t.stage.executed);
    StartsBlockGrows(t.rows, t.req.batch, s'.txns[id].rows[t.stage.done]);
    assert HolderOk(s', s'.txns[id]);
  }

  lemma RollbackKeeps(s: Ctl, id: nat, counter: int)
    requires Inv(s) && Next(s, Rollback(id, counter)).Some?
    ensures Inv(Next(s, Rollback(id, counter)).value)
  {
  }

  lemma OutsideUpdateKeeps(s: Ctl, step: Step)
    requires step.SetCookie? || step.RegisterWriter?
    requires Inv(s) && Next(s, step).Some?
    ensures Inv(Next(s, step).value)
  {
    var s' := Next(s, step).value;
    if s.lock.Some? {
      var t := s.txns[s.lock.value];
      if t.stage.Writing? {
        var w := t.req.who.writer;
        assert s.mutators[w := t.mutator.value][w] == t.mutator.value;
        assert w in s'.mutators && s'.mutators[w] == s.mutators[w];
        assert Passes(s'.mutators, t.req, t.mutator.value);
        assert HolderOk(s', t);
      }
    }
  }

  /** A commit is an indivisible Mutate, whatever ran in between its statements. */
  lemma CommitIsAtomic(s: Ctl, id: nat)
    requires Inv(s) && Next(s, Commit(id)).Some?
    ensures Inv(Next(s, Commit(id)).value)
    ensures AtomicMutate(s, s.txns[id].req, s.txns[id].rows, Next(s, Commit(id)).value)
  {
    var t := s.txns[id];
    assert Executed(t.req.batch, t.stage) == t.req.batch;
    var s' := Next(s, Commit(id)).value;
    assert LastSeq(s'.ledger) == t.rows[|t.rows| - 1].seqNo == t.rows[0].seqNo + |t.rows| - 1;
  }
}
