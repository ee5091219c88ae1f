/** What the row statements do to rows: after any list of them, the last statement on a key decides what
    its table holds under that key. */
module TableEffects {
  import opened Wrappers
  import opened Tables
  import opened Ledger
  import opened LdbWriter
  import opened LdbWriterTheorems

  /** The row that a table holds under a key. */
  function RowAt(db: Tables, table: string, key: seq<Value>): Option<seq<Value>> {
    if table in db && key in db[table].rows then Some(db[table].rows[key]) else None
  }

  /** The statement is on this key of its table: an upsert whose values hold the key in the key columns, or
      a delete of this key. NULL in a key equals nothing. */
  predicate OnKey(t: Table, d: Dml, key: seq<Value>) {
    && |key| == |t.key| && Null !in key
    && match d
       case Delete(_, _, values) => key == values
       case Upsert(_, _, values) =>
         forall i :: 0 <= i < |key| ==>
           && t.key[i] in t.columns && IndexOf(t.columns, t.key[i]) < |values|
           && key[i] == values[IndexOf(t.columns, t.key[i])]
  }

  /** The statement is on this key of this table. */
  predicate OnRow(db: Tables, d: Dml, table: string, key: seq<Value>) {
    d.table == table && table in db && OnKey(db[table], d, key)
  }

  /** What the statement leaves under the keys it is on. */
  function Outcome(d: Dml): Option<seq<Value>> {
    if d.Upsert? then Some(d.values) else None
  }

  predicate SameSchemas(a: Tables, b: Tables) {
    && a.Keys == b.Keys
    && forall name :: name in a ==> a[name].columns == b[name].columns && a[name].key == b[name].key
  }

  /** When a statement is an SQL error. */
  predicate Fitting(db: Tables, d: Dml) {
    && d.table in db
    && var t := db[d.table];
       if d.Delete? then d.fields == t.key && |d.values| == |t.key|
       else
         && d.fields == t.columns && |d.values| == |t.columns|
         && forall k :: k in t.key ==> k in t.columns && d.values[IndexOf(t.columns, k)] != Null
  }

  lemma FitsExactlyWhen(db: Tables, d: Dml)
    ensures Exec(db, d).Some? <==> Fitting(db, d)
  {
    if d.table in db && d.Upsert? && d.fields == db[d.table].columns && |d.values| == |d.fields| {
      var t := db[d.table];
      if forall k :: k in t.key ==> k in t.columns {
        var key := KeyOf(t, d.values);
        if Null in key {
          var i :| 0 <= i < |key| && key[i] == Null;
          assert t.key[i] in t.key;
        }
        forall k | k in t.key && d.values[IndexOf(t.columns, k)] == Null ensures Null in key {
          var i :| 0 <= i < |t.key| && t.key[i] == k;
          assert key[i] == Null;
        }
      }
    }
  }

  /** One statement: the row of every key it is on becomes its outcome, every other row of every table stays, and
      so do the columns and keys of the tables. */
  lemma ExecSetsItsRow(db: Tables, d: Dml, table: string, key: seq<Value>)
    requires Exec(db, d).Some? && Null !in key
    ensures
      var after := Exec(db, d).value;
      && SameSchemas(db, after)
      && RowAt(after, table, key) == if OnRow(db, d, table, key) then Outcome(d) else RowAt(db, table, key)
  {
    if d.table == table && d.Upsert? {
      var t := db[table];
      var k := KeyOf(t, d.values);
      if k == key {
        assert OnKey(t, d, key);
      }
    }
  }

  lemma SchemasOfAll(db: Tables, ds: seq<Dml>)
    requires ExecAll(db, ds).Some?
    ensures SameSchemas(db, ExecAll(db, ds).value)
  {
    hide Exec;
    if ds != [] {
      SchemasOfAll(db, ds[..|ds| - 1]);
      ExecSetsItsRow(ExecAll(db, ds[..|ds| - 1]).value, ds[|ds| - 1], "", []);
    }
  }

  lemma ExecAllOneMore(db: Tables, ds: seq<Dml>, d: Dml)
    requires ExecAll(db, ds).Some?
    ensures ExecAll(db, ds + [d]) == Exec(ExecAll(db, ds).value, d)
  {
    hide Exec;
    assert (ds + [d])[..|ds|] == ds;
  }

  lemma {:induction false} PrefixRuns(db: Tables, ds: seq<Dml>, n: nat)
    requires ExecAll(db, ds).Some? && n <= |ds|
    ensures ExecAll(db, ds[..n]).Some?
  {
    hide Exec;
    if n == |ds| {
      assert ds[..n] == ds;
    } else {
      PrefixRuns(db, ds[..|ds| - 1], n);
      assert ds[..|ds| - 1][..n] == ds[..n];
    }
  }

  /** Which of the statements on a key comes last; -1 if there is none. */
  predicate IsLastOn(db: Tables, ds: seq<Dml>, table: string, key: seq<Value>, i: int) {
    && -1 <= i < |ds|
    && (i >= 0 ==> OnRow(db, ds[i], table, key))
    && forall j :: i < j < |ds| ==> !OnRow(db, ds[j], table, key)
  }

  /** After any list of statements, the last one on a key decides its row: the values of an upsert, no row after a
      delete, and the row there was before if there is no statement on it. */
  lemma {:induction false} LastStatementDecides(db: Tables, ds: seq<Dml>, table: string, key: seq<Value>, i: int)
    requires ExecAll(db, ds).Some? && Null !in key && IsLastOn(db, ds, table, key, i)
    ensures RowAt(ExecAll(db, ds).value, table, key) == if i < 0 then RowAt(db, table, key) else Outcome(ds[i])
  {
    hide Exec, OnKey, Outcome, RowAt;
    if ds != [] {
      var n := |ds| - 1;
      var mid := ExecAll(db, ds[..n]).value;
      SchemasOfAll(db, ds[..n]);
      SameKeys(db, mid, ds[n], table, key);
      ExecSetsItsRow(mid, ds[n], table, key);
      if i < n {
        LastStatementDecides(db, ds[..n], table, key, i);
      }
    }
  }

  lemma SameKeys(a: Tables, b: Tables, d: Dml, table: string, key: seq<Value>)
    requires SameSchemas(a, b)
    ensures OnRow(a, d, table, key) <==> OnRow(b, d, table, key)
  {
  }

  /** The row statements of ledger rows. */
  function DmlsOf(rows: seq<LedgerRow>): seq<Dml> {
    if rows == [] then []
    else
      var n := |rows| - 1;
      DmlsOf(rows[..n]) + (if rows[n].stmt.Row? then [rows[n].stmt.dml] else [])
  }

  lemma {:induction false} ReplayRunsItsDmls(db: Tables, rows: seq<LedgerRow>)
    ensures Replay(db, rows) == ExecAll(db, DmlsOf(rows))
  {
    hide Exec;
    if rows != [] {
      var n := |rows| - 1;
      ReplayRunsItsDmls(db, rows[..n]);
      var ds := DmlsOf(rows[..n]);
      if rows[n].stmt.Row? {
        assert DmlsOf(rows)[..|ds|] == ds;
      } else {
        assert ds + [] == ds;
      }
    }
  }

  /** What a replica's writer has done, whatever it was called with and whatever failed: under every key the committed
      LDB holds what the last statement on it leaves, of those whose transactions returned success. */
  lemma JournalDecidesTheRows(w: Writer, calls: seq<Call>, table: string, key: seq<Value>, i: int)
    requires w.tx.NoTx? && Null !in key
    requires IsLastOn(w.db.tables, DmlsOf(JournalOf(w, calls).committed), table, key, i)
    ensures
      RowAt(Run(w, calls).db.tables, table, key) ==
      if i < 0 then RowAt(w.db.tables, table, key) else Outcome(DmlsOf(JournalOf(w, calls).committed)[i])
  {
    hide Run, JournalOf, ExecAll;
    JournalExplainsRun(w, calls);
    var rows := JournalOf(w, calls).committed;
    ReplayRunsItsDmls(w.db.tables, rows);
    LastStatementDecides(w.db.tables, DmlsOf(rows), table, key, i);
  }

  /** One applied statement outside a ledger transaction. */
  lemma LoneStatementSetsItsRow(w: Writer, row: LedgerRow, fault: ApplyFault, table: string, key: seq<Value>)
    requires w.tx.NoTx? && row.stmt.Row? && Apply(w, row, fault).1.None? && Null !in key
    ensures
      RowAt(Apply(w, row, fault).0.db.tables, table, key) ==
      if OnRow(w.db.tables, row.stmt.dml, table, key) then Outcome(row.stmt.dml) else RowAt(w.db.tables, table, key)
  {
    assert Exec(w.db.tables, row.stmt.dml) == Some(Apply(w, row, fault).0.db.tables);
    hide Exec, Apply;
    ExecSetsItsRow(w.db.tables, row.stmt.dml, table, key);
  }

  // ---------- when an apply succeeds ----------

  /** Whether the call gets as far as the SQL call that fails. */
  predicate Reaches(w: Writer, row: LedgerRow, fault: ApplyFault) {
    match fault
    case NoFault => false
    case BeginFails => w.tx.NoTx?
    case ExecFails => row.stmt.Row?
    case CommitFails => row.stmt.TxEnd? || (w.tx.NoTx? && row.stmt.Row?)
    case _ => true
  }

  /** A call succeeds exactly when no SQL call it makes fails, the writer is not poisoned, the number is above the one
      that its transaction sees, a BEGIN comes outside a ledger transaction and a COMMIT inside one, and a row
      statement fits its table. */
  lemma AppliesExactlyWhen(w: Writer, row: LedgerRow, fault: ApplyFault)
    ensures Apply(w, row, fault).1.None? <==>
            && !w.tx.Dead? && !Reaches(w, row, fault)
            && Before(if w.tx.Live? then w.tx.view.seqNo else w.db.seqNo, row.seqNo)
            && (row.stmt.TxBegin? ==> w.tx.NoTx?) && (row.stmt.TxEnd? ==> w.tx.Live?)
            && (row.stmt.Row? ==> Fitting(if w.tx.Live? then w.tx.view.tables else w.db.tables, row.stmt.dml))
  {
    hide Exec, Fitting;
    if row.stmt.Row? {
      FitsExactlyWhen(if w.tx.Live? then w.tx.view.tables else w.db.tables, row.stmt.dml);
    }
  }
}
