/** What a Mutate does, in terms of its requests: which statements it commits, what they leave in the tables, and
    exactly when it commits. */
module MutateTheorems {
  import opened Wrappers
  import opened Tables
  import opened Ledger
  import opened Mutators
  import opened CtlDb
  import opened Limiter
  import opened Names
  import opened SqlText
  import opened Executive
  import opened TableEffects

  /** The values of these columns in a request, in order. */
  predicate ValuesOf(r: MutationRequest, columns: seq<string>, values: seq<Value>) {
    && |values| == |columns|
    && forall k :: 0 <= k < |columns| ==> columns[k] in r.values && values[k] == r.values[columns[k]]
  }

  /** The statement that a request asks for: to write the values of all columns, or to delete the row with its
      key. */
  predicate AsRequested(tables: Tables, family: string, r: MutationRequest, d: Dml) {
    var name := LDBTableName(family, r.table);
    && name in tables && d.table == name
    && if r.delete
       then d.Delete? && d.fields == tables[name].key && ValuesOf(r, tables[name].key, d.values)
       else d.Upsert? && d.fields == tables[name].columns && ValuesOf(r, tables[name].columns, d.values)
  }

  lemma OrderedValues(r: MutationRequest, order: seq<string>, values: seq<Value>)
    ensures ValuesByOrder(r.values, order) == Some(values) <==> ValuesOf(r, order, values)
  {
    hide ValuesByOrder;
    ValuesAreInOrder(r.values, order);
    if ValuesOf(r, order, values) {
      assert ValuesByOrder(r.values, order).value == values;
    }
  }

  /** Planning gives exactly the statement asked for, if it is not too long. */
  lemma PlansWhatIsRequested(tables: Tables, family: string, r: MutationRequest, d: Dml)
    requires LDBTableName(family, r.table) in tables
    ensures Plan(tables, family, r) == Ok(d) <==>
            AsRequested(tables, family, r, d) && Paired(Row(d)) && |Text(Row(d))| <= LIMIT_MAX_DML_SIZE
  {
    hide Text, ValuesByOrder, ValuesOf, LDBTableName;
    var name := LDBTableName(family, r.table);
    var order := if r.delete then tables[name].key else tables[name].columns;
    OrderedValues(r, order, d.values);
    PairedWhenOrdered(r, order, d.values);
  }

  lemma PairedWhenOrdered(r: MutationRequest, order: seq<string>, values: seq<Value>)
    ensures ValuesOf(r, order, values) ==> |values| == |order|
  {
  }

  /** The statements that a committed Mutate executes and logs are those its requests ask for, in order. */
  lemma CommittedAsRequested(d: CtlData, c: Call, bucket: int, ds: seq<Dml>, counter: int, d': CtlData, i: nat)
    requires CommittedAs(d, c, bucket, ds, counter, d') && i < |c.requests|
    ensures |ds| == |c.requests| && AsRequested(d.tables, c.family, c.requests[i], ds[i])
  {
    hide Plan, AsRequested, ExecAll, Update, IsBlock;
    PlansWhatIsRequested(d.tables, c.family, c.requests[i], ds[i]);
  }

  // ---------- what it leaves in the tables ----------

  /** The request is for this key of this table. */
  predicate ForKey(tables: Tables, family: string, r: MutationRequest, table: string, key: seq<Value>) {
    && LDBTableName(family, r.table) == table && table in tables
    && ValuesOf(r, tables[table].key, key)
  }

  lemma RequestIsOnItsKey(tables: Tables, family: string, r: MutationRequest, d: Dml, table: string, key: seq<Value>)
    requires AsRequested(tables, family, r, d) && Fitting(tables, d) && Null !in key
    ensures OnRow(tables, d, table, key) <==> ForKey(tables, family, r, table, key)
  {
    hide LDBTableName;
    if d.table == table {
      var t := tables[table];
      if d.Upsert? {
        forall i | 0 <= i < |t.key|
          ensures t.key[i] in t.columns && d.values[IndexOf(t.columns, t.key[i])] == r.values[t.key[i]]
        {
          assert t.key[i] in t.key;
        }
      } else if OnRow(tables, d, table, key) || ForKey(tables, family, r, table, key) {
        assert |key| == |d.values|;
        if ForKey(tables, family, r, table, key) {
          assert key == d.values;
        }
      }
    }
  }

  /** Every executed statement fits the tables of the start. */
  lemma {:induction false} ExecutedFit(db: Tables, ds: seq<Dml>, i: nat)
    requires ExecAll(db, ds).Some? && i < |ds|
    ensures Fitting(db, ds[i])
  {
    hide Exec, Fitting;
    var n := |ds| - 1;
    if i < n {
      ExecutedFit(db, ds[..n], i);
    } else {
      var mid := ExecAll(db, ds[..n]).value;
      FitsExactlyWhen(mid, ds[n]);
      SchemasOfAll(db, ds[..n]);
      FittingOfSchemas(db, mid, ds[n]);
    }
  }

  lemma FittingOfSchemas(a: Tables, b: Tables, d: Dml)
    requires SameSchemas(a, b)
    ensures Fitting(a, d) <==> Fitting(b, d)
  {
  }

  /** Which of the requests for a key comes last; -1 if there is none. */
  predicate IsLastFor(d: CtlData, c: Call, table: string, key: seq<Value>, i: int) {
    && -1 <= i < |c.requests|
    && (i >= 0 ==> ForKey(d.tables, c.family, c.requests[i], table, key))
    && forall j :: i < j < |c.requests| ==> !ForKey(d.tables, c.family, c.requests[j], table, key)
  }

  /** After a committed Mutate the last request for a key decides: its row is gone if that deletes, holds the values of
      that for every column if it writes, and is as before if no request was for the key. */
  lemma LastRequestDecides(
      d: CtlData, c: Call, bucket: int, ds: seq<Dml>, counter: int, d': CtlData, table: string, key: seq<Value>, i: int)
    requires CommittedAs(d, c, bucket, ds, counter, d') && Null !in key && IsLastFor(d, c, table, key, i)
    ensures
      var row := RowAt(d'.tables, table, key);
      if i < 0 then row == RowAt(d.tables, table, key)
      else if c.requests[i].delete then row == None
      else row.Some? && ValuesOf(c.requests[i], d.tables[table].columns, row.value)
  {
    hide Plan, AsRequested, ForKey, ExecAll, Exec, Update, IsBlock, OnRow, RowAt, Fitting;
    forall j | 0 <= j < |ds|
      ensures OnRow(d.tables, ds[j], table, key) <==> ForKey(d.tables, c.family, c.requests[j], table, key)
    {
      CommittedAsRequested(d, c, bucket, ds, counter, d', j);
      ExecutedFit(d.tables, ds, j);
      RequestIsOnItsKey(d.tables, c.family, c.requests[j], ds[j], table, key);
    }
    assert IsLastOn(d.tables, ds, table, key, i);
    LastStatementDecides(d.tables, ds, table, key, i);
    if i >= 0 {
      CommittedAsRequested(d, c, bucket, ds, counter, d', i);
      OutcomeAsRequested(d.tables, c.family, c.requests[i], ds[i], table, key);
    }
  }

  lemma OutcomeAsRequested(tables: Tables, family: string, r: MutationRequest, d: Dml, table: string, key: seq<Value>)
    requires AsRequested(tables, family, r, d) && ForKey(tables, family, r, table, key)
    ensures if r.delete then Outcome(d) == None
            else Outcome(d).Some? && ValuesOf(r, tables[table].columns, Outcome(d).value)
  {
    hide LDBTableName, ValuesOf;
  }

  // ---------- exactly when it commits ----------

  /** The statements that the requests ask for: each short enough for the ledger, and all executable in order. */
  ghost predicate CanRun(d: CtlData, c: Call, ds: seq<Dml>) {
    && |ds| == |c.requests|
    && (forall i :: 0 <= i < |ds| ==>
          && AsRequested(d.tables, c.family, c.requests[i], ds[i])
          && Paired(Row(ds[i])) && |Text(Row(ds[i]))| <= 768 * 1024)
    && ExecAll(d.tables, ds).Some?
  }

  lemma {:induction false} WritesWhatCanRun(d: CtlData, c: Call, ds: seq<Dml>, n: nat)
    requires CanRun(d, c, ds) && n <= |ds| && Found(d.tables, c)
    ensures ExecAll(d.tables, ds[..n]).Some?
    ensures WriteFirst(d.tables, d.tables, c, NoFault, n) == Ok((ExecAll(d.tables, ds[..n]).value, ds[..n]))
  {
    hide Plan, WriteFirst, WriteOne, Exec, ExecAll, AsRequested, Text;
    PrefixRuns(d.tables, ds, n);
    if n == 0 {
      WriteFirstNone(d.tables, d.tables, c, NoFault);
    } else {
      var m := n - 1;
      WritesWhatCanRun(d, c, ds, m);
      WriteFirstNext(d.tables, d.tables, c, NoFault, m);
      PlansWhatIsRequested(d.tables, c.family, c.requests[m], ds[m]);
      ExecAllOneMore(d.tables, ds[..m], ds[m]);
      assert ds[..m] + [ds[m]] == ds[..n];
      WritesOne(d, c, ExecAll(d.tables, ds[..m]).value, m, ds[m]);
    }
  }

  lemma WritesOne(d: CtlData, c: Call, t: Tables, i: nat, dml: Dml)
    requires i < |c.requests| && Found(d.tables, c)
    requires Plan(d.tables, c.family, c.requests[i]) == Ok(dml) && Exec(t, dml).Some?
    ensures WriteOne(d.tables, t, c, NoFault, i) == Ok((Exec(t, dml).value, dml))
  {
    hide Plan, Exec;
  }

  /** A call in which no SQL call fails commits exactly when: it has between one and a hundred requests, on tables that
      exist and whose family does not end in an underscore; the writer stays within its limit; it is registered with
      this secret, the cookies are short enough and the check, if any, is the stored cookie; and the statements
      that the requests ask for can run. Those are then what it commits. */
  lemma CommitsExactlyWhen(d: CtlData, c: Call, bucket: int, limit: int, ds: seq<Dml>)
    requires NormalNames(c)
    ensures Verdict(d, c, bucket, limit, NoFault) == Ok(ds) <==>
            && 0 < |c.requests| <= 100
            && Found(d.tables, c) && c.family[|c.family| - 1] != '_'
            && Amount(d.usage, c.who.writer, bucket) + |c.requests| <= limit
            && MaySetCookie(d.mutators, c)
            && CanRun(d, c, ds)
  {
    hide FetchTables, WriteBatch, CanRun, NormalNames, Found;
    TablesAreFetchedExactlyWhen(d.tables, c, NoFault);
    if c.requests != [] {
      GateIsPassedExactlyWhen(d, c, bucket, limit);
      if Found(d.tables, c) {
        RunsExactlyWhen(d, c, ds);
      }
    }
  }

  predicate MaySetCookie(rows: MutatorRows, c: Call) {
    && c.who.writer in rows && rows[c.who.writer].secret == c.who.secret
    && |c.cookie| <= 1024
    && (c.check.Some? ==> |c.check.value| <= 1024 && c.check.value == rows[c.who.writer].cookie)
  }

  lemma GateIsPassedExactlyWhen(d: CtlData, c: Call, bucket: int, limit: int)
    requires c.requests != []
    ensures Gate(d, c, bucket, limit, NoFault).None? <==>
            && Amount(d.usage, c.who.writer, bucket) + |c.requests| <= limit
            && MaySetCookie(d.mutators, c)
  {
  }

  lemma RunsExactlyWhen(d: CtlData, c: Call, ds: seq<Dml>)
    requires c.requests != [] && Found(d.tables, c)
    ensures (exists t :: WriteBatch(d.tables, d.tables, c, NoFault) == Ok((t, ds))) <==> CanRun(d, c, ds)
  {
    hide Plan, WriteFirst, WriteOne, ExecAll, AsRequested, Text;
    var n := |c.requests|;
    if WriteFirst(d.tables, d.tables, c, NoFault, n).Ok? {
      WriteFirstRuns(d.tables, d.tables, c, NoFault, n);
      var made := WriteFirst(d.tables, d.tables, c, NoFault, n).value.1;
      forall i | 0 <= i < n
        ensures AsRequested(d.tables, c.family, c.requests[i], made[i])
        ensures Paired(Row(made[i])) && |Text(Row(made[i]))| <= LIMIT_MAX_DML_SIZE
      {
        PlansWhatIsRequested(d.tables, c.family, c.requests[i], made[i]);
      }
    }
    if CanRun(d, c, ds) {
      WritesWhatCanRun(d, c, ds, n);
      assert ds[..n] == ds;
    }
  }

  // ---------- faults ----------

  /** Whether executing or logging one of the first n requests fails. */
  predicate FailsWriting(fault: MutateFault, n: nat) {
    || (fault.ExecFails? && fault.i < n)
    || (fault.LogFails? && fault.i < n && !fault.how.NoAddFault?)
  }

  /** Whether a call that would otherwise commit makes the SQL call that fails. Only a cookie update that changes no
      row is followed by a lookup, and only batches of several requests have markers. */
  predicate Meets(c: Call, fault: MutateFault) {
    match fault
    case NoFault => false
    case LimiterFails(f) => !f.NoLimiterFault?
    case CookieFails(k) => k.UpdateFails?
    case LogBeginFails(how) => |c.requests| > 1 && !how.NoAddFault?
    case LogCommitFails(how) => |c.requests| > 1 && !how.NoAddFault?
    case ExecFails(_) => FailsWriting(fault, |c.requests|)
    case LogFails(_, _) => FailsWriting(fault, |c.requests|)
    case _ => true
  }

  lemma {:induction false} WritingFaults(d: CtlData, c: Call, fault: MutateFault, n: nat)
    requires n <= |c.requests| && Found(d.tables, c)
    ensures WriteFirst(d.tables, d.tables, c, fault, n).Ok? <==>
            WriteFirst(d.tables, d.tables, c, NoFault, n).Ok? && !FailsWriting(fault, n)
    ensures WriteFirst(d.tables, d.tables, c, fault, n).Ok? ==>
              WriteFirst(d.tables, d.tables, c, fault, n) == WriteFirst(d.tables, d.tables, c, NoFault, n)
  {
    hide Plan, Exec, Found;
    if n > 0 {
      WritingFaults(d, c, fault, n - 1);
    }
  }

  /** No failure is hidden: with a fault, a call commits exactly when it would without, and does not meet it. */
  lemma FaultsAreNeverHidden(d: CtlData, c: Call, bucket: int, limit: int, fault: MutateFault, ds: seq<Dml>)
    ensures Verdict(d, c, bucket, limit, fault) == Ok(ds) <==>
            Verdict(d, c, bucket, limit, NoFault) == Ok(ds) && !Meets(c, fault)
  {
    hide DecodeLDBTableName, WriteFirst, Plan, Exec, Update, Allowed, Found;
    if FetchTables(d.tables, c, NoFault).None? {
      FetchedAll(d.tables, c, NoFault);
      WritingFaults(d, c, fault, |c.requests|);
    }
  }
}
