/** Runs of single Mutates of the interleaved machine: any batch that can be executed can commit. */
module SoloMutates {
  import opened Wrappers
  import opened Tables
  import opened Ledger
  import opened Mutators
  import opened Interleaving
  import opened InterleavingTheorems
  import opened TableEffects

  lemma RunOneMore(s: Ctl, steps: seq<Step>, step: Step, writer: string)
    requires RunCtl(s, steps).Some? && Next(RunCtl(s, steps).value, step).Some?
    ensures RunCtl(s, steps + [step]) == Next(RunCtl(s, steps).value, step)
    ensures WritesOf(s, steps + [step], writer) ==
            WritesOf(s, steps, writer) + WriteOf(RunCtl(s, steps).value, step, writer)
  {
    hide Next;
    assert (steps + [step])[..|steps|] == steps;
  }

  lemma {:induction false} RunTwo(s: Ctl, a: seq<Step>, b: seq<Step>, writer: string)
    requires RunCtl(s, a).Some? && RunCtl(RunCtl(s, a).value, b).Some?
    ensures RunCtl(s, a + b) == RunCtl(RunCtl(s, a).value, b)
    ensures WritesOf(s, a + b, writer) == WritesOf(s, a, writer) + WritesOf(RunCtl(s, a).value, b, writer)
  {
    hide Next, WriteOf;
    if b == [] {
      assert a + b == a;
    } else {
      var n := |b| - 1;
      RunTwo(s, a, b[..n], writer);
      assert a + b == (a + b[..n]) + [b[n]];
      RunOneMore(s, a + b[..n], b[n], writer);
    }
  }

  /** The first k rows that a Mutate logs when it starts at this counter. */
  function LoggedRows(batch: seq<Dml>, counter: int, timestamp: int, k: nat): seq<LedgerRow>
    requires k <= LogLength(batch)
  {
    seq(k, i requires 0 <= i < k => LedgerRow(counter + i, timestamp, LogAt(batch, i)))
  }

  /** The ctldb after a Mutate that nothing gets in the way of. */
  function AfterSolo(s: Ctl, req: Request, t: Tables, rows: MutatorRows, timestamp: int): Ctl {
    var n := LogLength(req.batch);
    s.(tables := t, ledger := s.ledger + LoggedRows(req.batch, s.counter, timestamp, n),
       mutators := rows, counter := s.counter + n)
  }

  /** The same with the Mutate under way: past the cookie check, with k statements logged. */
  function UnderWay(s: Ctl, id: nat, req: Request, m: Mutator, t: Tables, timestamp: int, k: nat): Ctl
    requires k <= LogLength(req.batch)
  {
    var txn := Txn(req, Writing(k, false), t, LoggedRows(req.batch, s.counter, timestamp, k), Some(m));
    s.(lock := Some(id), counter := s.counter + k, txns := s.txns[id := txn])
  }

  lemma Starts(s: Ctl, id: nat, req: Request, rows: MutatorRows, timestamp: int) returns (steps: seq<Step>)
    requires s.lock == None && id !in s.txns && req.batch != []
    requires Update(s.mutators, req.who, req.cookie, req.check) == Ok(rows)
    ensures req.who.writer in rows
    ensures RunCtl(s, steps) == Some(UnderWay(s, id, req, rows[req.who.writer], s.tables, timestamp, 0))
    ensures WritesOf(s, steps, req.who.writer) == []
  {
    var w := req.who.writer;
    var t1 := Txn(req, Begun, map[], [], None);
    var t2 := t1.(stage := Locked, tables := s.tables);
    var t3 := t2.(stage := Writing(0, false), mutator := Some(rows[w]));
    var s1 := s.(txns := s.txns[id := t1]);
    var s2 := s1.(lock := Some(id), txns := s.txns[id := t2]);
    var s3 := s2.(txns := s.txns[id := t3]);
    assert Next(s, Begin(id, req)) == Some(s1);
    assert Next(s1, TakeLock(id)) == Some(s2) by { assert s1.txns[id := t2] == s.txns[id := t2]; }
    assert Next(s2, CheckCookie(id)) == Some(s3) by { assert s2.txns[id := t3] == s.txns[id := t3]; }
    assert LoggedRows(req.batch, s.counter, timestamp, 0) == [];
    assert s3 == UnderWay(s, id, req, rows[w], s.tables, timestamp, 0);
    hide Next;
    steps := [];
    RunOneMore(s, steps, Begin(id, req), w);
    steps := steps + [Begin(id, req)];
    RunOneMore(s, steps, TakeLock(id), w);
    steps := steps + [TakeLock(id)];
    RunOneMore(s, steps, CheckCookie(id), w);
    steps := steps + [CheckCookie(id)];
  }

  /** Logging statement k, after executing it if it is a row statement. */
  lemma LogsOneMore(s: Ctl, id: nat, req: Request, m: Mutator, t: Tables, t': Tables, timestamp: int, k: nat)
    returns (steps: seq<Step>)
    requires k < LogLength(req.batch)
    requires if LogAt(req.batch, k).Row? then Exec(t, LogAt(req.batch, k).dml) == Some(t') else t' == t
    ensures
      RunCtl(UnderWay(s, id, req, m, t, timestamp, k), steps) == Some(UnderWay(s, id, req, m, t', timestamp, k + 1))
    ensures WritesOf(UnderWay(s, id, req, m, t, timestamp, k), steps, req.who.writer) == []
  {
    var w := req.who.writer;
    var a, b := UnderWay(s, id, req, m, t, timestamp, k), UnderWay(s, id, req, m, t', timestamp, k + 1);
    var executed := LogAt(req.batch, k).Row?;
    var mid := a.(txns := s.txns[id := a.txns[id].(tables := t', stage := Writing(k, executed))]);
    var row := LedgerRow(s.counter + k, timestamp, LogAt(req.batch, k));
    assert LoggedRows(req.batch, s.counter, timestamp, k) + [row] == LoggedRows(req.batch, s.counter, timestamp, k + 1);
    assert executed ==> Next(a, ExecRow(id)) == Some(mid) by {
      assert a.txns[id := mid.txns[id]] == mid.txns;
    }
    assert !executed ==> mid == a by { assert s.txns[id := a.txns[id]] == a.txns; }
    assert Next(mid, LogRow(id, timestamp)) == Some(b) by {
      assert mid.txns[id := b.txns[id]] == b.txns;
    }
    hide Next, UnderWay;
    steps := [];
    if executed {
      RunOneMore(a, steps, ExecRow(id), w);
      steps := steps + [ExecRow(id)];
    }
    RunOneMore(a, steps, LogRow(id, timestamp), w);
    steps := steps + [LogRow(id, timestamp)];
  }

  /** The statements among the first k logged ones. */
  function DoneBy(batch: seq<Dml>, k: nat): seq<Dml>
    requires k <= LogLength(batch)
  {
    var lead := if |batch| > 1 then 1 else 0;
    if k <= lead then [] else if k - lead < |batch| then batch[..k - lead] else batch
  }

  lemma DoneByOneMore(batch: seq<Dml>, k: nat)
    requires k < LogLength(batch)
    ensures DoneBy(batch, k + 1) == DoneBy(batch, k) + (if LogAt(batch, k).Row? then [LogAt(batch, k).dml] else [])
    ensures DoneBy(batch, k + 1) == batch[..|DoneBy(batch, k + 1)|]
  {
  }

  lemma {:induction false} Logs(s: Ctl, id: nat, req: Request, m: Mutator, timestamp: int, k: nat)
    returns (steps: seq<Step>)
    requires k <= LogLength(req.batch) && ExecAll(s.tables, req.batch).Some?
    ensures ExecAll(s.tables, DoneBy(req.batch, k)).Some?
    ensures
      var t := ExecAll(s.tables, DoneBy(req.batch, k)).value;
      RunCtl(UnderWay(s, id, req, m, s.tables, timestamp, 0), steps) == Some(UnderWay(s, id, req, m, t, timestamp, k))
    ensures WritesOf(UnderWay(s, id, req, m, s.tables, timestamp, 0), steps, req.who.writer) == []
  {
    hide Exec, ExecAll, UnderWay, LogAt;
    var from := UnderWay(s, id, req, m, s.tables, timestamp, 0);
    if k == 0 {
      steps := [];
      NothingRuns(s.tables);
    } else {
      var a := Logs(s, id, req, m, timestamp, k - 1);
      DoneByOneMore(req.batch, k - 1);
      PrefixRuns(s.tables, req.batch, |DoneBy(req.batch, k)|);
      var before := DoneBy(req.batch, k - 1);
      var t, t' := ExecAll(s.tables, before).value, ExecAll(s.tables, DoneBy(req.batch, k)).value;
      if LogAt(req.batch, k - 1).Row? {
        ExecAllOneMore(s.tables, before, LogAt(req.batch, k - 1).dml);
      } else {
        assert before + [] == before;
      }
      var b := LogsOneMore(s, id, req, m, t, t', timestamp, k - 1);
      RunTwo(from, a, b, req.who.writer);
      steps := a + b;
    }
  }

  lemma NothingRuns(t: Tables)
    ensures ExecAll(t, []) == Some(t)
  {
  }

  /** Any batch can commit: from a state where nobody holds the lock, if the cookie check passes and the statements
      can be executed, there is a run of this one Mutate that commits it, as one block and one cookie write. */
  lemma SoloCommits(s: Ctl, id: nat, req: Request, t: Tables, rows: MutatorRows, timestamp: int)
    returns (steps: seq<Step>)
    requires s.lock == None && id !in s.txns && req.batch != []
    requires Update(s.mutators, req.who, req.cookie, req.check) == Ok(rows)
    requires ExecAll(s.tables, req.batch) == Some(t)
    ensures RunCtl(s, steps) == Some(AfterSolo(s, req, t, rows, timestamp))
    ensures WritesOf(s, steps, req.who.writer) == [CookieWrite(req.batch, req.check, req.cookie)]
  {
    var n := LogLength(req.batch);
    var a := Starts(s, id, req, rows, timestamp);
    var m := rows[req.who.writer];
    var b := Logs(s, id, req, m, timestamp, n);
    var done := UnderWay(s, id, req, m, t, timestamp, n);
    assert DoneBy(req.batch, n) == req.batch;
    LastStep(s, id, req, t, rows, timestamp);
    hide Next, Exec, ExecAll, UnderWay, AfterSolo;
    RunTwo(s, a, b, req.who.writer);
    RunOneMore(s, a + b, Commit(id), req.who.writer);
    steps := a + b + [Commit(id)];
  }

  lemma LastStep(s: Ctl, id: nat, req: Request, t: Tables, rows: MutatorRows, timestamp: int)
    requires id !in s.txns && s.lock == None && req.batch != []
    requires Update(s.mutators, req.who, req.cookie, req.check) == Ok(rows)
    ensures req.who.writer in rows
    ensures
      var done := UnderWay(s, id, req, rows[req.who.writer], t, timestamp, LogLength(req.batch));
      && Next(done, Commit(id)) == Some(AfterSolo(s, req, t, rows, timestamp))
      && WriteOf(done, Commit(id), req.who.writer) == [CookieWrite(req.batch, req.check, req.cookie)]
  {
    var w := req.who.writer;
    var done := UnderWay(s, id, req, rows[w], t, timestamp, LogLength(req.batch));
    assert done.txns - {id} == s.txns && s.mutators[w := rows[w]] == rows;
  }
}
