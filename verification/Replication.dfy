/** The whole pipeline as one state machine: the ctldb with its concurrent Mutates, and a reflector
    process that pumps the ledger into its LDB, fails anywhere, closes, crashes and restarts. */
module Replication {
  import opened Wrappers
  import opened Tables
  import opened Ledger
  import opened LdbWriter
  import opened DmlSource
  import opened Shovel
  import opened Interleaving
  import opened InterleavingTheorems

  /** The reflector process. maxSeq is read once when it boots. An Ended shovel has returned but
      has not been closed, so its writer may still hold a ledger transaction. */
  datatype Mode =
    | Off
    | Down(maxSeq: int)
    | Up(maxSeq: int, source: SourceState, lastSeq: int, inHand: Option<LedgerRow>)
    | Ended(maxSeq: int)

  datatype System = System(ctl: Ctl, writer: Writer, mode: Mode)

  datatype SysStep =
    | CtlStep(step: Step)
    | Boot
    | Build(blockSize: nat)
    | Poll(read: ReadFault)
    | Push(fault: ApplyFault)
    | Interrupt
    | Close
    | Crash

  /** The configuration the shovel factory builds with. */
  function BuiltWith(maxSeq: int): Config {
    Config(true, maxSeq)
  }

  function SysNext(s: System, step: SysStep): Option<System> {
    match step
    case CtlStep(c) =>
      (match Interleaving.Next(s.ctl, c)
       case None => None
       case Some(ctl) => Some(s.(ctl := ctl)))
    case Boot =>
      if !s.mode.Off? then None else Some(s.(mode := Down(LastSeq(s.ctl.ledger))))
    case Build(blockSize) =>
      if !s.mode.Down? then None
      else Some(s.(mode := Up(s.mode.maxSeq, SourceState(FetchSeq(s.writer.db), blockSize, []), 0, None)))
    case Poll(read) =>
      if !s.mode.Up? || s.mode.inHand.Some? then None
      else
        var (src, f) := NextStatement(s.mode.source, s.ctl.ledger, read);
        (match f
         case Got(row) => Some(s.(mode := s.mode.(source := src, inHand := Some(row))))
         case NoNewStatements => Some(s.(mode := s.mode.(source := src)))
         case Failed(_) => Some(s.(mode := Ended(s.mode.maxSeq))))
    case Push(fault) =>
      if !s.mode.Up? || s.mode.inHand.None? then None
      else
        var (p, e) := Deliver(BuiltWith(s.mode.maxSeq), Pump(s.mode.lastSeq, s.writer),
                              Offered(s.mode.inHand.value), fault, false);
        if e.Pumping? then Some(s.(writer := p.writer, mode := s.mode.(lastSeq := p.lastSeq, inHand := None)))
        else Some(s.(writer := p.writer, mode := Ended(s.mode.maxSeq)))
    case Interrupt =>
      if !s.mode.Up? then None else Some(s.(mode := Ended(s.mode.maxSeq)))
    case Close =>
      if !s.mode.Ended? then None else Some(s.(writer := Closed(s.writer), mode := Down(s.mode.maxSeq)))
    case Crash =>
      Some(s.(writer := Closed(s.writer), mode := Off))
  }

  ghost predicate SysInit(s: System) {
    && Init(s.ctl)
    && s.writer.db.tables == s.ctl.tables && s.writer.db.seqNo == None && s.writer.tx == NoTx
    && s.mode == Off
  }

  function RunSys(s: System, steps: seq<SysStep>): Option<System> {
    if steps == [] then Some(s)
    else
      match RunSys(s, steps[..|steps| - 1])
      case None => None
      case Some(mid) => SysNext(mid, steps[|steps| - 1])
  }

  // ---------- the invariant ----------

  /** The contents are those of the ledger's first n rows. */
  ghost predicate At(start: Tables, rows: seq<LedgerRow>, n: nat, view: Ldb) {
    && n <= |rows|
    && Replay(start, rows[..n]) == Some(view.tables)
    && view.seqNo == SeqAt(rows, n)
  }

  /** The LDB holds the first n rows, ending a block; an open ledger transaction sees the first p. */
  ghost predicate WriterAt(start: Tables, rows: seq<LedgerRow>, w: Writer, n: nat, p: nat) {
    && Boundary(rows, n) && At(start, rows, n, w.db)
    && n <= p
    && (if w.tx.Live? then n < p <= |rows| && InTx(rows[..p]) && At(start, rows, p, w.tx.view) else p == n)
  }

  function Consumed(mode: Mode, p: nat): nat
    requires mode.Up?
  {
    p + if mode.inHand.Some? then 1 else 0
  }

  /** A running shovel has applied the first p rows; the statement in hand and the buffered ones are
      the rows that come next. */
  ghost predicate ModeAt(rows: seq<LedgerRow>, w: Writer, mode: Mode, p: nat) {
    match mode
    case Off => w.tx.NoTx?
    case Down(_) => w.tx.NoTx?
    case Ended(_) => true
    case Up(_, src, last, hand) =>
      && !w.tx.Dead?
      && (hand.Some? ==> p < |rows| && hand.value == rows[p])
      && Consumed(mode, p) <= |rows|
      && Exact(0, src, rows[..Consumed(mode, p)], rows, 0, Consumed(mode, p) + |src.buffer|)
      && (if last == 0 then w.tx.NoTx? else 0 < p <= |rows| && last == rows[p - 1].seqNo)
  }

  ghost predicate ReplicaOk(start: Tables, s: System, n: nat, p: nat) {
    && CtlOk(start, s.ctl)
    && WriterAt(start, s.ctl.ledger, s.writer, n, p)
    && ModeAt(s.ctl.ledger, s.writer, s.mode, p)
  }

  // ---------- steps of the ctldb ----------

  lemma WriterAtGrows(start: Tables, rows: seq<LedgerRow>, rows': seq<LedgerRow>, w: Writer, n: nat, p: nat)
    requires rows <= rows' && WriterAt(start, rows, w, n, p)
    ensures WriterAt(start, rows', w, n, p)
  {
    assert rows'[..n] == rows[..n] && rows'[..p] == rows[..p];
  }

  lemma ModeAtGrows(rows: seq<LedgerRow>, rows': seq<LedgerRow>, w: Writer, mode: Mode, p: nat)
    requires rows <= rows' && Increasing(rows') && ModeAt(rows, w, mode, p)
    ensures ModeAt(rows', w, mode, p)
  {
    if mode.Up? {
      var k := Consumed(mode, p);
      var q := k + |mode.source.buffer|;
      assert rows'[..k] == rows[..k] && rows'[0..q] == rows[0..q];
    }
  }

  lemma GrowKeeps(start: Tables, s: System, step: Step, n: nat, p: nat)
    requires ReplicaOk(start, s, n, p) && Interleaving.Next(s.ctl, step).Some?
    ensures ReplicaOk(start, SysNext(s, CtlStep(step)).value, n, p)
  {
    StepKeepsOk(start, s.ctl, step);
    WriterAtGrows(start, s.ctl.ledger, Interleaving.Next(s.ctl, step).value.ledger, s.writer, n, p);
    ModeAtGrows(s.ctl.ledger, Interleaving.Next(s.ctl, step).value.ledger, s.writer, s.mode, p);
  }

  // ---------- steps of the reflector ----------

  lemma BuildKeeps(start: Tables, s: System, blockSize: nat, n: nat)
    requires ReplicaOk(start, s, n, n) && s.mode.Down?
    ensures ReplicaOk(start, SysNext(s, Build(blockSize)).value, n, n)
  {
    var rows := s.ctl.ledger;
    assert rows[..n] + [] == rows[0..n];
  }

  lemma PollStep(s: System, read: ReadFault)
    requires s.mode.Up? && s.mode.inHand.None?
    ensures
      var (src, f) := NextStatement(s.mode.source, s.ctl.ledger, read);
      SysNext(s, Poll(read)) == Some(s.(mode := Polled(s.mode, src, f)))
  {
    hide NextStatement;
  }

  /** The mode after a poll. */
  function Polled(mode: Mode, src: SourceState, f: Fetched): Mode
    requires mode.Up?
  {
    match f
    case Got(row) => mode.(source := src, inHand := Some(row))
    case NoNewStatements => mode.(source := src)
    case Failed(_) => Ended(mode.maxSeq)
  }

  lemma PolledIsNext(rows: seq<LedgerRow>, w: Writer, mode: Mode, p: nat, fetch: Fetch)
    requires Increasing(rows) && fetch.ledger == rows
    requires ModeAt(rows, w, mode, p) && mode.Up? && mode.inHand.None?
    ensures
      var (src, f) := NextStatement(mode.source, rows, fetch.fault);
      ModeAt(rows, w, Polled(mode, src, f), p)
  {
    hide Exact, NextStatement, Increasing;
    NextHandsOutNext(mode.source, rows, p, fetch);
  }

  lemma PollKeeps(start: Tables, s: System, read: ReadFault, n: nat, p: nat)
    requires ReplicaOk(start, s, n, p) && s.mode.Up? && s.mode.inHand.None?
    ensures ReplicaOk(start, SysNext(s, Poll(read)).value, n, p)
  {
    assert Increasing(s.ctl.ledger);
    PollStep(s, read);
    hide SysNext, NextStatement, CtlOk, WriterAt, ModeAt, Polled;
    PolledIsNext(s.ctl.ledger, s.writer, s.mode, p, Fetch(s.ctl.ledger, read));
  }

  lemma ReplayOneMore(start: Tables, rows: seq<LedgerRow>, p: nat)
    requires p < |rows|
    ensures rows[..p + 1][..p] == rows[..p] && rows[..p + 1][p] == rows[p]
    ensures Replay(start, rows[..p]).Some? ==>
              Replay(start, rows[..p + 1]) ==
              match rows[p].stmt {
                case Row(d) => Exec(Replay(start, rows[..p]).value, d)
                case _ => Replay(start, rows[..p])
              }
    ensures InTx(rows[..p + 1]) <==> (rows[p].stmt.TxBegin? || (rows[p].stmt.Row? && InTx(rows[..p])))
  {
    assert rows[..p + 1][..p] == rows[..p];
  }

  /** One applied row moves the visible position one row on; a COMMIT or a lone statement moves
      the committed one up to it. */
  lemma ApplyAdvances(start: Tables, rows: seq<LedgerRow>, w: Writer, n: nat, p: nat, fault: ApplyFault)
    requires WriterAt(start, rows, w, n, p) && p < |rows|
    requires Apply(w, rows[p], fault).1.None?
    ensures var w' := Apply(w, rows[p], fault).0;
            !w'.tx.Dead? && WriterAt(start, rows, w', if w'.tx.Live? then n else p + 1, p + 1)
  {
    ReplayOneMore(start, rows, p);
  }

  lemma ApplyFails(start: Tables, rows: seq<LedgerRow>, w: Writer, n: nat, p: nat, row: LedgerRow, fault: ApplyFault)
    requires WriterAt(start, rows, w, n, p)
    requires Apply(w, row, fault).1.Some?
    ensures WriterAt(start, rows, Apply(w, row, fault).0, n, n)
  {
  }

  lemma ModeAtAdvances(rows: seq<LedgerRow>, w: Writer, mode: Mode, w': Writer, p: nat)
    requires ModeAt(rows, w, mode, p) && mode.Up? && mode.inHand.Some? && !w'.tx.Dead? && Increasing(rows)
    ensures p < |rows| && mode.inHand.value == rows[p]
    ensures ModeAt(rows, w', mode.(lastSeq := rows[p].seqNo, inHand := None), p + 1)
  {
    assert rows[p].seqNo > 0;
  }

  lemma PushKeeps(start: Tables, s: System, fault: ApplyFault, n: nat, p: nat) returns (n': nat, p': nat)
    requires ReplicaOk(start, s, n, p) && s.mode.Up? && s.mode.inHand.Some?
    ensures ReplicaOk(start, SysNext(s, Push(fault)).value, n', p')
  {
    assert Increasing(s.ctl.ledger);
    hide Apply, Exact, NextStatement, CtlOk, At, InTx, Increasing;
    var rows := s.ctl.ledger;
    var row := s.mode.inHand.value;
    var (w', err) := Apply(s.writer, row, fault);
    n', p' := n, p;
    if Skips(BuiltWith(s.mode.maxSeq), s.mode.lastSeq, row.seqNo) {
      assert SysNext(s, Push(fault)).value == s.(mode := Ended(s.mode.maxSeq));
    } else if err.Some? {
      ApplyFails(start, rows, s.writer, n, p, row, fault);
      p' := n;
      assert SysNext(s, Push(fault)).value == s.(writer := w', mode := Ended(s.mode.maxSeq));
    } else {
      ApplyAdvances(start, rows, s.writer, n, p, fault);
      ModeAtAdvances(rows, s.writer, s.mode, w', p);
      n', p' := if w'.tx.Live? then n else p + 1, p + 1;
      assert SysNext(s, Push(fault)).value == s.(writer := w', mode := s.mode.(lastSeq := row.seqNo, inHand := None));
    }
  }

  lemma StepKeepsReplica(start: Tables, s: System, step: SysStep, n: nat, p: nat) returns (n': nat, p': nat)
    requires ReplicaOk(start, s, n, p) && SysNext(s, step).Some?
    ensures ReplicaOk(start, SysNext(s, step).value, n', p')
  {
    n', p' := n, p;
    match step
    case CtlStep(c) => GrowKeeps(start, s, c, n, p);
    case Build(blockSize) => BuildKeeps(start, s, blockSize, n);
    case Poll(read) => PollKeeps(start, s, read, n, p);
    case Push(fault) => n', p' := PushKeeps(start, s, fault, n, p);
    case Boot =>
    case Interrupt =>
    case Close => p' := n;
    case Crash => p' := n;
  }

  lemma {:induction false} RunKeepsReplica(s: System, steps: seq<SysStep>) returns (n: nat, p: nat)
    requires SysInit(s) && RunSys(s, steps).Some?
    ensures ReplicaOk(s.ctl.tables, RunSys(s, steps).value, n, p)
  {
    if steps == [] {
      n, p := 0, 0;
      assert s.ctl.ledger[..0] == [];
    } else {
      n, p := RunKeepsReplica(s, steps[..|steps| - 1]);
      n, p := StepKeepsReplica(s.ctl.tables, RunSys(s, steps[..|steps| - 1]).value, steps[|steps| - 1], n, p);
    }
  }

  // ---------- prefix consistency ----------

  /** Every boundary of the ledger is the end of the ledger at some moment of the run. */
  lemma {:induction false} BoundariesWereEnds(s: System, steps: seq<SysStep>, n: nat) returns (j: nat)
    requires SysInit(s) && RunSys(s, steps).Some?
    requires Boundary(RunSys(s, steps).value.ctl.ledger, n)
    ensures j <= |steps| && RunSys(s, steps[..j]).Some?
    ensures RunSys(s, steps[..j]).value.ctl.ledger == RunSys(s, steps).value.ctl.ledger[..n]
  {
    var now := RunSys(s, steps).value;
    if n == |now.ctl.ledger| {
      j := |steps|;
      assert steps[..j] == steps && now.ctl.ledger[..n] == now.ctl.ledger;
    } else {
      var front := steps[..|steps| - 1];
      var mid := RunSys(s, front).value;
      var a, b := RunKeepsReplica(s, front);
      if steps[|steps| - 1].CtlStep? {
        StepKeepsOk(s.ctl.tables, mid.ctl, steps[|steps| - 1].step);
      }
      assert now.ctl.ledger[..n] == mid.ctl.ledger[..n];
      j := BoundariesWereEnds(s, front, n);
      assert front[..j] == steps[..j];
    }
  }

  /** In every interleaving of Mutates, rollbacks, polls, applies, SQL failures, crashes and restarts: the
      committed LDB is the ctldb exactly as it stood at some moment of the run, and its stored number
      is that of the last ledger row at that moment. */
  lemma PrefixConsistency(s: System, steps: seq<SysStep>) returns (j: nat)
    requires SysInit(s) && RunSys(s, steps).Some?
    ensures j <= |steps| && RunSys(s, steps[..j]).Some?
    ensures
      var past := RunSys(s, steps[..j]).value.ctl;
      var ldb := RunSys(s, steps).value.writer.db;
      ldb.tables == past.tables && FetchSeq(ldb) == LastSeq(past.ledger)
  {
    var n, p := RunKeepsReplica(s, steps);
    j := BoundariesWereEnds(s, steps, n);
    var n', p' := RunKeepsReplica(s, steps[..j]);
  }

  /** And it never goes back: no step of the system lowers the stored number. */
  lemma NeverGoesBack(start: Tables, s: System, step: SysStep, n: nat, p: nat)
    requires ReplicaOk(start, s, n, p) && SysNext(s, step).Some?
    ensures FetchSeq(s.writer.db) <= FetchSeq(SysNext(s, step).value.writer.db)
  {
  }

  /** What can always happen to a reflector: it can crash at any time; while a shovel runs it can be interrupted, and
      each of its polls and deliveries can meet any fault. A delivery that cannot store its number ends the
      shovel and changes nothing in the LDB. */
  lemma FaultsArePossible(s: System, read: ReadFault, fault: ApplyFault)
    ensures SysNext(s, Crash) == Some(s.(writer := Closed(s.writer), mode := Off))
    ensures s.mode.Up? ==> SysNext(s, Interrupt) == Some(s.(mode := Ended(s.mode.maxSeq)))
    ensures s.mode.Up? && s.mode.inHand.None? ==> SysNext(s, Poll(read)).Some?
    ensures s.mode.Up? && s.mode.inHand.Some? ==>
              && SysNext(s, Push(fault)).Some?
              && (fault.SeqFails? ==>
                    && SysNext(s, Push(fault)).value.mode.Ended?
                    && SysNext(s, Push(fault)).value.writer.db == s.writer.db)
  {
    hide NextStatement;
  }

  // ---------- the timeline of a run ----------

  /** The LDB is this ctldb exactly, and its number is that of the last ledger row. */
  predicate IsSnapshot(ldb: Ldb, ctl: Ctl) {
    ldb.tables == ctl.tables && FetchSeq(ldb) == LastSeq(ctl.ledger)
  }

  lemma StepGrows(start: Tables, s: System, step: SysStep, n: nat, p: nat)
    requires ReplicaOk(start, s, n, p) && SysNext(s, step).Some?
    ensures s.ctl.ledger <= SysNext(s, step).value.ctl.ledger
  {
    if step.CtlStep? {
      StepKeepsOk(start, s.ctl, step.step);
    }
  }

  /** An earlier ledger is a prefix of a later one. */
  lemma {:induction false} LedgerOnlyGrows(s: System, steps: seq<SysStep>, j: nat)
    requires SysInit(s) && RunSys(s, steps).Some? && j <= |steps|
    ensures RunSys(s, steps[..j]).Some?
    ensures RunSys(s, steps[..j]).value.ctl.ledger <= RunSys(s, steps).value.ctl.ledger
  {
    hide SysNext, ReplicaOk, SysInit;
    if j == |steps| {
      assert steps[..j] == steps;
    } else {
      var front := steps[..|steps| - 1];
      LedgerOnlyGrows(s, front, j);
      assert front[..j] == steps[..j];
      var n, p := RunKeepsReplica(s, front);
      StepGrows(s.ctl.tables, RunSys(s, front).value, steps[|steps| - 1], n, p);
    }
  }

  /** It has no higher number; and if its last number is the same, the tables are the same. */
  lemma SameNumberSameTables(s: System, steps: seq<SysStep>, j: nat)
    requires SysInit(s) && RunSys(s, steps).Some? && j <= |steps|
    ensures RunSys(s, steps[..j]).Some?
    ensures
      var past, now := RunSys(s, steps[..j]).value.ctl, RunSys(s, steps).value.ctl;
      LastSeq(past.ledger) <= LastSeq(now.ledger) &&
      (LastSeq(past.ledger) == LastSeq(now.ledger) ==> past.tables == now.tables)
  {
    LedgerOnlyGrows(s, steps, j);
    var n, p := RunKeepsReplica(s, steps);
    var n', p' := RunKeepsReplica(s, steps[..j]);
    hide SysNext, SysInit, RunSys, WriterAt, ModeAt, Inv;
    SameEndSameLedger(RunSys(s, steps[..j]).value.ctl.ledger, RunSys(s, steps).value.ctl.ledger);
  }

  lemma SameEndSameLedger(a: seq<LedgerRow>, b: seq<LedgerRow>)
    requires a <= b && Increasing(b)
    ensures LastSeq(a) <= LastSeq(b)
    ensures LastSeq(a) == LastSeq(b) ==> a == b
  {
    if |a| < |b| {
      assert a != [] ==> b[|a| - 1].seqNo < b[|b| - 1].seqNo;
    }
  }

  /** After i steps, the LDB shows the ctldb of moment j. */
  predicate Shows(s: System, steps: seq<SysStep>, i: nat, j: nat) {
    && j <= i <= |steps|
    && RunSys(s, steps[..i]).Some? && RunSys(s, steps[..j]).Some?
    && IsSnapshot(RunSys(s, steps[..i]).value.writer.db, RunSys(s, steps[..j]).value.ctl)
  }

  lemma ShowsInLonger(s: System, steps: seq<SysStep>, i: nat, j: nat)
    requires steps != [] && RunSys(s, steps).Some?
    ensures RunSys(s, steps[..|steps| - 1]).Some?
    ensures Shows(s, steps[..|steps| - 1], i, j) ==> Shows(s, steps, i, j)
  {
    hide SysNext;
    var front := steps[..|steps| - 1];
    if Shows(s, front, i, j) {
      assert front[..i] == steps[..i] && front[..j] == steps[..j];
    }
  }

  /** The moment an LDB shows after a run is not before the one it showed a step earlier. */
  lemma NextMoment(s: System, steps: seq<SysStep>, last: nat) returns (j: nat)
    requires SysInit(s) && steps != [] && RunSys(s, steps).Some?
    requires Shows(s, steps, |steps| - 1, last)
    ensures last <= j && Shows(s, steps, |steps|, j)
  {
    var front := steps[..|steps| - 1];
    assert steps[..|steps|] == steps;
    j := PrefixConsistency(s, steps);
    if j < last {
      var n, p := RunKeepsReplica(s, front);
      NeverGoesBack(s.ctl.tables, RunSys(s, front).value, steps[|steps| - 1], n, p);
      SameNumberSameTables(s, steps[..last], j);
      assert steps[..last][..j] == steps[..j];
      j := last;
    }
  }

  /** Over a whole run, one moment for each step: after i steps the LDB is the ctldb as it stood at moment js[i],
      which is not after i; and the moments never go back. */
  lemma {:induction false} Timeline(s: System, steps: seq<SysStep>) returns (js: seq<nat>)
    requires SysInit(s) && RunSys(s, steps).Some?
    ensures |js| == |steps| + 1
    ensures forall i :: 0 <= i <= |steps| ==> Shows(s, steps, i, js[i])
    ensures forall i, k :: 0 <= i <= k <= |steps| ==> js[i] <= js[k]
  {
    var n := |steps|;
    if steps == [] {
      js := [0];
    } else {
      hide RunSys, Shows, SysInit;
      ShowsInLonger(s, steps, 0, 0);
      var before := Timeline(s, steps[..n - 1]);
      forall i | 0 <= i <= n - 1 ensures Shows(s, steps, i, before[i]) {
        ShowsInLonger(s, steps, i, before[i]);
      }
      var j := NextMoment(s, steps, before[n - 1]);
      js := before + [j];
    }
  }
}
