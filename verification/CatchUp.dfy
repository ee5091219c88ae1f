/** Progress: once Mutates and faults stop, the reflector brings the LDB up to the end of the ledger, even
    across the sequence holes that rolled-back Mutates leave between blocks. */
module CatchUp {
  import opened Wrappers
  import opened Tables
  import opened Ledger
  import opened LdbWriter
  import opened DmlSource
  import opened Shovel
  import opened InterleavingTheorems
  import opened Replication

  /** What the reflector does next when nothing fails. */
  function QuietStep(mode: Mode, blockSize: nat): SysStep {
    match mode
    case Off => Boot
    case Down(_) => Build(blockSize)
    case Ended(_) => Close
    case Up(_, _, _, hand) => if hand.None? then Poll(NoReadFault) else Push(NoFault)
  }

  function Quiet(s: System, blockSize: nat): System {
    SysNext(s, QuietStep(s.mode, blockSize)).value
  }

  function QuietRun(s: System, blockSize: nat, m: nat): System
    decreases m
  {
    if m == 0 then s else QuietRun(Quiet(s, blockSize), blockSize, m - 1)
  }

  predicate CaughtUp(s: System) {
    IsSnapshot(s.writer.db, s.ctl)
  }

  /** The quiet step from s ends a shovel with SkippedSequence. */
  predicate SkipsNext(s: System) {
    s.mode.Up? && s.mode.inHand.Some? && Skips(BuiltWith(s.mode.maxSeq), s.mode.lastSeq, s.mode.inHand.value.seqNo)
  }

  function SkipCount(s: System, blockSize: nat, m: nat): nat
    decreases m
  {
    if m == 0 then 0
    else (if SkipsNext(s) then 1 else 0) + SkipCount(Quiet(s, blockSize), blockSize, m - 1)
  }

  /** The number of rows from position i on whose number does not follow on from the row before. */
  function Holes(rows: seq<LedgerRow>, i: nat): nat
    decreases |rows| - i
  {
    if i >= |rows| then 0
    else (if i > 0 && rows[i].seqNo != rows[i - 1].seqNo + 1 then 1 else 0) + Holes(rows, i + 1)
  }

  /** The position a reflector works from: what it has applied, or what it would restart from. */
  function Position(mode: Mode, n: nat, p: nat): nat {
    if mode.Up? then p else n
  }

  function Rank(mode: Mode): nat {
    match mode
    case Up(_, _, last, hand) => (if last != 0 then 6 else 1) + (if hand.None? then 1 else 0)
    case Ended(_) => 5
    case Off => 4
    case Down(_) => 3
  }

  function Measure(s: System, n: nat, p: nat): int {
    8 * (|s.ctl.ledger| - Position(s.mode, n, p)) + Rank(s.mode)
  }

  /** The holes that can still cost an abort: a fresh shovel takes its first row whatever its number. */
  function HolesAhead(s: System, n: nat, p: nat): nat {
    Holes(s.ctl.ledger, Position(s.mode, n, p) + (if s.mode.Up? && s.mode.lastSeq != 0 then 0 else 1))
  }

  lemma {:induction false} ReplayPrefixes(start: Tables, rows: seq<LedgerRow>, p: nat)
    requires p <= |rows| && Replay(start, rows).Some?
    ensures Replay(start, rows[..p]).Some?
    decreases |rows| - p
  {
    if p == |rows| {
      assert rows[..p] == rows;
    } else {
      ReplayPrefixes(start, rows, p + 1);
      assert rows[..p + 1][..p] == rows[..p];
    }
  }

  /** Without faults every row of a well-formed ledger is applied. */
  lemma QuietApplySucceeds(start: Tables, rows: seq<LedgerRow>, w: Writer, n: nat, p: nat)
    requires WellFormed(rows) && Replay(start, rows).Some?
    requires WriterAt(start, rows, w, n, p) && !w.tx.Dead? && p < |rows|
    ensures Apply(w, rows[p], NoFault).1.None?
  {
    assert Fits(rows, p);
    RowExecutes(start, rows, p);
    hide Replay, Exec, InTx;
  }

  lemma RowExecutes(start: Tables, rows: seq<LedgerRow>, p: nat)
    requires p < |rows| && Replay(start, rows).Some?
    ensures Replay(start, rows[..p]).Some?
    ensures rows[p].stmt.Row? ==> Exec(Replay(start, rows[..p]).value, rows[p].stmt.dml).Some?
  {
    hide Exec;
    ReplayPrefixes(start, rows, p);
    ReplayPrefixes(start, rows, p + 1);
    ReplayOneMore(start, rows, p);
  }

  /** While rows remain, a poll without faults finds the next one. */
  lemma QuietPollFinds(s: System, p: nat)
    requires Increasing(s.ctl.ledger) && ModeAt(s.ctl.ledger, s.writer, s.mode, p)
    requires s.mode.Up? && s.mode.inHand.None? && p < |s.ctl.ledger|
    ensures NextStatement(s.mode.source, s.ctl.ledger, NoReadFault).1.Got?
  {
    var rows, src := s.ctl.ledger, s.mode.source;
    if src.buffer == [] {
      var r := PageIsNextSlice(0, src, rows[..p], rows, 0, p, rows);
      assert |RowsAfter(rows, src.lastSequence)| == |rows| - p > 0;
    }
  }

  /** A skip is only ever met at the start of a block, so an abort loses nothing. */
  lemma SkipsBetweenBlocks(start: Tables, s: System, n: nat, p: nat)
    requires ReplicaOk(start, s, n, p) && SkipsNext(s)
    ensures n == p && p < |s.ctl.ledger| && s.mode.lastSeq != 0
    ensures Holes(s.ctl.ledger, p) == 1 + Holes(s.ctl.ledger, p + 1)
  {
    assert Fits(s.ctl.ledger, p);
  }

  lemma NotCaughtUp(start: Tables, s: System, n: nat, p: nat)
    requires ReplicaOk(start, s, n, p)
    ensures n == |s.ctl.ledger| ==> CaughtUp(s)
    ensures p == |s.ctl.ledger| ==> n == p
  {
    var rows := s.ctl.ledger;
    assert rows[..|rows|] == rows;
  }

  lemma QuietPushApplies(start: Tables, s: System, blockSize: nat, n: nat, p: nat) returns (n': nat, p': nat)
    requires ReplicaOk(start, s, n, p) && s.mode.Up? && s.mode.inHand.Some? && !SkipsNext(s)
    ensures
      var s' := Quiet(s, blockSize);
      && ReplicaOk(start, s', n', p') && s'.ctl == s.ctl
      && s'.mode.Up? && s'.mode.inHand.None? && s'.mode.lastSeq != 0
      && p' == p + 1 <= |s.ctl.ledger|
  {
    var rows := s.ctl.ledger;
    var w' := Apply(s.writer, rows[p], NoFault).0;
    QuietApplySucceeds(start, rows, s.writer, n, p);
    ApplyAdvances(start, rows, s.writer, n, p, NoFault);
    ModeAtAdvances(rows, s.writer, s.mode, w', p);
    n', p' := if w'.tx.Live? then n else p + 1, p + 1;
    assert Quiet(s, blockSize) == s.(writer := w', mode := s.mode.(lastSeq := rows[p].seqNo, inHand := None));
  }

  lemma QuietPush(start: Tables, s: System, blockSize: nat, n: nat, p: nat) returns (n': nat, p': nat)
    requires ReplicaOk(start, s, n, p) && s.mode.Up? && s.mode.inHand.Some?
    ensures ReplicaOk(start, Quiet(s, blockSize), n', p') && Quiet(s, blockSize).ctl == s.ctl
    ensures Measure(Quiet(s, blockSize), n', p') < Measure(s, n, p)
    ensures (if SkipsNext(s) then 1 else 0) + HolesAhead(Quiet(s, blockSize), n', p') <= HolesAhead(s, n, p)
  {
    hide Exact, NextStatement, Apply, CtlOk, At, InTx, FetchSeq;
    if SkipsNext(s) {
      n', p' := n, p;
      SkipsBetweenBlocks(start, s, n, p);
      assert Quiet(s, blockSize) == s.(mode := Ended(s.mode.maxSeq));
    } else {
      n', p' := QuietPushApplies(start, s, blockSize, n, p);
      HolesShrink(s.ctl.ledger, p, p + 1);
    }
  }

  lemma QuietPoll(start: Tables, s: System, blockSize: nat, n: nat, p: nat)
    requires ReplicaOk(start, s, n, p) && s.mode.Up? && s.mode.inHand.None? && p < |s.ctl.ledger|
    ensures ReplicaOk(start, Quiet(s, blockSize), n, p) && Quiet(s, blockSize).ctl == s.ctl
    ensures Measure(Quiet(s, blockSize), n, p) < Measure(s, n, p)
    ensures HolesAhead(Quiet(s, blockSize), n, p) == HolesAhead(s, n, p)
  {
    PollKeeps(start, s, NoReadFault, n, p);
    QuietPollFinds(s, p);
  }

  /** A reflector that is not pumping closes, boots or builds a shovel, which starts at a block boundary. */
  lemma QuietRestart(start: Tables, s: System, blockSize: nat, n: nat, p: nat) returns (n': nat, p': nat)
    requires ReplicaOk(start, s, n, p) && !s.mode.Up?
    ensures ReplicaOk(start, Quiet(s, blockSize), n', p') && Quiet(s, blockSize).ctl == s.ctl
    ensures Measure(Quiet(s, blockSize), n', p') < Measure(s, n, p)
    ensures HolesAhead(Quiet(s, blockSize), n', p') == HolesAhead(s, n, p)
  {
    n', p' := n, n;
    if s.mode.Down? {
      BuildKeeps(start, s, blockSize, n);
    }
  }

  /** Until the LDB has caught up, every quiet step makes progress, and an abort uses up a hole. */
  lemma QuietProgress(start: Tables, s: System, blockSize: nat, n: nat, p: nat) returns (n': nat, p': nat)
    requires ReplicaOk(start, s, n, p) && !CaughtUp(s)
    ensures ReplicaOk(start, Quiet(s, blockSize), n', p') && Quiet(s, blockSize).ctl == s.ctl
    ensures Measure(Quiet(s, blockSize), n', p') < Measure(s, n, p)
    ensures (if SkipsNext(s) then 1 else 0) + HolesAhead(Quiet(s, blockSize), n', p') <= HolesAhead(s, n, p)
  {
    hide Exact, Apply, CtlOk, At;
    NotCaughtUp(start, s, n, p);
    if s.mode.Up? && s.mode.inHand.Some? {
      n', p' := QuietPush(start, s, blockSize, n, p);
    } else if s.mode.Up? {
      n', p' := n, p;
      QuietPoll(start, s, blockSize, n, p);
    } else {
      n', p' := QuietRestart(start, s, blockSize, n, p);
    }
  }

  lemma MeasureIsNat(start: Tables, s: System, n: nat, p: nat)
    requires ReplicaOk(start, s, n, p)
    ensures 0 <= Measure(s, n, p) <= 8 * |s.ctl.ledger| + 7
  {
  }

  /** An LDB with the last number of the ledger has applied all of it. */
  lemma CaughtUpAtTheEnd(start: Tables, s: System, n: nat, p: nat)
    requires ReplicaOk(start, s, n, p) && FetchSeq(s.writer.db) == LastSeq(s.ctl.ledger)
    ensures n == p == |s.ctl.ledger| && CaughtUp(s) && !SkipsNext(s)
  {
    var rows := s.ctl.ledger;
    assert WellFormed(rows) && rows[..|rows|] == rows;
  }

  lemma NotAhead(start: Tables, s: System, n: nat, p: nat)
    requires ReplicaOk(start, s, n, p)
    ensures FetchSeq(s.writer.db) <= LastSeq(s.ctl.ledger)
  {
    assert WellFormed(s.ctl.ledger);
  }

  lemma QuietStepStays(start: Tables, s: System, blockSize: nat, n: nat, p: nat) returns (n': nat, p': nat)
    requires ReplicaOk(start, s, n, p) && CaughtUp(s)
    ensures ReplicaOk(start, Quiet(s, blockSize), n', p') && CaughtUp(Quiet(s, blockSize)) && !SkipsNext(s)
  {
    var s' := Quiet(s, blockSize);
    assert SysNext(s, QuietStep(s.mode, blockSize)) == Some(s') && s'.ctl == s.ctl;
    hide ReplicaOk, Quiet, QuietStep, SysNext, SkipsNext, FetchSeq;
    CaughtUpAtTheEnd(start, s, n, p);
    NeverGoesBack(start, s, QuietStep(s.mode, blockSize), n, p);
    n', p' := StepKeepsReplica(start, s, QuietStep(s.mode, blockSize), n, p);
    NotAhead(start, s', n', p');
    CaughtUpAtTheEnd(start, s', n', p');
  }

  /** Once caught up, the LDB stays so for as long as it is quiet, without a further abort. */
  lemma {:induction false} StaysCaughtUp(start: Tables, s: System, blockSize: nat, n: nat, p: nat, k: nat)
    requires ReplicaOk(start, s, n, p) && CaughtUp(s)
    ensures CaughtUp(QuietRun(s, blockSize, k)) && SkipCount(s, blockSize, k) == 0
    decreases k
  {
    hide ReplicaOk, Quiet, SkipsNext, CaughtUp;
    if k > 0 {
      var n', p' := QuietStepStays(start, s, blockSize, n, p);
      StaysCaughtUp(start, Quiet(s, blockSize), blockSize, n', p', k - 1);
    }
  }

  /** As many quiet steps as the measure says, or more, leave the LDB caught up. */
  lemma {:induction false} CatchesUpWithin(start: Tables, s: System, blockSize: nat, n: nat, p: nat, m: nat)
    requires ReplicaOk(start, s, n, p) && m >= Measure(s, n, p)
    ensures CaughtUp(QuietRun(s, blockSize, m))
    ensures SkipCount(s, blockSize, m) <= HolesAhead(s, n, p)
    decreases m
  {
    hide ReplicaOk, Quiet, HolesAhead, Measure, CaughtUp, SkipsNext;
    if CaughtUp(s) {
      StaysCaughtUp(start, s, blockSize, n, p, m);
    } else {
      var n', p' := QuietProgress(start, s, blockSize, n, p);
      MeasureIsNat(start, Quiet(s, blockSize), n', p');
      CatchesUpWithin(start, Quiet(s, blockSize), blockSize, n', p', m - 1);
    }
  }

  /** From any reachable state, once Mutates and faults stop: after eight reflector steps per ledger row and seven
      more, and ever after, the LDB is at the last committed Mutate; and the SkippedSequence aborts
      on the way, however long it goes on, are at most as many as the holes in the ledger. */
  lemma CatchUp(s: System, steps: seq<SysStep>, blockSize: nat, m: nat)
    requires SysInit(s) && RunSys(s, steps).Some?
    requires m >= 8 * |RunSys(s, steps).value.ctl.ledger| + 7
    ensures
      var now := RunSys(s, steps).value;
      && CaughtUp(QuietRun(now, blockSize, m))
      && QuietRun(now, blockSize, m).ctl == now.ctl
      && SkipCount(now, blockSize, m) <= Holes(now.ctl.ledger, 0)
  {
    hide SysNext, ReplicaOk, QuietRun, CaughtUp, SkipCount, Holes, Measure, Quiet;
    var n, p := RunKeepsReplica(s, steps);
    var now := RunSys(s, steps).value;
    MeasureIsNat(s.ctl.tables, now, n, p);
    CatchesUpWithin(s.ctl.tables, now, blockSize, n, p, m);
    var ahead := Position(now.mode, n, p) + (if now.mode.Up? && now.mode.lastSeq != 0 then 0 else 1);
    HolesShrink(now.ctl.ledger, 0, ahead);
    QuietKeepsCtl(now, blockSize, m);
  }

  /** Holes that were in the ledger when the reflector booted never stop it: in every run, as long as every number
      in the ledger is at most the one read at boot, a delivery without faults applies its row and the shovel
      goes on. */
  lemma OldHolesNeverAbort(s: System, steps: seq<SysStep>)
    requires SysInit(s) && RunSys(s, steps).Some?
    requires RunSys(s, steps).value.mode.Up? && RunSys(s, steps).value.mode.inHand.Some?
    requires
      var now := RunSys(s, steps).value;
      forall i :: 0 <= i < |now.ctl.ledger| ==> now.ctl.ledger[i].seqNo <= now.mode.maxSeq
    ensures
      var now := RunSys(s, steps).value;
      var next := SysNext(now, Push(NoFault));
      next.Some? && next.value.mode.Up? && next.value.mode.lastSeq == now.mode.inHand.value.seqNo
  {
    var n, p := RunKeepsReplica(s, steps);
    var now := RunSys(s, steps).value;
    var n', p' := QuietPushApplies(s.ctl.tables, now, 0, n, p);
    assert SysNext(now, Push(NoFault)) == Some(Quiet(now, 0));
    NumbersApplied(s.ctl.tables, now, n, p);
  }

  lemma NumbersApplied(start: Tables, s: System, n: nat, p: nat)
    requires ReplicaOk(start, s, n, p) && s.mode.Up? && s.mode.inHand.Some? && !SkipsNext(s)
    ensures Quiet(s, 0).mode.Up? ==> Quiet(s, 0).mode.lastSeq == s.mode.inHand.value.seqNo
  {
    hide Apply, Exact, NextStatement;
  }

  lemma {:induction false} HolesShrink(rows: seq<LedgerRow>, i: nat, j: nat)
    requires i <= j
    ensures Holes(rows, j) <= Holes(rows, i)
    decreases j - i
  {
    if i < j {
      HolesShrink(rows, i + 1, j);
    }
  }

  lemma {:induction false} QuietKeepsCtl(s: System, blockSize: nat, m: nat)
    ensures QuietRun(s, blockSize, m).ctl == s.ctl
    decreases m
  {
    if m > 0 {
      QuietKeepsCtl(Quiet(s, blockSize), blockSize, m - 1);
    }
  }
}
