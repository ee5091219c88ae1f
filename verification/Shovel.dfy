/** shovel: pumps statements from a source into the LDB writer until something goes wrong, and gives up
    when the sequence numbers skip. */
module Shovel {
  import opened Wrappers
  import opened Tables
  import opened Ledger
  import opened LdbWriter
  import opened DmlSource

  datatype Config = Config(abortOnSeqSkip: bool, maxSeqOnStartup: int)

  /** What a source returns. The SQL source wraps every error it meets, so of these it never
      returns DeadlineExceeded. */
  datatype Offer = Offered(row: LedgerRow) | NothingNew | DeadlineExceeded | SourceFailed

  /** How Start ends; Pumping while it has not. */
  datatype End =
    | Pumping | StoppedNormally | ContextDone
    | SourceError | SkippedSequence | ApplyFailed(error: ApplyError)

  datatype Pump = Pump(lastSeq: int, writer: Writer)

  /** The skip check, made only once a statement has been applied (lastSeq != 0). */
  predicate Skips(cfg: Config, lastSeq: int, seqNo: int) {
    lastSeq != 0 && seqNo > lastSeq + 1 && seqNo > cfg.maxSeqOnStartup && cfg.abortOnSeqSkip
  }

  /** The part of one loop pass after the source has answered. */
  function Deliver(cfg: Config, p: Pump, offer: Offer, fault: ApplyFault, ctxDone: bool): (Pump, End) {
    match offer
    case SourceFailed => (p, SourceError)
    case NothingNew => (p, if ctxDone then ContextDone else Pumping)
    case DeadlineExceeded => (p, if ctxDone then ContextDone else Pumping)
    case Offered(row) =>
      if Skips(cfg, p.lastSeq, row.seqNo) then (p, SkippedSequence)
      else
        var (w, err) := Apply(p.writer, row, fault);
        if err.Some? then (p.(writer := w), ApplyFailed(err.value))
        else (Pump(row.seqNo, w), if ctxDone then ContextDone else Pumping)
  }

  /** One loop pass as the outside world shapes it: whether stop was signalled, the ledger the source
      can read and its fault, the fault of the apply, and whether the context is done. */
  datatype Pass = Pass(stopped: bool, ledger: seq<LedgerRow>, read: ReadFault, apply: ApplyFault, ctxDone: bool)

  function OfferOf(f: Fetched): Offer {
    match f
    case Got(row) => Offered(row)
    case NoNewStatements => NothingNew
    case Failed(_) => SourceFailed
  }

  function Once(cfg: Config, s: SourceState, p: Pump, pass: Pass): (SourceState, Pump, End) {
    if pass.stopped then (s, p, StoppedNormally)
    else
      var (s', f) := NextStatement(s, pass.ledger, pass.read);
      var (p', e) := Deliver(cfg, p, OfferOf(f), pass.apply, pass.ctxDone);
      (s', p', e)
  }

  function RunShovel(cfg: Config, s: SourceState, p: Pump, passes: seq<Pass>): (SourceState, Pump, End) {
    if passes == [] then (s, p, Pumping)
    else
      var n := |passes| - 1;
      var (s', p', e) := RunShovel(cfg, s, p, passes[..n]);
      if e != Pumping then (s', p', e) else Once(cfg, s', p', passes[n])
  }

  class ShovelLoop {
    const source: SqlDmlSource
    const writer: SqlLdbWriter
    const cfg: Config

    constructor (source: SqlDmlSource, writer: SqlLdbWriter, cfg: Config)
      ensures this.source == source && this.writer == writer && this.cfg == cfg
    {
      this.source, this.writer, this.cfg := source, writer, cfg;
    }

    /** The loop body. */
    method LoopPass(lastSeq: int, pass: Pass) returns (end: End, newLastSeq: int)
      requires writer.Valid()
      modifies source, writer, writer.db
      ensures writer.Valid()
      ensures (source.State(), Pump(newLastSeq, writer.State()), end)
           == Once(cfg, old(source.State()), Pump(lastSeq, old(writer.State())), pass)
    {
      newLastSeq := lastSeq;
      if pass.stopped {
        return StoppedNormally, lastSeq;
      }
      var f := source.Next(pass.ledger, pass.read);
      match f {
        case Failed(_) =>
          return SourceError, lastSeq;
        case NoNewStatements =>
        case Got(row) =>
          if lastSeq != 0 && row.seqNo > lastSeq + 1 && row.seqNo > cfg.maxSeqOnStartup {
            if cfg.abortOnSeqSkip {
              return SkippedSequence, lastSeq;
            }
          }
          var err := writer.ApplyDMLStatement(row, pass.apply);
          if err.Some? {
            return ApplyFailed(err.value), lastSeq;
          }
          newLastSeq := row.seqNo;
      }
      end := if pass.ctxDone then ContextDone else Pumping;
    }

    /** Runs at most |passes| passes of the endless loop. */
    method Start(passes: seq<Pass>) returns (end: End, lastSeq: int)
      requires writer.Valid()
      modifies source, writer, writer.db
      ensures writer.Valid()
      ensures (source.State(), Pump(lastSeq, writer.State()), end)
           == RunShovel(cfg, old(source.State()), Pump(0, old(writer.State())), passes)
    {
      lastSeq := 0;
      end := Pumping;
      ghost var s0, p0 := source.State(), Pump(0, writer.State());
      for i := 0 to |passes|
        invariant writer.Valid() && end == Pumping
        invariant (source.State(), Pump(lastSeq, writer.State()), end) == RunShovel(cfg, s0, p0, passes[..i])
      {
        OneMore(cfg, s0, p0, passes, i);
        end, lastSeq := LoopPass(lastSeq, passes[i]);
        if end != Pumping {
          EndsEarly(cfg, s0, p0, passes, i + 1);
          return;
        }
      }
      assert passes[..|passes|] == passes;
    }
  }

  lemma OneMore(cfg: Config, s: SourceState, p: Pump, passes: seq<Pass>, i: nat)
    requires i < |passes| && RunShovel(cfg, s, p, passes[..i]).2 == Pumping
    ensures
      var (s', p', _) := RunShovel(cfg, s, p, passes[..i]);
      RunShovel(cfg, s, p, passes[..i + 1]) == Once(cfg, s', p', passes[i])
  {
    assert passes[..i + 1][..i] == passes[..i];
  }

  /** Once the loop has ended, the passes that were still to come change nothing. */
  lemma {:induction false} EndsEarly(cfg: Config, s: SourceState, p: Pump, passes: seq<Pass>, n: nat)
    requires n <= |passes| && RunShovel(cfg, s, p, passes[..n]).2 != Pumping
    ensures RunShovel(cfg, s, p, passes) == RunShovel(cfg, s, p, passes[..n])
    decreases |passes| - n
  {
    if n == |passes| {
      assert passes[..n] == passes;
    } else {
      assert passes[..n + 1][..n] == passes[..n];
      EndsEarly(cfg, s, p, passes, n + 1);
    }
  }

  // ---------- what the loop makes of a failing source ----------

  /** The loop waits and tries again after a DeadlineExceeded, but only a source that returns that very error
      gets there. With the SQL source no failed poll, a timeout among them, is ever retried: in a run the
      loop ends with the source's error exactly when it comes, not having been stopped, to a poll that has to
      read and whose read fails. */
  lemma {:induction false} FailedPollsEndTheLoop(cfg: Config, s: SourceState, p: Pump, passes: seq<Pass>)
    ensures RunShovel(cfg, s, p, passes).2 == SourceError <==> SomePollFails(cfg, s, p, passes)
  {
    if passes != [] {
      hide SomePollFails, Once;
      var n := |passes| - 1;
      FailedPollsEndTheLoop(cfg, s, p, passes[..n]);
      SomePollFailsOneMore(cfg, s, p, passes);
      var (mid, at, _) := RunShovel(cfg, s, p, passes[..n]);
      OnePollFails(cfg, mid, at, passes[n]);
    }
  }

  predicate SomePollFails(cfg: Config, s: SourceState, p: Pump, passes: seq<Pass>) {
    exists i :: 0 <= i < |passes| && FailsToPoll(cfg, s, p, passes, i)
  }

  lemma SomePollFailsOneMore(cfg: Config, s: SourceState, p: Pump, passes: seq<Pass>)
    requires passes != []
    ensures SomePollFails(cfg, s, p, passes) <==>
            SomePollFails(cfg, s, p, passes[..|passes| - 1]) || FailsToPoll(cfg, s, p, passes, |passes| - 1)
  {
    hide RunShovel;
    var n := |passes| - 1;
    var front := passes[..n];
    forall i | 0 <= i < n ensures FailsToPoll(cfg, s, p, passes, i) <==> FailsToPoll(cfg, s, p, front, i) {
      assert passes[..i] == front[..i];
    }
    if SomePollFails(cfg, s, p, front) {
      var i :| 0 <= i < n && FailsToPoll(cfg, s, p, front, i);
      assert FailsToPoll(cfg, s, p, passes, i);
    }
  }

  /** A loop that is still running ends normally exactly when it is stopped before the next pass, which then does
      nothing. */
  lemma StopsNormallyExactlyWhen(cfg: Config, s: SourceState, p: Pump, passes: seq<Pass>, next: Pass)
    requires RunShovel(cfg, s, p, passes).2 == Pumping
    ensures RunShovel(cfg, s, p, passes + [next]).2 == StoppedNormally <==> next.stopped
    ensures next.stopped ==>
              && RunShovel(cfg, s, p, passes + [next]).0 == RunShovel(cfg, s, p, passes).0
              && RunShovel(cfg, s, p, passes + [next]).1 == RunShovel(cfg, s, p, passes).1
  {
    hide NextStatement;
    assert (passes + [next])[..|passes|] == passes;
  }

  /** Pass i is reached and not stopped, its poll has to read, and the read fails. */
  predicate FailsToPoll(cfg: Config, s: SourceState, p: Pump, passes: seq<Pass>, i: nat)
    requires i < |passes|
  {
    var (mid, _, end) := RunShovel(cfg, s, p, passes[..i]);
    end == Pumping && !passes[i].stopped && mid.buffer == [] && !passes[i].read.NoReadFault?
  }

  lemma OnePollFails(cfg: Config, s: SourceState, p: Pump, pass: Pass)
    ensures Once(cfg, s, p, pass).2 == SourceError <==>
            !pass.stopped && s.buffer == [] && !pass.read.NoReadFault?
  {
  }

  /** At a concrete input: the very first poll times out, and the loop is over; a source that returned
      DeadlineExceeded itself would have been asked again. */
  lemma TimeoutEndsTheLoop(cfg: Config, blockSize: nat, w: Writer)
    ensures
      var p, source := Pump(0, w), SourceState(0, blockSize, []);
      && RunShovel(cfg, source, p, [Pass(false, [], QueryFails, NoFault, false)]) == (source, p, SourceError)
      && Deliver(cfg, p, DeadlineExceeded, NoFault, false) == (p, Pumping)
  {
    var p, source := Pump(0, w), SourceState(0, blockSize, []);
    var pass := Pass(false, [], QueryFails, NoFault, false);
    assert [pass][..0] == [];
    assert RunShovel(cfg, source, p, []) == (source, p, Pumping);
  }

  // ---------- run safety for an arbitrary source ----------

  /** One pass with a source that may return anything. */
  datatype Input = Input(offer: Offer, apply: ApplyFault, ctxDone: bool)

  datatype Progress = Progress(pump: Pump, end: End, applied: seq<LedgerRow>)

  /** The same loop, fed by any source, with the rows whose apply succeeded. */
  function RunPump(cfg: Config, p: Pump, inputs: seq<Input>): Progress {
    if inputs == [] then Progress(p, Pumping, [])
    else
      var n := |inputs| - 1;
      var before := RunPump(cfg, p, inputs[..n]);
      if before.end != Pumping then before
      else
        var (p', e) := Deliver(cfg, before.pump, inputs[n].offer, inputs[n].apply, inputs[n].ctxDone);
        var ok := inputs[n].offer.Offered? && (e == Pumping || e == ContextDone);
        Progress(p', e, if ok then before.applied + [inputs[n].offer.row] else before.applied)
  }

  /** Whether b may follow a: the numbers climb, and above maxSeqOnStartup without a hole, unless
      a is the number 0 that the check takes for "nothing applied yet". */
  predicate Follows(cfg: Config, a: LedgerRow, b: LedgerRow) {
    && a.seqNo < b.seqNo
    && (cfg.abortOnSeqSkip && b.seqNo > cfg.maxSeqOnStartup ==> b.seqNo == a.seqNo + 1 || a.seqNo == 0)
  }

  function SeenSeq(w: Writer): Option<int> {
    match w.tx
    case NoTx => w.db.seqNo
    case Live(v) => v.seqNo
    case Dead => None
  }

  ghost predicate Safe(cfg: Config, r: Progress) {
    && (forall i :: 0 <= i < |r.applied| - 1 ==> Follows(cfg, r.applied[i], r.applied[i + 1]))
    && (r.end == Pumping ==>
          && r.pump.lastSeq == LastSeq(r.applied)
          && (r.applied != [] ==> SeenSeq(r.pump.writer) == Some(LastSeq(r.applied))))
  }

  lemma DeliverIsSafe(cfg: Config, r: Progress, row: LedgerRow, fault: ApplyFault)
    requires Safe(cfg, r) && r.end == Pumping
    requires !Skips(cfg, r.pump.lastSeq, row.seqNo) && Apply(r.pump.writer, row, fault).1.None?
    ensures r.applied != [] ==> Follows(cfg, r.applied[|r.applied| - 1], row)
    ensures SeenSeq(Apply(r.pump.writer, row, fault).0) == Some(row.seqNo)
  {
  }

  /** In one run, from whatever source and with whatever failures, the applied numbers strictly climb;
      and with abortOnSeqSkip, every applied number after the first that exceeds
      maxSeqOnStartup is its predecessor plus one, provided the predecessor is not 0. */
  lemma {:induction false} RunIsSafe(cfg: Config, w: Writer, inputs: seq<Input>)
    ensures Safe(cfg, RunPump(cfg, Pump(0, w), inputs))
  {
    if inputs != [] {
      var n := |inputs| - 1;
      RunIsSafe(cfg, w, inputs[..n]);
      var before := RunPump(cfg, Pump(0, w), inputs[..n]);
      if before.end == Pumping && inputs[n].offer.Offered? {
        var row := inputs[n].offer.row;
        if !Skips(cfg, before.pump.lastSeq, row.seqNo) && Apply(before.pump.writer, row, inputs[n].apply).1.None? {
          DeliverIsSafe(cfg, before, row, inputs[n].apply);
        }
      }
    }
  }

  /** What the next pass of a running loop does, in terms of the rows applied so far: it aborts exactly when something
      with a number other than 0 has been applied, the offered number leaves a hole after it, lies above
      maxSeqOnStartup, and aborting is switched on. Otherwise an offered row is applied, or its error ends the
      loop; and a loop that neither failed nor aborted ends exactly when its context is done. */
  lemma NextPassExactly(cfg: Config, w: Writer, inputs: seq<Input>, next: Input)
    requires RunPump(cfg, Pump(0, w), inputs).end == Pumping
    ensures
      var before, after := RunPump(cfg, Pump(0, w), inputs), RunPump(cfg, Pump(0, w), inputs + [next]);
      var last := LastSeq(before.applied);
      var applies := next.offer.Offered? && after.end != SkippedSequence;
      var err := if applies then Apply(before.pump.writer, next.offer.row, next.apply).1 else None;
      && (after.end == SkippedSequence <==>
            && next.offer.Offered? && cfg.abortOnSeqSkip
            && last != 0 && next.offer.row.seqNo > last + 1 && next.offer.row.seqNo > cfg.maxSeqOnStartup)
      && (after.end == SourceError <==> next.offer.SourceFailed?)
      && (after.end.ApplyFailed? <==> err.Some?) && (err.Some? ==> after.end == ApplyFailed(err.value))
      && after.applied == before.applied + (if applies && err.None? then [next.offer.row] else [])
      && after.end != StoppedNormally
      && (!next.offer.SourceFailed? && after.end != SkippedSequence && err.None? ==>
            after.end == if next.ctxDone then ContextDone else Pumping)
  {
    RunIsSafe(cfg, w, inputs);
    PumpOneMore(cfg, w, inputs, next);
    hide Apply, RunPump;
  }

  lemma PumpOneMore(cfg: Config, w: Writer, inputs: seq<Input>, next: Input)
    requires RunPump(cfg, Pump(0, w), inputs).end == Pumping
    ensures
      var before := RunPump(cfg, Pump(0, w), inputs);
      var (p', e) := Deliver(cfg, before.pump, next.offer, next.apply, next.ctxDone);
      var ok := next.offer.Offered? && (e == Pumping || e == ContextDone);
      RunPump(cfg, Pump(0, w), inputs + [next]) ==
      Progress(p', e, if ok then before.applied + [next.offer.row] else before.applied)
  {
    hide Deliver;
    assert (inputs + [next])[..|inputs|] == inputs;
  }

  /** The exemption of 0 is real: on an LDB without a stored number, or with a negative one, a source that offers a
      statement numbered 0 may skip to any number, however large. */
  lemma ZeroHidesAnySkip(cfg: Config, w: Writer, skip: int, time: int)
    requires w.tx.NoTx? && (w.db.seqNo.None? || w.db.seqNo.value < 0) && skip > 1
    ensures
      var a, b := LedgerRow(0, time, TxBegin), LedgerRow(skip, time, TxEnd);
      var r := RunPump(cfg, Pump(0, w), [Input(Offered(a), NoFault, false), Input(Offered(b), NoFault, false)]);
      r.end == Pumping && r.applied == [a, b]
  {
    var a, b := LedgerRow(0, time, TxBegin), LedgerRow(skip, time, TxEnd);
    var first, second := Input(Offered(a), NoFault, false), Input(Offered(b), NoFault, false);
    assert [first, second][..1] == [first] && [first][..0] == [];
    assert RunPump(cfg, Pump(0, w), []) == Progress(Pump(0, w), Pumping, []);
    var mid := RunPump(cfg, Pump(0, w), [first]);
    assert mid == Progress(Pump(0, Writer(w.db, Live(Ldb(w.db.tables, Some(0), Some(time))))), Pumping, [a]);
  }

  /** The promise of the skip check, without an exemption: after the first, every number above maxSeqOnStartup is
      its predecessor plus one. */
  predicate StepsByOne(cfg: Config, applied: seq<LedgerRow>) {
    forall i :: 0 < i < |applied| && applied[i].seqNo > cfg.maxSeqOnStartup ==>
                  applied[i].seqNo == applied[i - 1].seqNo + 1
  }

  /** Whatever is applied is numbered above what was stored when the shovel started. */
  lemma {:induction false} AppliedAboveStored(cfg: Config, w: Writer, inputs: seq<Input>)
    requires w.tx.NoTx? && w.db.seqNo.Some?
    ensures
      var r := RunPump(cfg, Pump(0, w), inputs);
      && (r.applied == [] && r.end == Pumping ==> r.pump.writer == w)
      && (r.applied != [] ==> r.applied[0].seqNo > w.db.seqNo.value)
  {
    if inputs != [] {
      AppliedAboveStored(cfg, w, inputs[..|inputs| - 1]);
    }
  }

  lemma {:induction false} ClimbsFromFirst(cfg: Config, applied: seq<LedgerRow>, i: nat)
    requires forall k :: 0 <= k < |applied| - 1 ==> Follows(cfg, applied[k], applied[k + 1])
    requires i < |applied|
    ensures applied[0].seqNo <= applied[i].seqNo
  {
    if i > 0 {
      ClimbsFromFirst(cfg, applied, i - 1);
      assert Follows(cfg, applied[i - 1], applied[i - 1 + 1]);
    }
  }

  /** The number stored in the LDB when the shovel starts decides whether the promise is kept: it holds of every
      run, from whatever source and with whatever failures, exactly when there is one and it is not
      negative. (The factory always sets abortOnSeqSkip and starts from a writer without a transaction.) */
  lemma StepRuleHoldsExactlyWhen(cfg: Config, w: Writer)
    requires w.tx.NoTx? && cfg.abortOnSeqSkip
    ensures (forall inputs :: StepsByOne(cfg, RunPump(cfg, Pump(0, w), inputs).applied)) <==>
            w.db.seqNo.Some? && w.db.seqNo.value >= 0
  {
    if w.db.seqNo.Some? && w.db.seqNo.value >= 0 {
      forall inputs ensures StepsByOne(cfg, RunPump(cfg, Pump(0, w), inputs).applied) {
        StoredNumberMakesItSafe(cfg, w, inputs);
      }
    } else {
      var skip := if cfg.maxSeqOnStartup > 1 then cfg.maxSeqOnStartup + 1 else 2;
      var a, b := LedgerRow(0, 0, TxBegin), LedgerRow(skip, 0, TxEnd);
      ZeroHidesAnySkip(cfg, w, skip, 0);
      SkipBreaksTheRule(cfg, [a, b]);
    }
  }

  lemma SkipBreaksTheRule(cfg: Config, applied: seq<LedgerRow>)
    requires |applied| == 2 && applied[1].seqNo > cfg.maxSeqOnStartup && applied[1].seqNo != applied[0].seqNo + 1
    ensures !StepsByOne(cfg, applied)
  {
    assert applied[1].seqNo != applied[1 - 1].seqNo + 1;
  }

  lemma StoredNumberMakesItSafe(cfg: Config, w: Writer, inputs: seq<Input>)
    requires w.tx.NoTx? && cfg.abortOnSeqSkip && w.db.seqNo.Some? && w.db.seqNo.value >= 0
    ensures StepsByOne(cfg, RunPump(cfg, Pump(0, w), inputs).applied)
  {
    RunIsSafe(cfg, w, inputs);
    AppliedAboveStored(cfg, w, inputs);
    hide RunPump;
    var applied := RunPump(cfg, Pump(0, w), inputs).applied;
    forall i | 0 < i < |applied| && applied[i].seqNo > cfg.maxSeqOnStartup
      ensures applied[i].seqNo == applied[i - 1].seqNo + 1
    {
      ClimbsFromFirst(cfg, applied, i - 1);
      assert Follows(cfg, applied[i - 1], applied[i - 1 + 1]);
    }
  }

  /** The loop over the SQL source is the loop over an arbitrary source that happens to
      make those offers, so everything proved of RunPump holds of Start. */
  lemma {:induction false} ShovelIsPump(cfg: Config, s: SourceState, p: Pump, passes: seq<Pass>)
    returns (inputs: seq<Input>)
    requires forall i :: 0 <= i < |passes| ==> !passes[i].stopped
    ensures |inputs| == |passes|
    ensures RunShovel(cfg, s, p, passes).1 == RunPump(cfg, p, inputs).pump
    ensures RunShovel(cfg, s, p, passes).2 == RunPump(cfg, p, inputs).end
  {
    if passes == [] {
      inputs := [];
    } else {
      var n := |passes| - 1;
      var front := ShovelIsPump(cfg, s, p, passes[..n]);
      var mid := RunShovel(cfg, s, p, passes[..n]).0;
      var f := NextStatement(mid, passes[n].ledger, passes[n].read).1;
      inputs := front + [Input(OfferOf(f), passes[n].apply, passes[n].ctxDone)];
      assert inputs[..n] == front;
    }
  }
}
