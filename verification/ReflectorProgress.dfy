/** Progress of the crash-and-restart loop itself: when nothing fails, each turn either brings the LDB to the end of the
    ledger or past a hole of it. */
module ReflectorProgress {
  import opened Wrappers
  import opened Tables
  import opened Ledger
  import opened LdbWriter
  import opened DmlSource
  import opened Shovel
  import opened Replication
  import opened CatchUp
  import opened Reflector

  /** A pass that sees the whole ledger, in which nothing fails and nobody interrupts. */
  predicate GoodPass(pass: Pass, rows: seq<LedgerRow>) {
    !pass.stopped && pass.ledger == rows && pass.read.NoReadFault? && pass.apply.NoFault? && !pass.ctxDone
  }

  /** A turn that builds its shovel and lets it run for as many passes as the ledger has rows. */
  predicate GoodLife(life: Life, rows: seq<LedgerRow>) {
    && life.build.Builds? && |life.passes| >= |rows|
    && forall i :: 0 <= i < |life.passes| ==> GoodPass(life.passes[i], rows)
  }

  /** A loop that started at row first and has applied the first k rows. */
  ghost predicate PumpAt(start: Tables, rows: seq<LedgerRow>, s: SourceState, p: Pump, first: nat, n: nat, k: nat) {
    && LoopAt(start, rows, s, p.writer, n, k)
    && first <= k <= |rows|
    && (if p.lastSeq == 0 then k == first else first < k && p.lastSeq == rows[k - 1].seqNo)
  }

  predicate IsHole(rows: seq<LedgerRow>, k: nat) {
    0 < k < |rows| && rows[k].seqNo != rows[k - 1].seqNo + 1
  }

  /** Where a run of good passes stands: still pumping, or ended by the skip check in front of a hole and between
      blocks. */
  ghost predicate Stands(
      start: Tables, rows: seq<LedgerRow>, s: SourceState, p: Pump, e: End, first: nat, n: nat, k: nat) {
    && WriterAt(start, rows, p.writer, n, k)
    && (e.Pumping? ==> PumpAt(start, rows, s, p, first, n, k))
    && (!e.Pumping? ==> e == SkippedSequence && n == k && first < k && IsHole(rows, k))
  }

  lemma PollFindsNext(rows: seq<LedgerRow>, s: SourceState, k: nat)
    requires Increasing(rows) && k <= |rows| && Exact(0, s, rows[..k], rows, 0, k + |s.buffer|)
    ensures NextStatement(s, rows, NoReadFault).1 == if k < |rows| then Got(rows[k]) else NoNewStatements
  {
    NextHandsOutNext(s, rows, k, Fetch(rows, NoReadFault));
    if s.buffer == [] && k < |rows| {
      var r := PageIsNextSlice(0, s, rows[..k], rows, 0, k, rows);
      assert |RowsAfter(rows, s.lastSequence)| == |rows| - k > 0;
    }
  }

  /** With a number in front, the skip check only ever stops between blocks. */
  lemma SkipIsAtBoundary(start: Tables, rows: seq<LedgerRow>, w: Writer, n: nat, k: nat)
    requires WellFormed(rows) && WriterAt(start, rows, w, n, k) && IsHole(rows, k)
    ensures n == k
  {
    assert Fits(rows, k);
  }

  /** What a good pass comes to, by what its poll finds. */
  lemma GoodPassIs(rows: seq<LedgerRow>, cfg: Config, s: SourceState, p: Pump, pass: Pass, k: nat)
    requires Increasing(rows) && GoodPass(pass, rows) && k <= |rows| && Exact(0, s, rows[..k], rows, 0, k + |s.buffer|)
    ensures
      var (s', p', e) := Once(cfg, s, p, pass);
      var k' := if k < |rows| then k + 1 else k;
      && Exact(0, s', rows[..k'], rows, 0, k' + |s'.buffer|)
      && (p', e) ==
         if k < |rows| then Deliver(cfg, p, Offered(rows[k]), NoFault, false) else (p, Pumping)
  {
    PollFindsNext(rows, s, k);
    NextHandsOutNext(s, rows, k, Fetch(rows, NoReadFault));
    hide NextStatement, Exact, Increasing, Apply;
  }

  lemma GoodDelivery(start: Tables, cfg: Config, rows: seq<LedgerRow>, p: Pump, first: nat, n: nat, k: nat)
    returns (n': nat)
    requires WellFormed(rows) && Replay(start, rows).Some? && k < |rows|
    requires WriterAt(start, rows, p.writer, n, k) && !p.writer.tx.Dead? && first <= k
    requires if p.lastSeq == 0 then k == first else first < k && p.lastSeq == rows[k - 1].seqNo
    ensures
      var (p', e) := Deliver(cfg, p, Offered(rows[k]), NoFault, false);
      if e.Pumping?
      then WriterAt(start, rows, p'.writer, n', k + 1) && !p'.writer.tx.Dead? && p'.lastSeq == rows[k].seqNo != 0
      else e == SkippedSequence && p' == p && n' == n == k && first < k && IsHole(rows, k)
  {
    n' := n;
    if Skips(cfg, p.lastSeq, rows[k].seqNo) {
      SkipIsAtBoundary(start, rows, p.writer, n, k);
    } else {
      QuietApplySucceeds(start, rows, p.writer, n, k);
      ApplyAdvances(start, rows, p.writer, n, k, NoFault);
      NumbersArePositive(rows, k);
      n' := if Apply(p.writer, rows[k], NoFault).0.tx.Live? then n else k + 1;
      hide Apply, WellFormed, WriterAt, Replay;
    }
  }

  lemma NumbersArePositive(rows: seq<LedgerRow>, k: nat)
    requires Increasing(rows) && k < |rows|
    ensures rows[k].seqNo > 0
  {
  }

  lemma GoodPassAdvances(
      start: Tables, cfg: Config, rows: seq<LedgerRow>, s: SourceState, p: Pump, pass: Pass, first: nat, n: nat, k: nat)
    returns (n': nat, k': nat)
    requires WellFormed(rows) && Replay(start, rows).Some? && GoodPass(pass, rows)
    requires PumpAt(start, rows, s, p, first, n, k)
    ensures
      var (s', p', e) := Once(cfg, s, p, pass);
      && Stands(start, rows, s', p', e, first, n', k')
      && (e.Pumping? ==> k' == if k < |rows| then k + 1 else k)
  {
    hide *;
    n', k' := n, k;
    PumpParts(start, rows, s, p, first, n, k);
    GoodPassIs(rows, cfg, s, p, pass, k);
    var (s', p', e) := Once(cfg, s, p, pass);
    if k < |rows| {
      n' := GoodDelivery(start, cfg, rows, p, first, n, k);
      if e.Pumping? {
        k' := k + 1;
        StillPumping(start, rows, s', p', first, n', k + 1);
      } else {
        StopsAtHole(start, rows, s', p', first, n, k);
      }
    } else {
      StillPumping(start, rows, s', p', first, n, k);
    }
  }

  lemma PumpParts(start: Tables, rows: seq<LedgerRow>, s: SourceState, p: Pump, first: nat, n: nat, k: nat)
    requires WellFormed(rows) && PumpAt(start, rows, s, p, first, n, k)
    ensures Increasing(rows) && first <= k <= |rows|
    ensures WriterAt(start, rows, p.writer, n, k) && !p.writer.tx.Dead?
    ensures Exact(0, s, rows[..k], rows, 0, k + |s.buffer|)
    ensures if p.lastSeq == 0 then k == first else first < k && p.lastSeq == rows[k - 1].seqNo
  {
    hide WriterAt, Exact;
  }

  lemma StillPumping(start: Tables, rows: seq<LedgerRow>, s: SourceState, p: Pump, first: nat, n: nat, k: nat)
    requires first <= k <= |rows| && WriterAt(start, rows, p.writer, n, k) && !p.writer.tx.Dead?
    requires Exact(0, s, rows[..k], rows, 0, k + |s.buffer|)
    requires if p.lastSeq == 0 then k == first else first < k && p.lastSeq == rows[k - 1].seqNo
    ensures Stands(start, rows, s, p, Pumping, first, n, k)
  {
    hide WriterAt, Exact;
  }

  lemma StopsAtHole(start: Tables, rows: seq<LedgerRow>, s: SourceState, p: Pump, first: nat, n: nat, k: nat)
    requires WriterAt(start, rows, p.writer, n, k) && n == k && first < k && IsHole(rows, k)
    ensures Stands(start, rows, s, p, SkippedSequence, first, n, k)
  {
    hide WriterAt, IsHole;
  }

  lemma {:induction false} GoodPassesAdvance(
      start: Tables, cfg: Config, rows: seq<LedgerRow>, s: SourceState, p: Pump, passes: seq<Pass>, first: nat)
    returns (n': nat, k': nat)
    requires WellFormed(rows) && Replay(start, rows).Some?
    requires forall i :: 0 <= i < |passes| ==> GoodPass(passes[i], rows)
    requires PumpAt(start, rows, s, p, first, first, first)
    ensures
      var (s', p', e) := RunShovel(cfg, s, p, passes);
      && Stands(start, rows, s', p', e, first, n', k')
      && (e.Pumping? ==> k' == if first + |passes| < |rows| then first + |passes| else |rows|)
  {
    hide GoodPass, WellFormed, Replay, Once, WriterAt, LoopAt;
    if passes == [] {
      n', k' := first, first;
      assert WriterAt(start, rows, p.writer, first, first) by { AtOf(start, rows, s, p, first); }
    } else {
      var front := passes[..|passes| - 1];
      n', k' := GoodPassesAdvance(start, cfg, rows, s, p, front, first);
      var (s1, p1, e) := RunShovel(cfg, s, p, front);
      if e == Pumping {
        n', k' := GoodPassAdvances(start, cfg, rows, s1, p1, passes[|passes| - 1], first, n', k');
      }
    }
  }

  lemma AtOf(start: Tables, rows: seq<LedgerRow>, s: SourceState, p: Pump, first: nat)
    requires PumpAt(start, rows, s, p, first, first, first)
    ensures WriterAt(start, rows, p.writer, first, first)
  {
  }

  /** One good turn: from one block boundary to the end of the ledger, or past at least one row to a boundary in
      front of a hole. */
  lemma GoodTurnAdvances(start: Tables, cfg: Settings, rows: seq<LedgerRow>, db: Ldb, life: Life, n: nat)
    returns (n': nat)
    requires WellFormed(rows) && Replay(start, rows).Some? && GoodLife(life, rows)
    requires Boundary(rows, n) && At(start, rows, n, db)
    ensures Boundary(rows, n') && At(start, rows, n', Turn(cfg, db, life))
    ensures n' == |rows| || (n < n' && IsHole(rows, n'))
  {
    var s, p := SourceState(FetchSeq(db), cfg.queryBlockSize, []), Pump(0, Writer(db, NoTx));
    assert Increasing(rows) && rows[..|rows|] == rows;
    assert PumpAt(start, rows, s, p, n, n, n) by {
      assert rows[..n] + [] == rows[0..n];
    }
    hide PumpAt;
    var k;
    n', k := GoodPassesAdvance(start, BuiltWith(cfg.maxKnownSeq), rows, s, p, life.passes, n);
  }

  lemma HoleCounts(rows: seq<LedgerRow>, i: nat, k: nat)
    requires i <= k && IsHole(rows, k)
    ensures Holes(rows, k + 1) + 1 <= Holes(rows, i)
  {
    HolesShrink(rows, i, k);
  }

  lemma {:induction false} GoodTurnsAdvance(
      start: Tables, cfg: Settings, rows: seq<LedgerRow>, db: Ldb, lives: seq<Life>, n: nat)
    returns (n': nat)
    requires WellFormed(rows) && Replay(start, rows).Some?
    requires forall i :: 0 <= i < |lives| ==> GoodLife(lives[i], rows)
    requires Boundary(rows, n) && At(start, rows, n, db)
    ensures Boundary(rows, n') && At(start, rows, n', RunLives(cfg, db, lives))
    ensures n' == |rows| || Holes(rows, n' + 1) + |lives| <= Holes(rows, n + 1)
  {
    hide GoodLife, WellFormed, Replay, Boundary, At, Turn, Holes, IsHole;
    if lives == [] {
      n' := n;
    } else {
      var front := lives[..|lives| - 1];
      var mid := GoodTurnsAdvance(start, cfg, rows, db, front, n);
      n' := GoodTurnAdvances(start, cfg, rows, RunLives(cfg, db, front), lives[|lives| - 1], mid);
      if n' != |rows| {
        HoleCounts(rows, mid + 1, n');
        NoHolePastEnd(rows);
      }
    }
  }

  lemma NoHolePastEnd(rows: seq<LedgerRow>)
    ensures Holes(rows, |rows| + 1) == 0
  {
  }

  /** Once nothing fails any more, one turn more than the ledger has holes ahead brings the LDB to the end of the
      ledger, from wherever earlier turns left it, and later turns keep it there. */
  lemma RestartsCatchUp(start: Tables, cfg: Settings, rows: seq<LedgerRow>, db: Ldb, lives: seq<Life>, n: nat)
    requires WellFormed(rows) && Replay(start, rows).Some?
    requires forall i :: 0 <= i < |lives| ==> GoodLife(lives[i], rows)
    requires Boundary(rows, n) && At(start, rows, n, db)
    requires |lives| > Holes(rows, n + 1)
    ensures At(start, rows, |rows|, RunLives(cfg, db, lives))
  {
    var n' := GoodTurnsAdvance(start, cfg, rows, db, lives, n);
  }
}
