/** Reflector.Start: builds a shovel on the LDB, runs it, closes it, and starts over from the number stored in
    the LDB, whatever made the shovel end. */
module Reflector {
  import opened Wrappers
  import opened Tables
  import opened Ledger
  import opened LdbWriter
  import opened DmlSource
  import opened Shovel
  import opened Replication

  datatype BuildFault = Builds | InitFails | FetchSeqFails

  /** One turn of the crash-and-restart loop: how building the shovel goes, the passes of its loop, and
      whether the reflector is told to quit before the next turn. */
  datatype Life = Life(build: BuildFault, passes: seq<Pass>, quit: bool)

  datatype Settings = Settings(maxKnownSeq: int, queryBlockSize: nat)

  /** The LDB after one turn. */
  function Turn(cfg: Settings, db: Ldb, life: Life): Ldb {
    if !life.build.Builds? then db
    else
      RunShovel(BuiltWith(cfg.maxKnownSeq), SourceState(FetchSeq(db), cfg.queryBlockSize, []),
                Pump(0, Writer(db, NoTx)), life.passes).1.writer.db
  }

  function RunLives(cfg: Settings, db: Ldb, lives: seq<Life>): Ldb {
    if lives == [] then db
    else Turn(cfg, RunLives(cfg, db, lives[..|lives| - 1]), lives[|lives| - 1])
  }

  class ReflectorLoop {
    const ldb: LdbDatabase
    const cfg: Settings

    constructor (ldb: LdbDatabase, cfg: Settings)
      ensures this.ldb == ldb && this.cfg == cfg
    {
      this.ldb, this.cfg := ldb, cfg;
    }

    /** Fetches the last good number and builds a fresh writer and source on it. */
    method BuildShovel(fault: BuildFault) returns (built: Option<ShovelLoop>)
      requires ldb.open.None?
      ensures built.None? <==> !fault.Builds?
      ensures built.Some? ==>
                && fresh(built.value) && fresh(built.value.source) && fresh(built.value.writer)
                && built.value.writer.db == ldb && built.value.writer.Valid()
                && built.value.writer.State() == Writer(ldb.committed, NoTx)
                && built.value.source.State() == SourceState(FetchSeq(ldb.committed), cfg.queryBlockSize, [])
                && built.value.cfg == BuiltWith(cfg.maxKnownSeq)
    {
      if fault.InitFails? || fault.FetchSeqFails? {
        return None;
      }
      var writer := new SqlLdbWriter(ldb);
      var source := new SqlDmlSource(FetchSeq(ldb.committed), cfg.queryBlockSize);
      var shovel := new ShovelLoop(source, writer, Config(true, cfg.maxKnownSeq));
      built := Some(shovel);
    }

    method Start(lives: seq<Life>) returns (turns: nat)
      requires ldb.open.None?
      modifies ldb
      ensures ldb.open.None?
      ensures turns <= |lives|
      ensures turns < |lives| ==> turns > 0 && lives[turns - 1].quit
      ensures forall i :: 0 <= i < turns - 1 ==> !lives[i].quit
      ensures ldb.committed == RunLives(cfg, old(ldb.committed), lives[..turns])
    {
      ghost var db0 := ldb.committed;
      turns := 0;
      while turns < |lives|
        invariant turns <= |lives|
        invariant ldb.open.None?
        invariant forall i :: 0 <= i < turns ==> !lives[i].quit
        invariant ldb.committed == RunLives(cfg, db0, lives[..turns])
      {
        var life := lives[turns];
        assert lives[..turns + 1][..turns] == lives[..turns];
        var built := BuildShovel(life.build);
        if built.Some? {
          var shovel := built.value;
          var end, lastSeq := shovel.Start(life.passes);
          shovel.writer.Close();
        }
        turns := turns + 1;
        if life.quit {
          return;
        }
      }
    }
  }

  // ---------- what the loop keeps ----------

  /** A loop that has applied the first p rows and has buffered the ones after them. */
  ghost predicate LoopAt(start: Tables, rows: seq<LedgerRow>, s: SourceState, w: Writer, n: nat, p: nat) {
    && WriterAt(start, rows, w, n, p)
    && !w.tx.Dead?
    && Exact(0, s, rows[..p], rows, 0, p + |s.buffer|)
  }

  lemma OfferIsNextRow(start: Tables, rows: seq<LedgerRow>, s: SourceState, w: Writer, n: nat, p: nat, call: Fetch)
    requires Increasing(rows) && call.ledger <= rows && LoopAt(start, rows, s, w, n, p)
    ensures
      var (s', f) := NextStatement(s, call.ledger, call.fault);
      var k := if f.Got? then p + 1 else p;
      && (f.Got? ==> p < |rows| && f.row == rows[p])
      && k <= |rows| && Exact(0, s', rows[..k], rows, 0, k + |s'.buffer|)
  {
    hide NextStatement, Exact;
    NextHandsOutNext(s, rows, p, call);
  }

  lemma OnceKeeps(start: Tables, cfg: Config, rows: seq<LedgerRow>, s: SourceState, p: Pump, pass: Pass, n: nat, k: nat)
    returns (n': nat, k': nat)
    requires Increasing(rows) && pass.ledger <= rows && LoopAt(start, rows, s, p.writer, n, k)
    ensures
      var (s', p', e) := Once(cfg, s, p, pass);
      WriterAt(start, rows, p'.writer, n', k') && (e.Pumping? ==> LoopAt(start, rows, s', p'.writer, n', k'))
  {
    hide NextStatement, Exact, Apply, At, InTx;
    n', k' := n, k;
    if !pass.stopped {
      OfferIsNextRow(start, rows, s, p.writer, n, k, Fetch(pass.ledger, pass.read));
      var (s', f) := NextStatement(s, pass.ledger, pass.read);
      if f.Got? && !Skips(cfg, p.lastSeq, f.row.seqNo) {
        var (w', err) := Apply(p.writer, f.row, pass.apply);
        if err.None? {
          ApplyAdvances(start, rows, p.writer, n, k, pass.apply);
          n', k' := if w'.tx.Live? then n else k + 1, k + 1;
        } else {
          ApplyFails(start, rows, p.writer, n, k, f.row, pass.apply);
          k' := n;
        }
      }
    }
  }

  lemma {:induction false} ShovelKeeps(start: Tables, cfg: Config, rows: seq<LedgerRow>, s: SourceState, p: Pump,
      passes: seq<Pass>, n: nat)
    returns (n': nat, k': nat)
    requires Increasing(rows) && LoopAt(start, rows, s, p.writer, n, n)
    requires forall i :: 0 <= i < |passes| ==> passes[i].ledger <= rows
    ensures
      var (s', p', e) := RunShovel(cfg, s, p, passes);
      WriterAt(start, rows, p'.writer, n', k') && (e.Pumping? ==> LoopAt(start, rows, s', p'.writer, n', k'))
  {
    if passes == [] {
      n', k' := n, n;
    } else {
      var front := passes[..|passes| - 1];
      n', k' := ShovelKeeps(start, cfg, rows, s, p, front, n);
      var (s1, p1, e) := RunShovel(cfg, s, p, front);
      if e == Pumping {
        n', k' := OnceKeeps(start, cfg, rows, s1, p1, passes[|passes| - 1], n', k');
      }
    }
  }

  /** However often the reflector fails and restarts, and whatever part of the ledger it can see each
      time: an LDB that is the snapshot after some block is, when Start gives up control, again
      the snapshot after some block. */
  lemma {:induction false} RestartsKeepSnapshots(start: Tables, cfg: Settings, rows: seq<LedgerRow>, db: Ldb,
      lives: seq<Life>, n: nat)
    returns (n': nat)
    requires Increasing(rows) && Boundary(rows, n) && At(start, rows, n, db)
    requires forall i, j :: 0 <= i < |lives| && 0 <= j < |lives[i].passes| ==> lives[i].passes[j].ledger <= rows
    ensures Boundary(rows, n') && At(start, rows, n', RunLives(cfg, db, lives))
  {
    if lives == [] {
      n' := n;
    } else {
      var life := lives[|lives| - 1];
      n' := RestartsKeepSnapshots(start, cfg, rows, db, lives[..|lives| - 1], n);
      var mid := RunLives(cfg, db, lives[..|lives| - 1]);
      if life.build.Builds? {
        assert rows[..n'] + [] == rows[0..n'];
        var k;
        n', k := ShovelKeeps(start, BuiltWith(cfg.maxKnownSeq), rows,
                             SourceState(FetchSeq(mid), cfg.queryBlockSize, []),
                             Pump(0, Writer(mid, NoTx)), life.passes, n');
      }
    }
  }
}
