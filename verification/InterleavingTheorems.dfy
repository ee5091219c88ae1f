/** Whole runs of concurrent Mutates: the ledger they leave, and the chain of cookies. */
module InterleavingTheorems {
  import opened Wrappers
  import opened Tables
  import opened Ledger
  import opened Mutators
  import opened Interleaving

  function RunCtl(s: Ctl, steps: seq<Step>): Option<Ctl> {
    if steps == [] then Some(s)
    else
      match RunCtl(s, steps[..|steps| - 1])
      case None => None
      case Some(mid) => Next(mid, steps[|steps| - 1])
  }

  /** One committed Mutate: its request and the rows it left. */
  datatype Mutation = Mutation(req: Request, rows: seq<LedgerRow>)

  /** The Mutates committed in a run, in commit order. */
  function Mutations(s: Ctl, steps: seq<Step>): seq<Mutation>
    requires RunCtl(s, steps).Some?
  {
    if steps == [] then []
    else
      var n := |steps| - 1;
      var mid := RunCtl(s, steps[..n]).value;
      Mutations(s, steps[..n]) +
      (if steps[n].Commit? then [Mutation(mid.txns[steps[n].id].req, mid.txns[steps[n].id].rows)] else [])
  }

  function Blocks(ms: seq<Mutation>): (bs: seq<seq<LedgerRow>>) {
    seq(|ms|, i requires 0 <= i < |ms| => ms[i].rows)
  }

  function Batches(ms: seq<Mutation>): (bs: seq<seq<Dml>>) {
    seq(|ms|, i requires 0 <= i < |ms| => ms[i].req.batch)
  }

  /** Every step keeps the invariant; a commit is an indivisible Mutate, and no other step
      touches the committed tables and ledger, or, but for the two that are there to do so, a cookie. */
  lemma StepKeeps(s: Ctl, step: Step)
    requires Inv(s) && Next(s, step).Some?
    ensures Inv(Next(s, step).value)
    ensures step.Commit? ==> AtomicMutate(s, s.txns[step.id].req, s.txns[step.id].rows, Next(s, step).value)
    ensures !step.Commit? ==> Next(s, step).value.tables == s.tables && Next(s, step).value.ledger == s.ledger
    ensures !step.Commit? && !step.SetCookie? && !step.RegisterWriter? ==> Next(s, step).value.mutators == s.mutators
  {
    match step
    case Begin(id, req) => BeginKeeps(s, id, req);
    case TakeLock(id) => TakeLockKeeps(s, id);
    case CheckCookie(id) => CheckCookieKeeps(s, id);
    case ExecRow(id) => ExecRowKeeps(s, id);
    case LogRow(id, timestamp) => LogRowKeeps(s, id, timestamp);
    case Commit(id) => CommitIsAtomic(s, id);
    case Rollback(id, counter) => RollbackKeeps(s, id, counter);
    case SetCookie(_, _) => OutsideUpdateKeeps(s, step);
    case RegisterWriter(_, _) => OutsideUpdateKeeps(s, step);
  }

  /** What can always happen: a transaction can begin and can roll back, and while no Mutate holds the lock, a writer
      can register exactly when it is new or gives its secret again, and can set its cookie exactly when it
      gives its secret and a cookie that is short enough. */
  lemma OutsideStepsArePossible(s: Ctl, id: nat, req: Request, who: Credentials, cookie: Cookie)
    ensures id !in s.txns && req.batch != [] ==> Next(s, Begin(id, req)).Some?
    ensures id in s.txns ==>
              Next(s, Rollback(id, if s.lock == Some(id) then LastSeq(s.ledger) + 1 else s.counter)).Some?
    ensures s.lock == None ==>
              (Next(s, RegisterWriter(who, cookie)).Some? <==>
               who.writer !in s.mutators || s.mutators[who.writer].secret == who.secret)
    ensures s.lock == None ==>
              (Next(s, SetCookie(who, cookie)).Some? <==>
               && who.writer in s.mutators && s.mutators[who.writer].secret == who.secret
               && |cookie| <= LIMIT_WRITER_COOKIE_SIZE)
  {
  }

  /** The state a replica can rely on: a well-formed ledger that replays to the tables. */
  ghost predicate CtlOk(start: Tables, s: Ctl) {
    Inv(s) && WellFormed(s.ledger) && Replay(start, s.ledger) == Some(s.tables)
  }

  /** The ledger only grows, by one block at a time at its end; and it always replays to the tables. */
  lemma StepKeepsOk(start: Tables, s: Ctl, step: Step)
    requires CtlOk(start, s) && Next(s, step).Some?
    ensures CtlOk(start, Next(s, step).value)
    ensures s.ledger <= Next(s, step).value.ledger
    ensures forall n: nat :: Boundary(Next(s, step).value.ledger, n) <==>
              Boundary(s.ledger, n) || n == |Next(s, step).value.ledger|
  {
    StepKeeps(s, step);
    if step.Commit? {
      var t := s.txns[step.id];
      AppendBlock(s.ledger, t.rows, t.req.batch);
      ReplayConcat(start, s.ledger, t.rows);
      ReplayBlock(s.tables, t.rows, t.req.batch);
    } else {
      assert s.ledger[..|s.ledger|] == s.ledger;
    }
  }

  lemma FlattenOne(bs: seq<seq<LedgerRow>>, b: seq<LedgerRow>)
    ensures Flatten(bs + [b]) == Flatten(bs) + b
  {
    assert (bs + [b])[..|bs|] == bs;
  }

  lemma AddBlock(s: Ctl, ms: seq<Mutation>, m: Mutation, s': Ctl)
    requires OfBlocks(s.ledger, Blocks(ms), Batches(ms))
    requires WellFormed(s'.ledger) && s'.ledger == s.ledger + m.rows && IsBlock(m.rows, m.req.batch)
    ensures OfBlocks(s'.ledger, Blocks(ms + [m]), Batches(ms + [m]))
  {
    assert Blocks(ms + [m]) == Blocks(ms) + [m.rows];
    assert Batches(ms + [m]) == Batches(ms) + [m.req.batch];
    FlattenOne(Blocks(ms), m.rows);
  }

  /** However Mutates interleave, commit and roll back: the committed ledger is the concatenation of one
      block for each committed Mutate, in commit order, with strictly increasing numbers and none
      missing inside a block; and the committed tables are the starting ones after the batches of
      those blocks. */
  lemma {:induction false} LedgerIsBlocks(s: Ctl, steps: seq<Step>)
    requires Init(s) && RunCtl(s, steps).Some?
    ensures
      var s' := RunCtl(s, steps).value;
      var ms := Mutations(s, steps);
      && OfBlocks(s'.ledger, Blocks(ms), Batches(ms))
      && CtlOk(s.tables, s')
  {
    if steps == [] {
      assert Blocks([]) == [] && Batches([]) == [];
    } else {
      var n := |steps| - 1;
      LedgerIsBlocks(s, steps[..n]);
      var mid := RunCtl(s, steps[..n]).value;
      var s' := Next(mid, steps[n]).value;
      StepKeeps(mid, steps[n]);
      StepKeepsOk(s.tables, mid, steps[n]);
      var ms := Mutations(s, steps[..n]);
      if steps[n].Commit? {
        AddBlock(mid, ms, Mutation(mid.txns[steps[n].id].req, mid.txns[steps[n].id].rows), s');
      } else {
        assert Mutations(s, steps) == ms;
      }
    }
  }

  // ---------- cookies ----------

  /** The committed writes of one writer's cookie in a run, in commit order. */
  function WritesOf(s: Ctl, steps: seq<Step>, writer: string): seq<CookieWrite>
    requires RunCtl(s, steps).Some?
  {
    if steps == [] then []
    else
      var n := |steps| - 1;
      WritesOf(s, steps[..n], writer) + WriteOf(RunCtl(s, steps[..n]).value, steps[n], writer)
  }

  function WriteOf(s: Ctl, step: Step, writer: string): seq<CookieWrite>
    requires Next(s, step).Some?
  {
    match step
    case Commit(id) =>
      var req := s.txns[id].req;
      if req.who.writer == writer then [CookieWrite(req.batch, req.check, req.cookie)] else []
    case SetCookie(who, cookie) =>
      if who.writer == writer then [CookieWrite([], None, cookie)] else []
    case _ => []
  }

  /** The cookie that a writer starts from: the one it has, or the token of its first registration. */
  function FirstCookie(s: Ctl, steps: seq<Step>, writer: string): Option<Cookie>
    requires RunCtl(s, steps).Some?
  {
    if writer in s.mutators then Some(s.mutators[writer].cookie)
    else if steps == [] then None
    else
      var n := |steps| - 1;
      match FirstCookie(s, steps[..n], writer)
      case Some(first) => Some(first)
      case None =>
        if steps[n].RegisterWriter? && steps[n].who.writer == writer then Some(steps[n].token) else None
  }

  /** An unregistered writer writes no cookie; only registration brings it in, with its token. */
  lemma OnlyRegistrationAddsAWriter(s: Ctl, step: Step, writer: string)
    requires Inv(s) && Next(s, step).Some? && writer !in s.mutators
    ensures
      var s' := Next(s, step).value;
      && WriteOf(s, step, writer) == []
      && (writer in s'.mutators <==> step.RegisterWriter? && step.who.writer == writer)
      && (writer in s'.mutators ==> s'.mutators[writer].cookie == step.token)
  {
    StepKeeps(s, step);
  }

  lemma StepKeepsCookie(s: Ctl, step: Step, writer: string)
    requires Inv(s) && Next(s, step).Some? && writer in s.mutators
    ensures
      var s' := Next(s, step).value;
      var w := WriteOf(s, step, writer);
      && writer in s'.mutators
      && (w == [] ==> s'.mutators[writer].cookie == s.mutators[writer].cookie)
      && (w != [] ==> (
            && |w| == 1
            && s'.mutators[writer].cookie == w[0].cookie
            && (w[0].check.Some? ==> w[0].check.value == s.mutators[writer].cookie)))
  {
    StepKeeps(s, step);
  }

  /** What is known of a writer's cookie after a run: nothing before the writer exists; from then on its committed
      writes are a chain, and the stored cookie is that of the last of them. */
  ghost predicate CookieOk(s: Ctl, steps: seq<Step>, writer: string)
    requires RunCtl(s, steps).Some?
  {
    var s' := RunCtl(s, steps).value;
    var ws := WritesOf(s, steps, writer);
    match FirstCookie(s, steps, writer)
    case None => writer !in s'.mutators && ws == []
    case Some(first) =>
      && writer in s'.mutators
      && Chained(first, ws)
      && s'.mutators[writer].cookie == CookieBefore(first, ws, |ws|)
  }

  /** In every run, from every state that a run can reach, the committed writes of a writer's cookie form a
      chain: each checked one names the cookie stored by the one before it, the first one the cookie
      that the writer had or registered with. */
  lemma {:induction false} CookiesChain(s: Ctl, steps: seq<Step>, writer: string)
    requires Inv(s) && RunCtl(s, steps).Some?
    ensures Inv(RunCtl(s, steps).value) && CookieOk(s, steps, writer)
  {
    if steps != [] {
      hide Inv, Next, Chained;
      var n := |steps| - 1;
      CookiesChain(s, steps[..n], writer);
      var mid := RunCtl(s, steps[..n]).value;
      StepKeeps(mid, steps[n]);
      if writer in mid.mutators {
        StepKeepsCookie(mid, steps[n], writer);
        var first := FirstCookie(s, steps[..n], writer).value;
        ChainOne(first, WritesOf(s, steps[..n], writer), WriteOf(mid, steps[n], writer));
      } else {
        OnlyRegistrationAddsAWriter(mid, steps[n], writer);
        NoWritesYet(FirstCookie(s, steps, writer));
      }
    }
  }

  lemma NoWritesYet(first: Option<Cookie>)
    ensures first.Some? ==> Chained(first.value, []) && CookieBefore(first.value, [], 0) == first.value
  {
  }

  lemma ChainOne(first: Cookie, ws: seq<CookieWrite>, w: seq<CookieWrite>)
    requires Chained(first, ws) && |w| <= 1
    requires w != [] && w[0].check.Some? ==> w[0].check.value == CookieBefore(first, ws, |ws|)
    ensures Chained(first, ws + w)
  {
    forall i | 0 <= i < |ws + w| && (ws + w)[i].check.Some?
      ensures (ws + w)[i].check.value == CookieBefore(first, ws + w, i)
    {
      assert i <= |ws| && CookieBefore(first, ws + w, i) == CookieBefore(first, ws, i);
    }
  }

  /** A writer that never reuses a cookie, and so may retry a Mutate whose outcome it did not learn, never
      gets one request into the ledger twice. */
  lemma RetriesEnterTheLedgerOnce(s: Ctl, steps: seq<Step>, writer: string)
    requires Inv(s) && RunCtl(s, steps).Some?
    requires match FirstCookie(s, steps, writer) {
               case None => true
               case Some(first) => NeverReuses(first, WritesOf(s, steps, writer))
             }
    ensures
      var ws := WritesOf(s, steps, writer);
      forall i, j :: 0 <= i < j < |ws| ==> ws[i] != ws[j]
  {
    hide Inv;
    CookiesChain(s, steps, writer);
    var ws := WritesOf(s, steps, writer);
    forall i, j | 0 <= i < j < |ws| ensures ws[i] != ws[j] {
      NoRequestTwice(FirstCookie(s, steps, writer).value, ws, i, j);
    }
  }
}
