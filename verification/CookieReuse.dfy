/** Why a writer must not reuse even its first cookie: a run that commits one request twice. */
module CookieReuse {
  import opened Wrappers
  import opened Tables
  import opened Mutators
  import opened Interleaving
  import opened InterleavingTheorems
  import opened SoloMutates
  import opened TableEffects

  /** Whether a statement is an SQL error depends on the columns of its table, not on the rows. */
  lemma ExecAgain(tables: Tables, d: Dml)
    requires Exec(tables, d).Some?
    ensures Exec(Exec(tables, d).value, d).Some?
  {
  }

  /** A request that goes on from one cookie to another. */
  function Go(first: Cookie, other: Cookie, d: Dml): CookieWrite {
    CookieWrite([d], Some(first), other)
  }

  lemma There(s: Ctl, who: Credentials, other: Cookie, d: Dml) returns (steps: seq<Step>)
    requires s.lock == None && 0 !in s.txns && Get(s.mutators, who).Some? && Exec(s.tables, d).Some?
    requires |other| <= LIMIT_WRITER_COOKIE_SIZE && |Get(s.mutators, who).value| <= LIMIT_WRITER_COOKIE_SIZE
    ensures RunCtl(s, steps).Some?
    ensures WritesOf(s, steps, who.writer) == [Go(Get(s.mutators, who).value, other, d)]
    ensures
      var s' := RunCtl(s, steps).value;
      && s'.lock == None && s'.txns == s.txns && Exec(s'.tables, d).Some?
      && Get(s'.mutators, who) == Some(other)
  {
    var req := Request(who, other, Get(s.mutators, who), [d]);
    ExecAgain(s.tables, d);
    assert [] + [d] == [d];
    NothingRuns(s.tables);
    ExecAllOneMore(s.tables, [], d);
    hide Exec, ExecAll;
    var rows := Update(s.mutators, who, other, req.check).value;
    steps := SoloCommits(s, 0, req, Exec(s.tables, d).value, rows, 0);
  }

  /** That a writer never stores the cookie it started from is needed: a writer that otherwise keeps to the
      rules, but returns to that cookie, gets one request into the ledger twice. From any idle
      state that knows the writer and can execute the statement there is a run that does it. */
  lemma FirstCookieReusedCommitsTwice(s: Ctl, who: Credentials, other: Cookie, d: Dml) returns (steps: seq<Step>)
    requires s.lock == None && s.txns == map[] && Get(s.mutators, who).Some? && Exec(s.tables, d).Some?
    requires |other| <= LIMIT_WRITER_COOKIE_SIZE && |Get(s.mutators, who).value| <= LIMIT_WRITER_COOKIE_SIZE
    requires other != Get(s.mutators, who).value
    ensures RunCtl(s, steps).Some? && OneRequestPerCookie(WritesOf(s, steps, who.writer))
    ensures
      var first := Get(s.mutators, who).value;
      WritesOf(s, steps, who.writer) ==
      [Go(first, other, d), Go(other, first, d), Go(first, other, d), Go(other, first, d)]
  {
    hide Exec, RunCtl, WritesOf;
    var first := Get(s.mutators, who).value;
    var a := There(s, who, other, d);
    var b := There(RunCtl(s, a).value, who, first, d);
    RunTwo(s, a, b, who.writer);
    var c := There(RunCtl(s, a + b).value, who, other, d);
    RunTwo(s, a + b, c, who.writer);
    var e := There(RunCtl(s, a + b + c).value, who, first, d);
    RunTwo(s, a + b + c, e, who.writer);
    steps := a + b + c + e;
  }
}
