/** Which of the row changes handed to callbacks have taken effect. The buffer drains at every statement that
    succeeds, also inside an open ledger transaction, and keeps what failed statements have put in it. */
module ChangeEffects {
  import opened Wrappers
  import opened Tables
  import opened Ledger
  import opened LdbWriter
  import opened LdbWriterTheorems
  import opened ChangeFeed

  function CallsOf(hs: seq<Hooked>): seq<Call> {
    seq(|hs|, i requires 0 <= i < |hs| => hs[i].call)
  }

  /** The journal of the writer, with the changes that each statement hooked. */
  datatype Effects = Effects(committed: seq<Hooked>, pending: seq<Hooked>)

  function NoteEffect(j: Effects, h: Hooked, err: Option<ApplyError>): Effects {
    if h.call.CloseCall? || err.Some? then j.(pending := [])
    else
      match h.call.row.stmt
      case TxBegin => j.(pending := [h])
      case TxEnd => Effects(j.committed + (j.pending + [h]), [])
      case Row(_) =>
        if j.pending == [] then j.(committed := j.committed + [h])
        else j.(pending := j.pending + [h])
  }

  function EffectsOf(w: Writer, hs: seq<Hooked>): Effects {
    if hs == [] then Effects([], [])
    else
      var n := |hs| - 1;
      NoteEffect(EffectsOf(w, hs[..n]), hs[n], Step(Run(w, CallsOf(hs[..n])), hs[n].call).1)
  }

  predicate AreApplies(hs: seq<Hooked>) {
    forall i :: 0 <= i < |hs| ==> hs[i].call.ApplyCall?
  }

  function RowsOf(hs: seq<Hooked>): seq<LedgerRow>
    requires AreApplies(hs)
  {
    seq(|hs|, i requires 0 <= i < |hs| => hs[i].call.row)
  }

  lemma CallsOfFront(hs: seq<Hooked>)
    requires hs != []
    ensures CallsOf(hs)[..|hs| - 1] == CallsOf(hs[..|hs| - 1])
    ensures CallsOf(hs) != [] && CallsOf(hs)[|hs| - 1] == hs[|hs| - 1].call
  {
  }

  /** These are the statements of the journal, and the feed's writer is that of the run. */
  lemma {:induction false} EffectsAreTheJournal(w: Writer, hs: seq<Hooked>)
    ensures
      var j := EffectsOf(w, hs);
      && AreApplies(j.committed) && AreApplies(j.pending)
      && JournalOf(w, CallsOf(hs)) == Journal(RowsOf(j.committed), RowsOf(j.pending))
    ensures RunFeed(Feed(w, [], []), hs).writer == Run(w, CallsOf(hs))
  {
    if hs == [] {
      assert CallsOf([]) == [] && RowsOf([]) == [];
    } else {
      hide Step, NoteEffect, Note, RowsOf, CallsOf;
      var n := |hs| - 1;
      EffectsAreTheJournal(w, hs[..n]);
      CallsOfFront(hs);
      NoteIsNote(EffectsOf(w, hs[..n]), hs[n], Step(Run(w, CallsOf(hs[..n])), hs[n].call).1);
    }
  }

  lemma NoteIsNote(j: Effects, h: Hooked, err: Option<ApplyError>)
    requires AreApplies(j.committed) && AreApplies(j.pending)
    ensures
      var j' := NoteEffect(j, h, err);
      && AreApplies(j'.committed) && AreApplies(j'.pending)
      && Note(Journal(RowsOf(j.committed), RowsOf(j.pending)), h.call, err) ==
         Journal(RowsOf(j'.committed), RowsOf(j'.pending))
  {
    if h.call.ApplyCall? {
      var row := h.call.row;
      assert RowsOf(j.committed + [h]) == RowsOf(j.committed) + [row];
      assert RowsOf(j.pending + [h]) == RowsOf(j.pending) + [row];
      assert RowsOf(j.committed + (j.pending + [h])) == RowsOf(j.committed) + (RowsOf(j.pending) + [row]);
      assert RowsOf([h]) == [row];
    }
  }

  lemma {:induction false} HookedBoth(a: seq<Hooked>, b: seq<Hooked>)
    ensures AllHooked(a + b) == AllHooked(a) + AllHooked(b)
  {
    if b == [] {
      assert a + b == a;
    } else {
      var n := |b| - 1;
      assert (a + b)[..|a + b| - 1] == a + b[..n];
      HookedBoth(a, b[..n]);
    }
  }

  /** No call has undone changes that were already handed over, by failing or closing in a ledger transaction, and
      none has succeeded while the changes of a failed one were waiting in the buffer. */
  ghost predicate NothingUndone(w: Writer, hs: seq<Hooked>) {
    hs == [] ||
    var n := |hs| - 1;
    && NothingUndone(w, hs[..n])
    && if hs[n].call.CloseCall? || Step(Run(w, CallsOf(hs[..n])), hs[n].call).1.Some?
       then AllHooked(EffectsOf(w, hs[..n]).pending) == []
       else RunFeed(Feed(w, [], []), hs[..n]).buffer == []
  }

  /** The changes of the statements that have taken effect, or will with the open ledger transaction. */
  function Effective(w: Writer, hs: seq<Hooked>): seq<Change> {
    AllHooked(EffectsOf(w, hs).committed + EffectsOf(w, hs).pending)
  }

  /** A BEGIN succeeds only outside a ledger transaction, when nothing is pending. */
  lemma BeginFindsNothingPending(w: Writer, hs: seq<Hooked>, row: LedgerRow, fault: ApplyFault)
    requires w.tx.NoTx? && row.stmt.TxBegin? && Apply(Run(w, CallsOf(hs)), row, fault).1.None?
    ensures EffectsOf(w, hs).pending == []
  {
    assert Run(w, CallsOf(hs)).tx.NoTx?;
    hide Apply, Run, JournalOf, EffectsOf;
    JournalExplainsRun(w, CallsOf(hs));
    EffectsAreTheJournal(w, hs);
    assert |JournalOf(w, CallsOf(hs)).pending| == |EffectsOf(w, hs).pending|;
  }

  lemma NoteOneMore(j: Effects, h: Hooked)
    requires h.call.ApplyCall? && (h.call.row.stmt.TxBegin? ==> j.pending == [])
    ensures NoteEffect(j, h, None).committed + NoteEffect(j, h, None).pending == j.committed + j.pending + [h]
  {
    assert j.committed + (j.pending + [h]) == j.committed + j.pending + [h];
    assert j.committed + [] == j.committed;
  }

  /** How one more call moves the changes in effect. */
  lemma EffectiveOneMore(w: Writer, hs: seq<Hooked>)
    requires w.tx.NoTx? && hs != []
    ensures
      var n := |hs| - 1;
      var before := EffectsOf(w, hs[..n]);
      && Effective(w, hs[..n]) == AllHooked(before.committed) + AllHooked(before.pending)
      && Effective(w, hs) ==
         if hs[n].call.CloseCall? || Step(Run(w, CallsOf(hs[..n])), hs[n].call).1.Some? then AllHooked(before.committed)
         else Effective(w, hs[..n]) + hs[n].changes
  {
    hide Apply, Run, JournalOf, AllHooked;
    var n := |hs| - 1;
    var h, j := hs[n], EffectsOf(w, hs[..n]);
    assert EffectsOf(w, hs) == NoteEffect(j, h, Step(Run(w, CallsOf(hs[..n])), h.call).1);
    HookedBoth(j.committed, j.pending);
    if h.call.CloseCall? || Step(Run(w, CallsOf(hs[..n])), h.call).1.Some? {
      assert j.committed + [] == j.committed;
    } else {
      if h.call.row.stmt.TxBegin? {
        BeginFindsNothingPending(w, hs[..n], h.call.row, h.call.fault);
      }
      NoteOneMore(j, h);
      HookedBoth(j.committed + j.pending, [h]);
      OneHooked(h);
    }
  }

  lemma OneHooked(h: Hooked)
    ensures AllHooked([h]) == h.changes
  {
    assert [h][..0] == [];
    assert AllHooked([]) == [];
  }

  /** What the callbacks have been handed is exactly the changes in effect, if and only if nothing was undone; and
      if something was, they have been handed more than that. */
  lemma {:induction false} HandedAreEffectiveExactlyWhen(w: Writer, hs: seq<Hooked>)
    requires w.tx.NoTx?
    ensures RunFeed(Feed(w, [], []), hs).handed == Effective(w, hs) <==> NothingUndone(w, hs)
    ensures |RunFeed(Feed(w, [], []), hs).handed| >= |Effective(w, hs)|
    ensures !NothingUndone(w, hs) ==> |RunFeed(Feed(w, [], []), hs).handed| > |Effective(w, hs)|
  {
    hide Effective, Step, Run;
    if hs == [] {
      NoneEffective(w);
    } else {
      var n := |hs| - 1;
      HandedAreEffectiveExactlyWhen(w, hs[..n]);
      EffectiveOneMore(w, hs);
      EffectsAreTheJournal(w, hs[..n]);
    }
  }

  /** Something can be undone: a BEGIN hooks a change, which is handed over at once, and then the shovel closes. The
      callbacks have been handed a change that never took effect. */
  lemma AChangeHandedOverAndUndone(w: Writer, c: Change)
    requires w.tx.NoTx?
    ensures
      var hs := [Hooked(ApplyCall(LedgerRow(FetchSeq(w.db) + 1, 0, TxBegin), NoFault), [c])] + [Hooked(CloseCall, [])];
      && RunFeed(Feed(w, [], []), hs).handed == [c]
      && Effective(w, hs) == [] && !NothingUndone(w, hs)
      && Run(w, CallsOf(hs)).db == w.db
  {
    var begin := Hooked(ApplyCall(LedgerRow(FetchSeq(w.db) + 1, 0, TxBegin), NoFault), [c]);
    var close := Hooked(CloseCall, []);
    var hs := [begin] + [close];
    var view := Ldb(w.db.tables, Some(FetchSeq(w.db) + 1), Some(0));
    assert hs[..1] == [begin] && [begin][..0] == [];
    assert RunFeed(Feed(w, [], []), []) == Feed(w, [], []);
    assert Step(w, begin.call) == (Writer(w.db, Live(view)), None);
    assert RunFeed(Feed(w, [], []), [begin]) == Feed(Writer(w.db, Live(view)), [c], []);
    EffectsAreTheJournal(w, hs);
    assert EffectsOf(w, hs).pending == [];
    assert CallsOf([]) == [] && Run(w, CallsOf([])) == w;
    assert EffectsOf(w, []) == Effects([], []);
    assert EffectsOf(w, [begin]) == Effects([], [begin]);
    assert EffectsOf(w, hs) == Effects([], []);
    HandedAreEffectiveExactlyWhen(w, hs);
  }

  lemma NoneEffective(w: Writer)
    ensures Effective(w, []) == []
  {
  }
}
