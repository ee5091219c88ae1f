/** From applied statements to changelog events: SQLite reports row changes into a buffer, a successful
    apply hands them to the callbacks, one callback numbers and writes one entry for each changed
    key, and the iterator at the far end detects missing numbers. */
module ChangeFeed {
  import opened Wrappers
  import opened Tables
  import opened Ledger
  import opened LdbWriter
  import opened LdbWriterTheorems
  import opened Names

  /** A row change reported by the pre-update hook: its table, and the keys of the old and new row as far
      as they can be extracted. */
  datatype Change = Change(table: string, keys: Option<seq<seq<Value>>>)

  datatype Entry = Entry(seqNo: int, family: string, table: string, key: seq<Value>)

  class SQLChangeBuffer {
    var changes: seq<Change>

    constructor ()
      ensures changes == []
    {
      changes := [];
    }

    method Add(change: Change)
      modifies this
      ensures changes == old(changes) + [change]
    {
      changes := changes + [change];
    }

    method Pop() returns (res: seq<Change>)
      modifies this
      ensures res == old(changes) && changes == []
    {
      res := changes;
      changes := [];
    }
  }

  /** The entries for these changes, numbered after seqNo: one per key of each change whose table
      name decodes and whose keys are known. */
  function Entries(seqNo: int, changes: seq<Change>): seq<Entry> {
    if changes == [] then []
    else
      var before := Entries(seqNo, changes[..|changes| - 1]);
      before + EntriesOf(seqNo + |before|, changes[|changes| - 1])
  }

  function EntriesOf(seqNo: int, c: Change): seq<Entry> {
    match DecodeLDBTableName(c.table)
    case Err(_) => []
    case Ok((family, table)) =>
      if c.keys.None? then [] else NumberKeys(seqNo, family, table, c.keys.value)
  }

  function NumberKeys(seqNo: int, family: string, table: string, keys: seq<seq<Value>>): (es: seq<Entry>)
    ensures |es| == |keys|
  {
    seq(|keys|, i requires 0 <= i < |keys| => Entry(seqNo + i + 1, family, table, keys[i]))
  }

  /** What a callback has done: the last number used, every entry numbered so far, and those that the log writer
      accepted. */
  datatype Emitter = Emitter(seqNo: int, emitted: seq<Entry>, written: seq<Entry>)

  /** The callback after it has been handed these changes, when the writes of some numbers fail. */
  function Handed(st: Emitter, changes: seq<Change>, fails: set<int>): Emitter {
    var es := Entries(st.seqNo, changes);
    Emitter(st.seqNo + |es|, st.emitted + es, st.written + Surviving(es, fails))
  }

  /** The entries whose write does not fail. */
  function Surviving(es: seq<Entry>, fails: set<int>): seq<Entry> {
    if es == [] then []
    else
      var n := |es| - 1;
      Surviving(es[..n], fails) + (if es[n].seqNo in fails then [] else [es[n]])
  }

  lemma {:induction false} SurvivingOfTwo(a: seq<Entry>, b: seq<Entry>, fails: set<int>)
    ensures Surviving(a + b, fails) == Surviving(a, fails) + Surviving(b, fails)
  {
    if b == [] {
      assert a + b == a;
    } else {
      var n := |b| - 1;
      assert (a + b)[..|a + b| - 1] == a + b[..n];
      SurvivingOfTwo(a, b[..n], fails);
    }
  }

  /** Everything one callback has emitted: entry k carries number k + 1. */
  ghost predicate Numbered(es: seq<Entry>) {
    forall i :: 0 <= i < |es| ==> es[i].seqNo == i + 1
  }

  /** delivered[i] is entry at[i], and the positions climb: an in-order subsequence. */
  ghost predicate Delivers(es: seq<Entry>, at: seq<int>, delivered: seq<Entry>) {
    && |at| == |delivered|
    && (forall i :: 0 <= i < |at| ==> 0 <= at[i] < |es| && delivered[i] == es[at[i]])
    && (forall i, j :: 0 <= i < j < |at| ==> at[i] < at[j])
  }

  /** The numbers are used up one by one, and what was written is an in-order part of what was numbered. */
  ghost predicate EmitterOk(st: Emitter) {
    && Numbered(st.emitted) && st.seqNo == |st.emitted|
    && exists at :: Delivers(st.emitted, at, st.written)
  }

  lemma {:induction false} EntriesAreNumbered(changes: seq<Change>, from: int)
    ensures forall i :: 0 <= i < |Entries(from, changes)| ==> Entries(from, changes)[i].seqNo == from + i + 1
  {
    if changes != [] {
      EntriesAreNumbered(changes[..|changes| - 1], from);
    }
  }

  /** Which entry each key gets: in order of changes and keys, with the next number, and the family and table that the
      changed LDB table stands for. */
  lemma EveryKeyGetsItsEntry(changes: seq<Change>, from: int, i: nat, j: nat, family: string, table: string)
    requires i < |changes| && changes[i].keys.Some? && j < |changes[i].keys.value|
    requires IsFamily(family) && IsTable(table) && family[|family| - 1] != '_'
    requires changes[i].table == LDBTableName(family, table)
    ensures
      var at := |Entries(from, changes[..i])| + j;
      && at < |Entries(from, changes)|
      && Entries(from, changes)[at] == Entry(from + at + 1, family, table, changes[i].keys.value[j])
  {
    hide *;
    var base := |Entries(from, changes[..i])|;
    EntriesOneMore(from, changes, i);
    EntriesGrow(from, changes, i + 1);
    EntryOfKey(from + base, changes[i], j, family, table);
    assert Entries(from, changes)[base + j] == Entries(from, changes[..i + 1])[base + j];
  }

  lemma EntriesOneMore(from: int, changes: seq<Change>, i: nat)
    requires i < |changes|
    ensures Entries(from, changes[..i + 1]) ==
            Entries(from, changes[..i]) + EntriesOf(from + |Entries(from, changes[..i])|, changes[i])
  {
    hide EntriesOf;
    assert changes[..i + 1][..i] == changes[..i];
  }

  lemma EntryOfKey(base: int, c: Change, j: nat, family: string, table: string)
    requires c.keys.Some? && j < |c.keys.value| && c.table == LDBTableName(family, table)
    requires IsFamily(family) && IsTable(table) && family[|family| - 1] != '_'
    ensures j < |EntriesOf(base, c)| && EntriesOf(base, c)[j] == Entry(base + j + 1, family, table, c.keys.value[j])
  {
    DecodeInvertsEncode(family, table);
    hide DecodeLDBTableName, IsFamily, IsTable, LDBTableName;
  }

  /** A change without known keys, or to a table whose name does not decode, gets none. */
  lemma OtherChangesGetNoEntry(changes: seq<Change>, from: int, i: nat)
    requires i < |changes| && (changes[i].keys.None? || DecodeLDBTableName(changes[i].table).Err?)
    ensures Entries(from, changes[..i + 1]) == Entries(from, changes[..i])
  {
    hide DecodeLDBTableName;
    assert changes[..i + 1][..i] == changes[..i];
  }

  lemma {:induction false} EntriesGrow(from: int, changes: seq<Change>, i: nat)
    requires i <= |changes|
    ensures Entries(from, changes[..i]) <= Entries(from, changes)
    decreases |changes| - i
  {
    hide EntriesOf;
    if i == |changes| {
      assert changes[..i] == changes;
    } else {
      EntriesGrow(from, changes, i + 1);
      assert changes[..i + 1][..i] == changes[..i];
    }
  }

  /** The entries whose write does not fail are an in-order delivery of all of them, which leaves out exactly
      those whose write fails. */
  lemma SurvivingDelivers(es: seq<Entry>, fails: set<int>) returns (at: seq<int>)
    ensures Delivers(es, at, Surviving(es, fails))
    ensures forall k :: 0 <= k < |es| ==> (k in at <==> es[k].seqNo !in fails)
  {
    at := SurvivingAt(es, fails);
    SurvivingAtDelivers(es, fails);
    forall k | 0 <= k < |es| ensures k in at <==> es[k].seqNo !in fails {
      SurvivingAtHas(es, fails, k);
    }
  }

  /** Where the surviving entries are. */
  function SurvivingAt(es: seq<Entry>, fails: set<int>): seq<int> {
    if es == [] then []
    else
      var n := |es| - 1;
      SurvivingAt(es[..n], fails) + (if es[n].seqNo in fails then [] else [n])
  }

  lemma {:induction false} SurvivingAtDelivers(es: seq<Entry>, fails: set<int>)
    ensures Delivers(es, SurvivingAt(es, fails), Surviving(es, fails))
  {
    if es != [] {
      var n := |es| - 1;
      SurvivingAtDelivers(es[..n], fails);
      OneMoreDelivered(es, SurvivingAt(es[..n], fails), Surviving(es[..n], fails));
    }
  }

  lemma OneMoreDelivered(es: seq<Entry>, at: seq<int>, delivered: seq<Entry>)
    requires es != [] && Delivers(es[..|es| - 1], at, delivered)
    ensures Delivers(es, at, delivered)
    ensures Delivers(es, at + [|es| - 1], delivered + [es[|es| - 1]])
  {
    forall i | 0 <= i < |at| ensures 0 <= at[i] < |es| - 1 && delivered[i] == es[at[i]] {
      assert es[..|es| - 1][at[i]] == es[at[i]];
    }
  }

  lemma {:induction false} SurvivingAtHas(es: seq<Entry>, fails: set<int>, k: int)
    ensures k in SurvivingAt(es, fails) <==> 0 <= k < |es| && es[k].seqNo !in fails
  {
    if es != [] {
      var n := |es| - 1;
      SurvivingAtHas(es[..n], fails, k);
      assert 0 <= k < n ==> es[..n][k] == es[k];
    }
  }

  lemma DeliversBoth(a: seq<Entry>, atA: seq<int>, ra: seq<Entry>, b: seq<Entry>, atB: seq<int>, rb: seq<Entry>)
    requires Delivers(a, atA, ra) && Delivers(b, atB, rb)
    ensures Delivers(a + b, atA + seq(|atB|, i requires 0 <= i < |atB| => |a| + atB[i]), ra + rb)
  {
  }

  lemma HandedIsOk(st: Emitter, changes: seq<Change>, fails: set<int>)
    requires EmitterOk(st)
    ensures EmitterOk(Handed(st, changes, fails))
  {
    hide Entries, Surviving;
    var es := Entries(st.seqNo, changes);
    EntriesAreNumbered(changes, st.seqNo);
    var before :| Delivers(st.emitted, before, st.written);
    var at := SurvivingDelivers(es, fails);
    DeliversBoth(st.emitted, before, st.written, es, at, Surviving(es, fails));
  }

  class ChangelogCallback {
    var seqNo: int
    var emitted: seq<Entry>  // every numbered entry, in order
    var written: seq<Entry>  // those that the log writer accepted

    function State(): Emitter
      reads this
    {
      Emitter(seqNo, emitted, written)
    }

    ghost predicate Valid()
      reads this
    {
      EmitterOk(State())
    }

    constructor ()
      ensures State() == Emitter(0, [], []) && Valid()
    {
      seqNo, emitted, written := 0, [], [];
      new;
      assert Delivers([], [], []);
    }

    /** The inner loop: a failed write skips the entry but keeps its number. */
    method WriteKeys(family: string, table: string, keys: seq<seq<Value>>, fails: set<int>)
      modifies this
      ensures
        var es := NumberKeys(old(seqNo), family, table, keys);
        State() == Emitter(old(seqNo) + |es|, old(emitted) + es, old(written) + Surviving(es, fails))
    {
      ghost var start, all := seqNo, NumberKeys(seqNo, family, table, keys);
      for i := 0 to |keys|
        invariant seqNo == start + i
        invariant emitted == old(emitted) + all[..i]
        invariant written == old(written) + Surviving(all[..i], fails)
      {
        seqNo := seqNo + 1;
        var entry := Entry(seqNo, family, table, keys[i]);
        assert all[..i + 1] == all[..i] + [entry];
        assert all[..i + 1][..i] == all[..i];
        emitted := emitted + [entry];
        if entry.seqNo !in fails {
          written := written + [entry];
        }
      }
      assert all[..|keys|] == all;
    }

    /** A change whose table name does not decode, such as one to the LDB's own tables, or whose keys
        cannot be extracted, is passed over. */
    method WriteChange(change: Change, fails: set<int>)
      modifies this
      ensures
        var es := EntriesOf(old(seqNo), change);
        State() == Emitter(old(seqNo) + |es|, old(emitted) + es, old(written) + Surviving(es, fails))
    {
      var decoded := DecodeLDBTableName(change.table);
      if decoded.Ok? && change.keys.Some? {
        WriteKeys(decoded.value.0, decoded.value.1, change.keys.value, fails);
      } else {
        assert emitted + [] == emitted && written + [] == written;
      }
    }

    method LDBWritten(changes: seq<Change>, fails: set<int>)
      requires Valid()
      modifies this
      ensures Valid() && State() == Handed(old(State()), changes, fails)
    {
      hide EntriesOf, DecodeLDBTableName, EmitterOk;
      ghost var start := seqNo;
      for i := 0 to |changes|
        invariant State() == Handed(old(State()), changes[..i], fails)
      {
        assert changes[..i + 1][..i] == changes[..i];
        SurvivingOfTwo(Entries(start, changes[..i]), EntriesOf(seqNo, changes[i]), fails);
        WriteChange(changes[i], fails);
      }
      assert changes[..|changes|] == changes;
      HandedIsOk(old(State()), changes, fails);
    }
  }

  class CallbackWriter {
    const delegate: SqlLdbWriter
    const callbacks: seq<ChangelogCallback>
    const buffer: SQLChangeBuffer

    ghost predicate Valid()
      reads this, delegate, delegate.db, callbacks
    {
      && delegate.Valid()
      && (forall c :: c in callbacks ==> c.Valid())
      && (forall i, j :: 0 <= i < j < |callbacks| ==> callbacks[i] != callbacks[j])
    }

    constructor (delegate: SqlLdbWriter, callbacks: seq<ChangelogCallback>, buffer: SQLChangeBuffer)
      ensures this.delegate == delegate && this.callbacks == callbacks && this.buffer == buffer
    {
      this.delegate, this.callbacks, this.buffer := delegate, callbacks, buffer;
    }

    /** The delegate's call may report changes (hooked) whether it succeeds or not; only a success
        drains the buffer, and then every callback gets all of what was in it. */
    method ApplyDMLStatement(row: LedgerRow, fault: ApplyFault, hooked: seq<Change>, fails: seq<set<int>>)
      returns (err: Option<ApplyError>)
      requires Valid() && |fails| == |callbacks|
      modifies delegate, delegate.db, callbacks, buffer
      ensures Valid()
      ensures (delegate.State(), err) == Apply(old(delegate.State()), row, fault)
      ensures buffer.changes == if err.Some? then old(buffer.changes) + hooked else []
      ensures forall i :: 0 <= i < |callbacks| ==>
                callbacks[i].State() ==
                if err.Some? then old(callbacks[i].State())
                else Handed(old(callbacks[i].State()), old(buffer.changes) + hooked, fails[i])
    {
      hide EmitterOk, Apply, Handed;
      err := delegate.ApplyDMLStatement(row, fault);
      for i := 0 to |hooked|
        invariant Valid() && (delegate.State(), err) == Apply(old(delegate.State()), row, fault)
        invariant buffer.changes == old(buffer.changes) + hooked[..i]
        invariant forall c :: c in callbacks ==> c.State() == old(c.State())
      {
        buffer.Add(hooked[i]);
      }
      assert hooked[..|hooked|] == hooked;
      if err.Some? {
        return err;
      }
      var changes := buffer.Pop();
      for i := 0 to |callbacks|
        invariant Valid() && (delegate.State(), err) == Apply(old(delegate.State()), row, fault)
        invariant buffer.changes == []
        invariant forall k :: 0 <= k < i ==>
                    callbacks[k].State() == Handed(old(callbacks[k].State()), changes, fails[k])
        invariant forall k :: i <= k < |callbacks| ==> callbacks[k].State() == old(callbacks[k].State())
      {
        callbacks[i].LDBWritten(changes, fails[i]);
      }
    }
  }

  // ---------- conservation ----------

  /** One call on the writer together with the changes hooked during it. The buffer outlives the writer:
      it is shared by every shovel of the process. */
  datatype Hooked = Hooked(call: Call, changes: seq<Change>)

  datatype Feed = Feed(writer: Writer, handed: seq<Change>, buffer: seq<Change>)

  function FeedStep(f: Feed, h: Hooked): Feed {
    var (w, err) := Step(f.writer, h.call);
    var pending := f.buffer + h.changes;
    if h.call.CloseCall? || err.Some? then Feed(w, f.handed, pending) else Feed(w, f.handed + pending, [])
  }

  function RunFeed(f: Feed, hs: seq<Hooked>): Feed {
    if hs == [] then f else FeedStep(RunFeed(f, hs[..|hs| - 1]), hs[|hs| - 1])
  }

  function AllHooked(hs: seq<Hooked>): seq<Change> {
    if hs == [] then [] else AllHooked(hs[..|hs| - 1]) + hs[|hs| - 1].changes
  }

  /** Over any calls, succeeding or failing, across shovel restarts: what was handed over followed by the buffer
      is everything hooked, in order, each once; and when a call has changed the committed LDB,
      nothing is left in the buffer, so every change of that transaction has been handed over. */
  lemma {:induction false} ChangesAreConserved(w: Writer, hs: seq<Hooked>)
    ensures
      var now := RunFeed(Feed(w, [], []), hs);
      && now.handed + now.buffer == AllHooked(hs)
      && (hs != [] && now.writer.db != RunFeed(Feed(w, [], []), hs[..|hs| - 1]).writer.db ==>
            now.handed == AllHooked(hs))
  {
    if hs != [] {
      var n := |hs| - 1;
      ChangesAreConserved(w, hs[..n]);
      var f := RunFeed(Feed(w, [], []), hs[..n]);
      assert f.handed + (f.buffer + hs[n].changes) == (f.handed + f.buffer) + hs[n].changes;
      if hs[n].call.ApplyCall? && Step(f.writer, hs[n].call).1.Some? {
        FailureKeepsDb(f.writer, hs[n].call.row, hs[n].call.fault);
      }
      var f' := FeedStep(f, hs[n]);
      assert f'.buffer == [] ==> f'.handed + f'.buffer == f'.handed;
    }
  }

  // ---------- the iterator ----------

  /** Whether this event does not follow on from the one before it. */
  predicate OutOfSync(previous: Option<int>, event: Entry) {
    previous.Some? && previous.value != event.seqNo - 1
  }

  class Iterator {
    var previous: Option<int>

    constructor ()
      ensures previous == None
    {
      previous := None;
    }

    /** Whether Next returns ErrOutOfSync with this event. */
    method Next(event: Entry) returns (outOfSync: bool)
      modifies this
      ensures previous == Some(event.seqNo)
      ensures outOfSync <==> OutOfSync(old(previous), event)
    {
      var before := previous;
      previous := Some(event.seqNo);
      outOfSync := before.Some? && before.value != event.seqNo - 1;
    }
  }

  /** Next reports ErrOutOfSync with the i-th event: it remembers the number of the one before. */
  predicate Flagged(delivered: seq<Entry>, i: nat)
    requires i < |delivered|
  {
    OutOfSync(if i == 0 then None else Some(delivered[i - 1].seqNo), delivered[i])
  }

  /** Next reports ErrOutOfSync at exactly the events, other than the first, whose predecessor among
      the entries was not delivered at all. */
  lemma FlagsExactlyGaps(es: seq<Entry>, at: seq<int>, delivered: seq<Entry>, i: nat)
    requires Numbered(es) && Delivers(es, at, delivered) && 0 < i < |delivered|
    ensures at[i] > 0
    ensures Flagged(delivered, i) <==> at[i] - 1 !in at
  {
    assert 0 <= at[i - 1] < at[i];
    if at[i] - 1 in at {
      var j :| 0 <= j < |at| && at[j] == at[i] - 1;
      assert j == i - 1;
    }
  }

  /** A stretch without a flag is a stretch of the entries without a gap. */
  lemma {:induction false} UnflaggedIsGapFree(es: seq<Entry>, at: seq<int>, delivered: seq<Entry>, a: nat, b: nat)
    requires Numbered(es) && Delivers(es, at, delivered) && a < b <= |delivered|
    requires forall i :: a < i < b ==> !Flagged(delivered, i)
    ensures at[a] + (b - a) <= |es|
    ensures delivered[a..b] == es[at[a]..at[a] + (b - a)]
    decreases b
  {
    if b == a + 1 {
      assert delivered[a..b] == [delivered[a]];
    } else {
      UnflaggedIsGapFree(es, at, delivered, a, b - 1);
      var k := at[a] + (b - 1 - a);
      assert !Flagged(delivered, b - 1);
      assert es[k - 1] == delivered[a..b - 1][b - 2 - a] == delivered[b - 2];
      assert at[b - 1] == at[b - 2] + 1;
      assert delivered[a..b] == delivered[a..b - 1] + [delivered[b - 1]];
    }
  }
}
