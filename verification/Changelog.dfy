/** The changelog end to end: a callback numbers row changes, the log writer keeps them in a file that starts over
    when it is full, the reader puts the lines back together, and the iterator looks for gaps. */
module Changelog {
  import opened Wrappers
  import opened LogWriter
  import opened LineReader
  import opened ChangeFeed

  /** The JSON encoding of an entry, which has no newline in it, and the reader's decoding of a line. */
  ghost predicate Codec(enc: Entry -> string, dec: string -> Option<Entry>) {
    forall e :: '\n' !in enc(e) && dec(enc(e) + "\n") == Some(e)
  }

  function EncodedAll(enc: Entry -> string, es: seq<Entry>): seq<string> {
    seq(|es|, i requires 0 <= i < |es| => enc(es[i]))
  }

  /** The numbers of the entries that the log writer refuses because their line is too long. */
  ghost predicate TooLong(rotateSize: int, enc: Entry -> string, es: seq<Entry>, lost: set<int>) {
    forall i :: 0 <= i < |es| ==> (es[i].seqNo in lost <==> |enc(es[i])| > rotateSize)
  }

  /** What the callback counts as written is what the log writer accepts. */
  lemma {:induction false} AcceptedAreSurviving(rotateSize: int, enc: Entry -> string, dec: string -> Option<Entry>,
      es: seq<Entry>, lost: set<int>)
    requires Codec(enc, dec) && TooLong(rotateSize, enc, es, lost)
    ensures AcceptedOf(rotateSize, EncodedAll(enc, es)) == EncodedAll(enc, Surviving(es, lost))
  {
    if es != [] {
      var n := |es| - 1;
      assert forall i :: 0 <= i < n ==> es[..n][i] == es[i];
      AcceptedAreSurviving(rotateSize, enc, dec, es[..n], lost);
      assert EncodedAll(enc, es)[..n] == EncodedAll(enc, es[..n]);
      var before := Surviving(es[..n], lost);
      assert EncodedAll(enc, before + [es[n]]) == EncodedAll(enc, before) + [enc(es[n])];
    }
  }

  /** Leaving out the first k deliveries keeps a delivery; an entry after the first one that is left is delivered
      exactly when it was before. */
  lemma LaterDeliveries(es: seq<Entry>, at: seq<int>, delivered: seq<Entry>, k: nat, i: nat)
    requires Delivers(es, at, delivered) && 0 < i && k + i < |delivered|
    ensures Delivers(es, at[k..], delivered[k..])
    ensures at[k..][i] - 1 in at[k..] <==> at[k + i] - 1 in at
  {
    assert at[k..][i] == at[k + i] && at[k..][i - 1] == at[k + i - 1];
    if at[k + i] - 1 in at {
      var j :| 0 <= j < |at| && at[j] == at[k + i] - 1;
      assert j == k + i - 1;
    }
  }

  /** A callback after any number of calls, one for each statement applied; lost holds the numbers whose write
      fails. */
  function RunCallback(batches: seq<seq<Change>>, lost: set<int>): Emitter {
    if batches == [] then Emitter(0, [], [])
    else Handed(RunCallback(batches[..|batches| - 1], lost), batches[|batches| - 1], lost)
  }

  lemma {:induction false} CallbackNumbersOn(batches: seq<seq<Change>>, lost: set<int>)
    ensures
      var st := RunCallback(batches, lost);
      Numbered(st.emitted) && st.seqNo == |st.emitted| && st.written == Surviving(st.emitted, lost)
  {
    hide Entries, Surviving;
    if batches == [] {
      assert Surviving([], lost) == [] by { SurvivingNone(lost); }
    } else {
      var n := |batches| - 1;
      CallbackNumbersOn(batches[..n], lost);
      var st := RunCallback(batches[..n], lost);
      EntriesAreNumbered(batches[n], st.seqNo);
      SurvivingOfTwo(st.emitted, Entries(st.seqNo, batches[n]), lost);
    }
  }

  lemma SurvivingNone(lost: set<int>)
    ensures Surviving([], lost) == []
  {
  }

  /** A reader that opens the log of a callback after any number of calls, and reads it in any stretches, gets an
      in-order part of the callback's entries: all of its last ones but those too long for the log. The
      iterator reports ErrOutOfSync at exactly the events, other than the first, whose predecessor was too
      long; rotation alone never makes a gap within what one reader sees. */
  lemma FlagsExactlyTheTooLong(
      rotateSize: int, enc: Entry -> string, dec: string -> Option<Entry>, batches: seq<seq<Change>>, lost: set<int>,
      chunks: seq<string>)
    returns (at: seq<int>, delivered: seq<Entry>)
    requires Codec(enc, dec) && TooLong(rotateSize, enc, RunCallback(batches, lost).emitted, lost)
    requires Concat(chunks) == RunLog(rotateSize, EncodedAll(enc, RunCallback(batches, lost).emitted))
    ensures
      var (lines, buffer) := ReadAll(chunks);
      && buffer == "" && |lines| == |delivered|
      && forall i :: 0 <= i < |lines| ==> dec(lines[i]) == Some(delivered[i])
    ensures
      var written := RunCallback(batches, lost).written;
      && |delivered| <= |written| && delivered == written[|written| - |delivered|..]
      && (written != [] ==> delivered != [])
    ensures Delivers(RunCallback(batches, lost).emitted, at, delivered)
    ensures forall i :: 0 < i < |delivered| ==>
              && at[i] > 0
              && (Flagged(delivered, i) <==> |enc(RunCallback(batches, lost).emitted[at[i] - 1])| > rotateSize)
  {
    hide RunCallback, Surviving, Flagged, RunLog, AcceptedOf, ReadAll;
    CallbackNumbersOn(batches, lost);
    var es, written := RunCallback(batches, lost).emitted, RunCallback(batches, lost).written;
    AcceptedAreSurviving(rotateSize, enc, dec, es, lost);
    var k := ReaderGetsTail(rotateSize, EncodedAll(enc, es), chunks);
    var all := SurvivingDelivers(es, lost);
    at, delivered := all[k..], written[k..];
    assert EncodedAll(enc, written)[k..] == EncodedAll(enc, delivered);
    forall i | 0 < i < |delivered|
      ensures at[i] > 0 && (Flagged(delivered, i) <==> |enc(es[at[i] - 1])| > rotateSize)
    {
      LaterDeliveries(es, all, written, k, i);
      FlagsExactlyGaps(es, at, delivered, i);
    }
  }
}
