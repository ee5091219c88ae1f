/** readEvents of the changelog reader: puts lines back together from whatever stretches of the file
    become readable. */
module LineReader {
  import opened Wrappers
  import opened LogWriter

  /** The first newline, or |s|. */
  function FindNewline(s: string): (i: nat)
    ensures i <= |s|
  {
    if s == "" || s[0] == '\n' then 0 else 1 + FindNewline(s[1..])
  }

  lemma {:induction false} FindsFirst(s: string)
    ensures var i := FindNewline(s);
            && (i < |s| ==> s[i] == '\n')
            && forall k :: 0 <= k < i ==> s[k] != '\n'
  {
    if s != "" && s[0] != '\n' {
      FindsFirst(s[1..]);
      assert forall k :: 0 < k < 1 + FindNewline(s[1..]) ==> s[k] == s[1..][k - 1];
    }
  }

  lemma NewlineIsAt(s: string, i: nat)
    requires i < |s| && s[i] == '\n' && forall k :: 0 <= k < i ==> s[k] != '\n'
    ensures FindNewline(s) == i
  {
    FindsFirst(s);
  }

  /** The newline-terminated lines of a text, and what follows the last of them. */
  function LinesOf(s: string): seq<string> {
    var i := FindNewline(s);
    if i == |s| then [] else [s[..i + 1]] + LinesOf(s[i + 1..])
  }

  function TailOf(s: string): string {
    var i := FindNewline(s);
    if i == |s| then s else TailOf(s[i + 1..])
  }

  function Concat(parts: seq<string>): string {
    if parts == [] then "" else parts[0] + Concat(parts[1..])
  }

  class EventReader {
    var buffer: string
    var handled: seq<string>

    constructor ()
      ensures buffer == "" && handled == []
    {
      buffer, handled := "", [];
    }

    /** One call of readEvents while the file has these further bytes: reads up to each newline in turn
        until the end of the file, or until the read that fails. */
    method ReadEvents(available: string, failAfter: Option<nat>) returns (eof: bool)
      requires '\n' !in buffer
      modifies this
      ensures '\n' !in buffer
      ensures
        var lines := LinesOf(old(buffer) + available);
        if failAfter.None? || failAfter.value > |lines| then
          eof && handled == old(handled) + lines && buffer == TailOf(old(buffer) + available)
        else
          !eof && handled == old(handled) + lines[..failAfter.value] && buffer == ""
    {
      hide FindNewline, LinesOf, TailOf;
      var pending := available;
      var count := 0;
      ghost var all := buffer + available;
      ghost var done: seq<string> := [];
      while true
        invariant '\n' !in buffer
        invariant handled == old(handled) + done
        invariant count == |done| && (failAfter.Some? ==> count <= failAfter.value)
        invariant LinesOf(all) == done + LinesOf(buffer + pending)
        invariant TailOf(all) == TailOf(buffer + pending)
        decreases |pending|
      {
        if failAfter == Some(count) {
          assert LinesOf(all)[..count] == done;
          buffer := "";
          return false;
        }
        count := count + 1;
        var i := FindNewline(pending);
        if i == |pending| {
          NoFurtherLine(buffer, pending);
          buffer := buffer + pending;
          return true;
        }
        FirstLine(buffer, pending, i);
        var line := buffer + pending[..i + 1];
        ghost var lines := LinesOf(pending[i + 1..]);
        assert (done + [line]) + lines == done + ([line] + lines);
        buffer := line;
        handled := handled + [buffer];
        done := done + [line];
        buffer := "";
        pending := pending[i + 1..];
        assert buffer + pending == pending;
      }
    }
  }

  lemma NoFurtherLine(buffer: string, pending: string)
    requires '\n' !in buffer && FindNewline(pending) == |pending|
    ensures LinesOf(buffer + pending) == [] && TailOf(buffer + pending) == buffer + pending
    ensures '\n' !in buffer + pending
  {
    var s := buffer + pending;
    FindsFirst(pending);
    FindsFirst(s);
    assert forall k :: 0 <= k < |s| ==> s[k] == if k < |buffer| then buffer[k] else pending[k - |buffer|];
  }

  /** Text without a newline only lengthens the line that follows it. */
  lemma FirstLine(buffer: string, pending: string, i: nat)
    requires '\n' !in buffer && i < |pending| && i == FindNewline(pending)
    ensures LinesOf(buffer + pending) == [buffer + pending[..i + 1]] + LinesOf(pending[i + 1..])
    ensures TailOf(buffer + pending) == TailOf(pending[i + 1..])
  {
    hide FindNewline;
    var s := buffer + pending;
    FindsFirst(pending);
    assert s[|buffer| + i] == pending[i];
    NewlineIsAt(s, |buffer| + i);
    assert s[..|buffer| + i + 1] == buffer + pending[..i + 1];
    assert s[|buffer| + i + 1..] == pending[i + 1..];
  }

  // ---------- the reference definition is the right one ----------

  /** The lines and the tail make up the text; each line ends in its only newline and the tail has none. */
  lemma {:induction false} LinesMakeUpText(s: string)
    ensures Concat(LinesOf(s)) + TailOf(s) == s
    ensures '\n' !in TailOf(s)
    ensures forall k :: 0 <= k < |LinesOf(s)| ==> IsLine(LinesOf(s)[k])
    decreases |s|
  {
    hide FindNewline, Concat, LinesOf, TailOf;
    var i := FindNewline(s);
    ByFirstLine(s);
    FindsFirst(s);
    if i == |s| {
      ConcatNone(s);
    } else {
      var line, rest := s[..i + 1], s[i + 1..];
      LinesMakeUpText(rest);
      ConcatFirst(line, LinesOf(rest), TailOf(rest));
      assert line + rest == s;
    }
  }

  predicate IsLine(l: string) {
    l != "" && l[|l| - 1] == '\n' && forall i :: 0 <= i < |l| - 1 ==> l[i] != '\n'
  }

  lemma ConcatNone(s: string)
    ensures Concat([]) + s == s
  {
  }

  lemma ConcatFirst(line: string, lines: seq<string>, tail: string)
    ensures Concat([line] + lines) + tail == line + (Concat(lines) + tail)
  {
    assert ([line] + lines)[1..] == lines;
    assert (line + Concat(lines)) + tail == line + (Concat(lines) + tail);
  }

  lemma SplitOff(a: string, b: string, i: nat)
    requires i < |a| && i == FindNewline(a)
    ensures LinesOf(a + b) == [a[..i + 1]] + LinesOf(a[i + 1..] + b)
    ensures TailOf(a + b) == TailOf(a[i + 1..] + b)
  {
    hide FindNewline;
    FindsFirst(a);
    NewlineIsAt(a + b, i);
    assert (a + b)[..i + 1] == a[..i + 1];
    assert (a + b)[i + 1..] == a[i + 1..] + b;
  }

  lemma ByFirstLine(a: string)
    ensures
      var i := FindNewline(a);
      if i == |a| then LinesOf(a) == [] && TailOf(a) == a
      else LinesOf(a) == [a[..i + 1]] + LinesOf(a[i + 1..]) && TailOf(a) == TailOf(a[i + 1..])
  {
    hide *;
    if FindNewline(a) == |a| {
      NoLineFirst(a);
    } else {
      LineFirst(a, FindNewline(a), a[FindNewline(a) + 1..]);
    }
  }

  lemma NoLineFirst(a: string)
    requires FindNewline(a) == |a|
    ensures LinesOf(a) == [] && TailOf(a) == a
  {
    hide FindNewline;
  }

  lemma LineFirst(a: string, i: nat, rest: string)
    requires i < |a| && i == FindNewline(a) && rest == a[i + 1..]
    ensures LinesOf(a) == [a[..i + 1]] + LinesOf(rest)
    ensures TailOf(a) == TailOf(rest)
  {
    hide FindNewline;
  }

  /** Reading a text in two stretches, carrying the tail over, reads it in one. */
  lemma {:induction false} LinesOfTwo(a: string, b: string)
    ensures LinesOf(a + b) == LinesOf(a) + LinesOf(TailOf(a) + b)
    ensures TailOf(a + b) == TailOf(TailOf(a) + b)
    decreases |a|
  {
    hide FindNewline, LinesOf, TailOf;
    var i := FindNewline(a);
    ByFirstLine(a);
    if i == |a| {
      assert [] + LinesOf(a + b) == LinesOf(a + b);
    } else {
      var line, rest := a[..i + 1], a[i + 1..];
      LinesOfTwo(rest, b);
      SplitOff(a, b, i);
      assert ([line] + LinesOf(rest)) + LinesOf(TailOf(rest) + b) ==
             [line] + (LinesOf(rest) + LinesOf(TailOf(rest) + b));
    }
  }

  /** The lines handed over and the buffer left after reading a file in these stretches, each by one
      call of readEvents. */
  function ReadAll(chunks: seq<string>): (seq<string>, string) {
    if chunks == [] then ([], "")
    else
      var n := |chunks| - 1;
      var (lines, buffer) := ReadAll(chunks[..n]);
      (lines + LinesOf(buffer + chunks[n]), TailOf(buffer + chunks[n]))
  }

  lemma {:induction false} ConcatLast(parts: seq<string>, last: string)
    ensures Concat(parts + [last]) == Concat(parts) + last
  {
    if parts == [] {
      assert [last][1..] == [];
      assert Concat([last]) == last + "" == last == "" + last;
    } else {
      assert (parts + [last])[1..] == parts[1..] + [last];
      ConcatLast(parts[1..], last);
      assert parts[0] + (Concat(parts[1..]) + last) == (parts[0] + Concat(parts[1..])) + last;
    }
  }

  /** However the bytes of the file are split into reads that end at EOF: the lines handed over are exactly
      the newline-terminated lines of the whole, in order, and the buffer is its unterminated tail. */
  lemma {:induction false} ChunksDoNotMatter(chunks: seq<string>)
    ensures ReadAll(chunks) == (LinesOf(Concat(chunks)), TailOf(Concat(chunks)))
  {
    if chunks != [] {
      var n := |chunks| - 1;
      ChunksDoNotMatter(chunks[..n]);
      assert chunks == chunks[..n] + [chunks[n]];
      ConcatLast(chunks[..n], chunks[n]);
      LinesOfTwo(Concat(chunks[..n]), chunks[n]);
    }
  }

  // ---------- writer and reader together ----------

  function Terminated(lines: seq<string>): seq<string> {
    seq(|lines|, i requires 0 <= i < |lines| => lines[i] + "\n")
  }

  lemma {:induction false} LinesOfEncoded(lines: seq<string>)
    requires forall i :: 0 <= i < |lines| ==> '\n' !in lines[i]
    ensures LinesOf(Encode(lines)) == Terminated(lines) && TailOf(Encode(lines)) == ""
  {
    if lines != [] {
      var n := |lines| - 1;
      var last := lines[n] + "\n";
      LinesOfEncoded(lines[..n]);
      LinesOfTwo(Encode(lines[..n]), last);
      assert "" + last == last;
      OneLine(lines[n]);
      assert Terminated(lines) == Terminated(lines[..n]) + [last];
    }
  }

  lemma OneLine(line: string)
    requires '\n' !in line
    ensures LinesOf(line + "\n") == [line + "\n"] && TailOf(line + "\n") == ""
  {
    assert FindNewline("\n") == 0;
    FirstLine(line, "\n", 0);
    assert "\n"[..1] == "\n" && "\n"[1..] == "";
  }

  lemma {:induction false} AcceptedHaveNoNewline(rotateSize: int, lines: seq<string>)
    ensures forall i :: 0 <= i < |AcceptedOf(rotateSize, lines)| ==> '\n' !in AcceptedOf(rotateSize, lines)[i]
  {
    if lines != [] {
      AcceptedHaveNoNewline(rotateSize, lines[..|lines| - 1]);
    }
  }

  /** A reader that opens the log after any run of writes, and reads it in any stretches, gets exactly a
      contiguous tail of the accepted lines, whole and in order, up to the last one. */
  lemma ReaderGetsTail(rotateSize: int, lines: seq<string>, chunks: seq<string>) returns (k: nat)
    requires Concat(chunks) == RunLog(rotateSize, lines)
    ensures
      var accepted := AcceptedOf(rotateSize, lines);
      && k <= |accepted| && (accepted != [] ==> k < |accepted|)
      && ReadAll(chunks) == (Terminated(accepted[k..]), "")
  {
    var m;
    k, m := FileIsTail(rotateSize, lines);
    AcceptedHaveNoNewline(rotateSize, lines);
    LinesOfEncoded(AcceptedOf(rotateSize, lines)[k..]);
    ChunksDoNotMatter(chunks);
  }
}
