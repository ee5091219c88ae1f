/** SizedLogWriter: a line log that starts over with an empty file when the next line would make it too
    large. Text is taken as bytes, one character each. */
module LogWriter {
  import opened Wrappers

  datatype WriteError = OpenError | HasNewline | LineTooLong | SeekError | RotateError | WriteError

  /** The first file operation that fails; a failing write still leaves its first n bytes. */
  datatype FileFault = NoFileFault | OpenFails | SeekFails | CloseFails | RemoveFails | ReopenFails | WriteFails(n: nat)

  predicate Accepted(rotateSize: int, line: string) {
    '\n' !in line && |line| <= rotateSize
  }

  /** The file after an accepted line. */
  function Appended(rotateSize: int, content: string, line: string): string {
    (if |content| + |line| > rotateSize then "" else content) + (line + "\n")
  }

  class SizedLogWriter {
    const rotateSize: int
    var file: Option<string>  // the file at Path, if it exists
    var handle: bool          // _f != nil

    ghost predicate Valid()
      reads this
    {
      handle ==> file.Some?
    }

    /** A missing file reads as empty. */
    ghost function Content(): string
      reads this
    {
      if file.Some? then file.value else ""
    }

    constructor (rotateSize: int, file: Option<string>)
      ensures this.rotateSize == rotateSize && this.file == file && Valid()
    {
      this.rotateSize, this.file, handle := rotateSize, file, false;
    }

    method File(fails: bool) returns (ok: bool)
      requires Valid()
      modifies this
      ensures Valid() && Content() == old(Content())
      ensures ok == (old(handle) || !fails) && (ok ==> handle)
    {
      if handle {
        return true;
      }
      if fails {
        return false;
      }
      if file.None? {
        file := Some("");
      }
      handle := true;
      ok := true;
    }

    /** Deletes the file; the next File call starts a new one. */
    method Rotate(closeFails: bool, removeFails: bool) returns (ok: bool)
      requires Valid()
      modifies this
      ensures Valid()
      ensures ok ==> file.None? && !handle
      ensures !ok ==> Content() == old(Content())
      ensures ok <==> !(old(handle) && closeFails) && !(removeFails || old(file).None?)
    {
      if handle {
        if closeFails {
          return false;
        }
        handle := false;
      }
      if removeFails || file.None? {
        return false;
      }
      file := None;
      ok := true;
    }

    method WriteLine(line: string, fault: FileFault) returns (err: Option<WriteError>)
      requires Valid()
      modifies this
      ensures Valid()
      ensures err.None? ==> Accepted(rotateSize, line) && Content() == Appended(rotateSize, old(Content()), line)
      ensures fault.NoFileFault? ==>
                && (err.None? <==> '\n' !in line && |line| <= rotateSize)
                && (err.Some? ==>
                      && Content() == old(Content())
                      && err.value == if '\n' in line then HasNewline else LineTooLong)
      ensures err.Some? && !err.value.WriteError? && !fault.ReopenFails? ==> Content() == old(Content())
      // whatever fails, the file is as it was, or a beginning of what success would leave
      ensures Content() == old(Content()) ||
              (Accepted(rotateSize, line) && Content() <= Appended(rotateSize, old(Content()), line))
    {
      var gotFile := File(fault.OpenFails?);
      if !gotFile {
        return Some(OpenError);
      }
      if '\n' in line {
        return Some(HasNewline);
      }
      if |line| > rotateSize {
        return Some(LineTooLong);
      }
      if fault.SeekFails? {
        return Some(SeekError);
      }
      var newEnd := |file.value| + |line|;
      if newEnd > rotateSize {
        var rotated := Rotate(fault.CloseFails?, fault.RemoveFails?);
        if !rotated {
          return Some(RotateError);
        }
        gotFile := File(fault.ReopenFails?);
        if !gotFile {
          return Some(OpenError);
        }
      }
      var bytes := line + "\n";
      if fault.WriteFails? {
        var n := if fault.n < |bytes| then fault.n else |bytes|;
        file := Some(file.value + bytes[..n]);
        return Some(WriteError);
      }
      file := Some(file.value + bytes);
      return None;
    }
  }

  // ---------- what the file holds ----------

  function Encode(lines: seq<string>): string {
    if lines == [] then "" else Encode(lines[..|lines| - 1]) + (lines[|lines| - 1] + "\n")
  }

  /** The accepted lines of a run without file errors, and the file after it. */
  function AcceptedOf(rotateSize: int, lines: seq<string>): seq<string> {
    if lines == [] then []
    else
      var n := |lines| - 1;
      AcceptedOf(rotateSize, lines[..n]) + (if Accepted(rotateSize, lines[n]) then [lines[n]] else [])
  }

  function RunLog(rotateSize: int, lines: seq<string>): string {
    if lines == [] then ""
    else
      var n := |lines| - 1;
      var content := RunLog(rotateSize, lines[..n]);
      if Accepted(rotateSize, lines[n]) then Appended(rotateSize, content, lines[n]) else content
  }

  /** Where the last rotation of a run was: how many accepted lines it left out, and before which line it came. */
  function LastRotation(rotateSize: int, lines: seq<string>): (nat, nat) {
    if lines == [] then (0, 0)
    else
      var n := |lines| - 1;
      if Accepted(rotateSize, lines[n]) && |RunLog(rotateSize, lines[..n])| + |lines[n]| > rotateSize
      then (|AcceptedOf(rotateSize, lines[..n])|, n)
      else LastRotation(rotateSize, lines[..n])
  }

  lemma {:induction false} KeptIsEncoded(rotateSize: int, lines: seq<string>)
    ensures
      var k, accepted := LastRotation(rotateSize, lines).0, AcceptedOf(rotateSize, lines);
      && k <= |accepted| && (accepted != [] ==> k < |accepted|)
      && RunLog(rotateSize, lines) == Encode(accepted[k..])
  {
    if lines != [] {
      var n := |lines| - 1;
      KeptIsEncoded(rotateSize, lines[..n]);
      EncodeOneMore(AcceptedOf(rotateSize, lines[..n])[LastRotation(rotateSize, lines[..n]).0..], lines[n]);
      EncodeOneMore([], lines[n]);
      var before := AcceptedOf(rotateSize, lines[..n]);
      var k := LastRotation(rotateSize, lines[..n]).0;
      hide Encode;
      if Accepted(rotateSize, lines[n]) {
        assert (before + [lines[n]])[k..] == before[k..] + [lines[n]];
        assert (before + [lines[n]])[|before|..] == [] + [lines[n]];
      } else {
        assert AcceptedOf(rotateSize, lines) == before;
      }
    }
  }

  lemma EncodeOneMore(lines: seq<string>, line: string)
    ensures Encode(lines + [line]) == Encode(lines) + (line + "\n")
    ensures Encode([]) == "" && "" + (line + "\n") == line + "\n"
  {
    assert (lines + [line])[..|lines|] == lines;
  }

  lemma {:induction false} RotationWasDue(rotateSize: int, lines: seq<string>)
    ensures
      var (k, m) := LastRotation(rotateSize, lines);
      && k <= |AcceptedOf(rotateSize, lines)|
      && (k > 0 ==>
            && m < |lines| && AcceptedOf(rotateSize, lines[..m]) == AcceptedOf(rotateSize, lines)[..k]
            && |RunLog(rotateSize, lines[..m])| + |lines[m]| > rotateSize)
  {
    hide RunLog;
    if lines != [] {
      var n := |lines| - 1;
      RotationWasDue(rotateSize, lines[..n]);
      var m := LastRotation(rotateSize, lines[..n]).1;
      assert m < n ==> lines[..n][..m] == lines[..m];
    }
  }

  lemma {:induction false} SizeIsBounded(rotateSize: int, lines: seq<string>)
    ensures RunLog(rotateSize, lines) == "" || |RunLog(rotateSize, lines)| <= rotateSize + 1
  {
    if lines != [] {
      SizeIsBounded(rotateSize, lines[..|lines| - 1]);
    }
  }

  /** After any run of writes from an empty file, the file is the encoding of a contiguous tail of the accepted
      lines, which always includes the last one, and its size is at most RotateSize + 1: the newline
      is not counted in the check. Lines are left out only by a rotation that was due: the tail starts with
      line m, which would not have fitted into the file as it was. */
  lemma FileIsTail(rotateSize: int, lines: seq<string>) returns (k: nat, m: nat)
    ensures k <= |AcceptedOf(rotateSize, lines)|
    ensures AcceptedOf(rotateSize, lines) != [] ==> k < |AcceptedOf(rotateSize, lines)|
    ensures RunLog(rotateSize, lines) == Encode(AcceptedOf(rotateSize, lines)[k..])
    ensures RunLog(rotateSize, lines) == "" || |RunLog(rotateSize, lines)| <= rotateSize + 1
    ensures k > 0 ==>
              && m < |lines| && AcceptedOf(rotateSize, lines[..m]) == AcceptedOf(rotateSize, lines)[..k]
              && |RunLog(rotateSize, lines[..m])| + |lines[m]| > rotateSize
  {
    hide *;
    k, m := LastRotation(rotateSize, lines).0, LastRotation(rotateSize, lines).1;
    KeptIsEncoded(rotateSize, lines);
    RotationWasDue(rotateSize, lines);
    SizeIsBounded(rotateSize, lines);
  }

  /** The bound is met: a line of exactly RotateSize bytes leaves one byte more. */
  lemma BoundIsMet(line: string)
    requires '\n' !in line
    ensures |RunLog(|line|, [line])| == |line| + 1
  {
    assert [line][..0] == [];
    assert RunLog(|line|, []) == "";
  }
}
