/** The line framer of UartLogTerminal/Services/SerialPortService.cs: received chunks
    are appended to a text buffer, every complete line (up to a '\n') is cut off the
    front and emitted without its trailing carriage returns, and the unterminated
    remainder stays buffered for the next chunk. */
module LineFramer {
  import opened Text

  // ---------------------------------------------------------------------------
  // Specification

  /** The index of the first '\n' of s, or -1 when s has none. */
  function LineBreakIndex(s: string): (i: int)
    ensures i == -1 <==> '\n' !in s
    ensures i != -1 ==> 0 <= i < |s| && s[i] == '\n' && '\n' !in s[..i]
    decreases |s|
  {
    if s == [] then -1
    else if s[0] == '\n' then 0
    else
      var j := LineBreakIndex(s[1..]);
      if j < 0 then -1
      else
        assert s[..j + 1] == [s[0]] + s[1..][..j];
        j + 1
  }

  /** A line break preceded by none is the first one. */
  lemma LineBreakIndexUnique(s: string, i: int)
    requires 0 <= i < |s| && s[i] == '\n' && '\n' !in s[..i]
    ensures LineBreakIndex(s) == i
  {
  }

  /** Lines each followed by a '\n', one after the other. */
  function Terminated(lines: seq<string>): string
  {
    if lines == [] then "" else lines[0] + "\n" + Terminated(lines[1..])
  }

  lemma TerminatedAppend(a: seq<string>, b: seq<string>)
    ensures Terminated(a + b) == Terminated(a) + Terminated(b)
  {
    if a == [] {
      assert a + b == b;
    } else {
      assert (a + b)[1..] == a[1..] + b;
      TerminatedAppend(a[1..], b);
    }
  }

  predicate NoLineBreaks(lines: seq<string>) {
    forall k :: 0 <= k < |lines| ==> '\n' !in lines[k]
  }

  /** The complete lines of s (without their '\n') and the unterminated remainder.
      The lines, each put back with its '\n', followed by the remainder give back s. */
  function Split(s: string): (r: (seq<string>, string))
    ensures NoLineBreaks(r.0) && '\n' !in r.1
    ensures Terminated(r.0) + r.1 == s
    decreases |s|
  {
    var i := LineBreakIndex(s);
    if i < 0 then ([], s)
    else
      var rest := Split(s[i + 1..]);
      assert ([s[..i]] + rest.0)[1..] == rest.0;
      assert s == s[..i] + "\n" + s[i + 1..];
      ([s[..i]] + rest.0, rest.1)
  }

  /** Split is the only way to cut s into '\n'-free lines and a '\n'-free remainder. */
  lemma {:induction false} SplitUnique(s: string, lines: seq<string>, rest: string)
    requires NoLineBreaks(lines) && '\n' !in rest
    requires Terminated(lines) + rest == s
    ensures Split(s) == (lines, rest)
    decreases |lines|
  {
    if lines == [] {
      assert s == rest;
    } else {
      var l0 := lines[0];
      var tail := Terminated(lines[1..]) + rest;
      assert s == l0 + "\n" + tail;
      assert s[..|l0|] == l0;
      LineBreakIndexUnique(s, |l0|);
      assert s[|l0| + 1..] == tail;
      SplitUnique(tail, lines[1..], rest);
      assert lines == [l0] + lines[1..];
    }
  }

  /** Where a chunk boundary falls does not matter: framing s and then the remainder
      with t emits the same lines, and leaves the same remainder, as framing s + t. */
  lemma ChunkBoundaryIndependent(s: string, t: string)
    ensures Split(s + t).0 == Split(s).0 + Split(Split(s).1 + t).0
    ensures Split(s + t).1 == Split(Split(s).1 + t).1
  {
    var (a, r) := Split(s);
    var (b, r2) := Split(r + t);
    TerminatedAppend(a, b);
    calc {
      Terminated(a + b) + r2;
      Terminated(a) + (Terminated(b) + r2);
      Terminated(a) + (r + t);
      (Terminated(a) + r) + t;
    }
    SplitUnique(s + t, a + b, r2);
  }

  /** The number of occurrences of c in s. */
  function Count(s: string, c: char): nat
  {
    if s == [] then 0 else (if s[0] == c then 1 else 0) + Count(s[1..], c)
  }

  lemma CountAppend(a: string, b: string, c: char)
    ensures Count(a + b, c) == Count(a, c) + Count(b, c)
  {
    if a == [] {
      assert a + b == b;
    } else {
      assert (a + b)[1..] == a[1..] + b;
      CountAppend(a[1..], b, c);
    }
  }

  lemma CountAbsent(s: string, c: char)
    requires c !in s
    ensures Count(s, c) == 0
  {
    if s != [] {
      assert forall k :: 0 <= k < |s[1..]| ==> s[1..][k] == s[k + 1];
      CountAbsent(s[1..], c);
    }
  }

  /** One line is emitted per '\n' of the input. */
  lemma {:induction false} SplitCount(s: string)
    ensures |Split(s).0| == Count(s, '\n')
    decreases |s|
  {
    var i := LineBreakIndex(s);
    if i < 0 {
      CountAbsent(s, '\n');
    } else {
      assert s == s[..i] + ("\n" + s[i + 1..]);
      CountAppend(s[..i], "\n" + s[i + 1..], '\n');
      CountAbsent(s[..i], '\n');
      assert ("\n" + s[i + 1..])[1..] == s[i + 1..];
      SplitCount(s[i + 1..]);
    }
  }

  /** The emitted lines: the complete lines with trailing carriage returns trimmed. */
  function TrimAll(lines: seq<string>): (r: seq<string>)
    ensures |r| == |lines|
    ensures forall k :: 0 <= k < |lines| ==> r[k] == TrimEndCR(lines[k])
  {
    if lines == [] then []
    else TrimAll(lines[..|lines| - 1]) + [TrimEndCR(lines[|lines| - 1])]
  }

  /** Every emitted line is the corresponding raw line with only '\r's cut off its
      end, holds no '\n' and does not end in '\r'. */
  lemma EmittedLinesClean(s: string)
    ensures forall k :: 0 <= k < |TrimAll(Split(s).0)| ==>
      var raw, line := Split(s).0[k], TrimAll(Split(s).0)[k];
      && line == raw[..|line|]
      && (forall j :: |line| <= j < |raw| ==> raw[j] == '\r')
      && '\n' !in line
      && (|line| > 0 ==> line[|line| - 1] != '\r')
  {
    var raws := Split(s).0;
    forall k | 0 <= k < |raws|
      ensures '\n' !in TrimAll(raws)[k]
    {
      var line := TrimAll(raws)[k];
      assert forall j :: 0 <= j < |line| ==> line[j] == raws[k][j];
    }
  }

  /** With a '\n'-free buffer, a chunk emits one line per '\n' it holds. */
  lemma EmittedCount(buffer: string, chunk: string)
    requires '\n' !in buffer
    ensures |TrimAll(Split(buffer + chunk).0)| == Count(chunk, '\n')
  {
    SplitCount(buffer + chunk);
    CountAppend(buffer, chunk, '\n');
    CountAbsent(buffer, '\n');
  }

  /** What the cutting loop keeps: the lines cut so far (raw and trimmed) followed by
      the framing of what is left give the framing of the original buffer. */
  predicate EmitProgress(original: string, raw: seq<string>, lines: seq<string>, rest: string) {
    && Split(original).0 == raw + Split(rest).0
    && Split(original).1 == Split(rest).1
    && lines == TrimAll(raw)
  }

  /** Cutting off the first line of what is left keeps the loop's invariant. */
  lemma EmitStep(original: string, raw: seq<string>, lines: seq<string>, rest: string)
    requires EmitProgress(original, raw, lines, rest) && LineBreakIndex(rest) >= 0
    ensures var i := LineBreakIndex(rest);
      EmitProgress(original, raw + [rest[..i]], lines + [TrimEndCR(rest[..i])], rest[i + 1..])
  {
    var i := LineBreakIndex(rest);
    var line := rest[..i];
    var tail := Split(rest[i + 1..]);
    assert Split(rest) == ([line] + tail.0, tail.1);
    assert (raw + [line]) + tail.0 == raw + ([line] + tail.0);
    assert (raw + [line])[..|raw|] == raw;
  }

  /** With no line break left, everything has been cut. */
  lemma EmitDone(original: string, raw: seq<string>, lines: seq<string>, rest: string)
    requires EmitProgress(original, raw, lines, rest) && LineBreakIndex(rest) < 0
    ensures lines == TrimAll(Split(original).0) && rest == Split(original).1
  {
    assert raw + Split(rest).0 == raw;
  }

  // ---------------------------------------------------------------------------
  // The service

  class SerialPortService {
    /** _buffer: received text not yet emitted as a line. */
    var buffer: string
    /** A SerialPort object is attached (_serialPort is not null). */
    var attached: bool
    /** The attached port is open; the device can close it, never open it. */
    var portOpen: bool

    /** Between chunks the buffer holds only an unterminated remainder, and only an
        attached port can be open. */
    ghost predicate Valid()
      reads this
    {
      '\n' !in buffer && (portOpen ==> attached)
    }

    constructor ()
      ensures Valid() && buffer == [] && !attached && !portOpen
    {
      buffer := [];
      attached := false;
      portOpen := false;
    }

    /** Attaching a port fails while one is open; the device settings are not modelled. */
    method Open() returns (error: Option<string>)
      requires Valid()
      modifies this`attached, this`portOpen
      ensures Valid()
      ensures error == (if old(portOpen) then Some("Port is already open.") else None)
      ensures attached && portOpen
    {
      if portOpen {
        return Some("Port is already open.");
      }
      attached := true;
      portOpen := true;
      error := None;
    }

    /** Closing detaches the port and discards any pending partial line; with no port
        attached it does nothing. */
    method Close()
      requires Valid()
      modifies this`attached, this`portOpen, this`buffer
      ensures Valid() && !attached && !portOpen
      ensures buffer == if old(attached) then [] else old(buffer)
    {
      if !attached {
        return;
      }
      portOpen := false;
      attached := false;
      buffer := [];
    }

    /** FindLineBreakIndex: a scan for the first '\n'. */
    static method FindLineBreakIndex(sb: string) returns (index: int)
      ensures index == LineBreakIndex(sb)
    {
      for i := 0 to |sb|
        invariant '\n' !in sb[..i]
      {
        if sb[i] == '\n' {
          LineBreakIndexUnique(sb, i);
          return i;
        }
        assert sb[..i + 1] == sb[..i] + [sb[i]];
      }
      assert sb[..|sb|] == sb;
      return -1;
    }

    /** EmitCompletedLines: cuts every complete line off the buffer, in order. */
    method EmitCompletedLines() returns (lines: seq<string>)
      modifies this`buffer
      ensures lines == TrimAll(Split(old(buffer)).0)
      ensures buffer == Split(old(buffer)).1
      ensures '\n' !in buffer
    {
      lines := [];
      ghost var raw: seq<string> := [];
      while true
        invariant EmitProgress(old(buffer), raw, lines, buffer)
        decreases |buffer|
      {
        var newLineIndex := FindLineBreakIndex(buffer);
        if newLineIndex < 0 {
          EmitDone(old(buffer), raw, lines, buffer);
          return;
        }
        var line := TrimEndCR(buffer[..newLineIndex]);
        EmitStep(old(buffer), raw, lines, buffer);
        raw := raw + [buffer[..newLineIndex]];
        buffer := buffer[newLineIndex + 1..];
        lines := lines + [line];
      }
    }

    /** The DataReceived handler once the chunk is read: an empty chunk, or one that
        arrives with no port open, changes nothing; otherwise it is appended and every
        completed line is raised as LineReceived, in order (the returned sequence). */
    method OnDataReceived(chunk: string) returns (lines: seq<string>)
      requires Valid()
      modifies this`buffer
      ensures Valid()
      ensures !portOpen || chunk == [] ==> lines == [] && buffer == old(buffer)
      ensures portOpen && chunk != [] ==>
        && lines == TrimAll(Split(old(buffer) + chunk).0)
        && buffer == Split(old(buffer) + chunk).1
    {
      if !portOpen {
        return [];
      }
      if chunk == [] {
        return [];
      }
      buffer := buffer + chunk;
      lines := EmitCompletedLines();
    }
  }
}
