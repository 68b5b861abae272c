/** The bounded buffers of UartLogTerminal/ViewModels/MainViewModel.cs (the entry
    history, the raw display lines and every tab's lines, each capped at
    MaxBufferedLines by dropping the oldest) and the joining of the raw lines into
    the raw log text. */
module History {
  import opened Text

  /** MaxBufferedLines: the capacity of every buffer. */
  const MaxBufferedLines: nat := 5000

  /** The newest `cap` elements of s, oldest first: all of s when it fits. */
  function KeepLast<T>(s: seq<T>, cap: nat): (r: seq<T>)
    ensures |r| == Min(|s|, cap)
  {
    if |s| <= cap then s else s[|s| - cap..]
  }

  /** The kept elements are a suffix of s. */
  lemma KeepLastSuffix<T>(s: seq<T>, cap: nat)
    ensures KeepLast(s, cap) == s[|s| - Min(|s|, cap)..]
  {
  }

  /** Capping after every append is capping once at the end: a buffer that drops its
      oldest element on overflow always holds the newest `cap` elements appended. */
  lemma KeepLastAppend<T>(s: seq<T>, t: seq<T>, cap: nat)
    ensures KeepLast(KeepLast(s, cap) + t, cap) == KeepLast(s + t, cap)
  {
    var k := KeepLast(s, cap);
    var d := |s| - |k|;
    assert s == s[..d] + k;
    assert s + t == s[..d] + (k + t);
    assert (s + t)[|s + t| - Min(|s + t|, cap)..] == (k + t)[|k + t| - Min(|k + t|, cap)..];
  }

  /** A buffer under capacity is left whole. */
  lemma KeepLastFits<T>(s: seq<T>, cap: nat)
    requires |s| <= cap
    ensures KeepLast(s, cap) == s
  {
  }

  /** EnqueueWithCap: append the value, then dequeue from the front while the queue
      is over capacity. */
  method EnqueueWithCap<T>(queue: seq<T>, value: T) returns (r: seq<T>)
    ensures r == KeepLast(queue + [value], MaxBufferedLines)
    ensures |r| <= MaxBufferedLines && r[|r| - 1] == value
  {
    r := queue + [value];
    ghost var dropped := 0;
    while |r| > MaxBufferedLines
      invariant 0 <= dropped <= |queue| + 1 && r == (queue + [value])[dropped..]
      invariant dropped == 0 || |r| >= MaxBufferedLines
      decreases |r|
    {
      r := r[1..];
      dropped := dropped + 1;
    }
  }

  // ---------------------------------------------------------------------------
  // JoinLines

  /** Environment.NewLine on the platform the application targets. */
  const NewLine: string := "\r\n"

  /** The StringBuilder loop from a builder holding `acc`: each line is appended,
      preceded by a line break only when the builder is not empty. */
  function JoinFrom(acc: string, lines: seq<string>): string
    decreases |lines|
  {
    if lines == [] then acc
    else JoinFrom(if |acc| > 0 then acc + NewLine + lines[0] else lines[0], lines[1..])
  }

  /** JoinLines as the raw view computes it. */
  function Joined(lines: seq<string>): string {
    JoinFrom("", lines)
  }

  /** Each line preceded by a line break. */
  function Prefixed(lines: seq<string>): string
    decreases |lines|
  {
    if lines == [] then "" else NewLine + lines[0] + Prefixed(lines[1..])
  }

  /** string.Join(NewLine, lines): the lines with a line break between neighbours. */
  function Intercalate(lines: seq<string>): string {
    if lines == [] then "" else lines[0] + Prefixed(lines[1..])
  }

  /** Once the builder holds text, every further line gets its line break. */
  lemma {:induction false} JoinFromNonEmpty(acc: string, lines: seq<string>)
    requires |acc| > 0
    ensures JoinFrom(acc, lines) == acc + Prefixed(lines)
    decreases |lines|
  {
    if lines != [] {
      JoinFromNonEmpty(acc + NewLine + lines[0], lines[1..]);
    }
  }

  /** JoinLines is string.Join with line breaks whenever the first line is not empty
      (every formatted entry starts with its timestamp, so the raw view always is). */
  lemma JoinedIsIntercalate(lines: seq<string>)
    requires lines == [] || |lines[0]| > 0
    ensures Joined(lines) == Intercalate(lines)
  {
    if lines != [] {
      JoinFromNonEmpty(lines[0], lines[1..]);
    }
  }

  /** Leading empty lines leave no trace: the builder is still empty after them. */
  lemma JoinedSkipsLeadingEmpty(lines: seq<string>)
    ensures Joined([""] + lines) == Joined(lines)
  {
    assert ([""] + lines)[1..] == lines;
  }

  /** JoinLines: the loop over the lines with a StringBuilder. */
  method JoinLines(lines: seq<string>) returns (s: string)
    ensures s == Joined(lines)
  {
    s := "";
    for i := 0 to |lines|
      invariant JoinFrom(s, lines[i..]) == Joined(lines)
    {
      assert lines[i..][1..] == lines[i + 1..];
      ghost var next := if |s| > 0 then s + NewLine + lines[i] else lines[i];
      if |s| > 0 {
        s := s + NewLine;
      }
      s := s + lines[i];
      assert s == next;
    }
  }
}
