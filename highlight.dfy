/** Highlighting of a display line by a filter tab (FindMatches and BuildSegments of
    UartLogTerminal/ViewModels/MainViewModel.cs): the spans the tab's expression
    matches, made sorted and non-overlapping, and the cut of the line into
    default-styled and highlight-styled segments. */
module Highlight {
  import opened Text
  import opened Models
  import opened FilterEngine

  // ---------------------------------------------------------------------------
  // Span lists

  predicate InBounds(spans: seq<Span>, n: nat) {
    forall k :: 0 <= k < |spans| ==> End(spans[k]) <= n
  }

  predicate Positive(spans: seq<Span>) {
    forall k :: 0 <= k < |spans| ==> spans[k].length > 0
  }

  predicate SortedByStart(spans: seq<Span>) {
    forall i, j :: 0 <= i < j < |spans| ==> spans[i].start <= spans[j].start
  }

  /** Every span ends at or before the start of every later one. */
  predicate NonOverlapping(spans: seq<Span>) {
    forall i, j :: 0 <= i < j < |spans| ==> End(spans[i]) <= spans[j].start
  }

  predicate StartsFrom(spans: seq<Span>, lo: int) {
    forall k :: 0 <= k < |spans| ==> lo <= spans[k].start
  }

  /** The span lists BuildSegments can cut a text of length n with. */
  predicate WellFormedSpans(spans: seq<Span>, n: nat) {
    InBounds(spans, n) && Positive(spans) && NonOverlapping(spans)
  }

  // ---------------------------------------------------------------------------
  // Plain-text scan

  /** The plain-mode scan from `idx`: each occurrence found becomes a span of the
      expression's length, and the search resumes max(1, length) characters after it. */
  function PlainScan(text: string, expression: string, cmp: Comparison, idx: nat): (r: seq<Span>)
    ensures StartsFrom(r, idx)
    ensures forall k :: 0 <= k < |r| ==>
      r[k].length == |expression| && OccursAt(text, expression, r[k].start, cmp)
    ensures forall i, j :: 0 <= i < j < |r| ==> r[i].start + Max(1, |expression|) <= r[j].start
    decreases |text| - idx
  {
    if idx >= |text| then []
    else
      var found := IndexOf(text, expression, idx, cmp);
      if found < 0 then []
      else [Span(found, |expression|)] + PlainScan(text, expression, cmp, found + Max(1, |expression|))
  }

  /** Position p lies inside one of the spans. */
  predicate Covered(spans: seq<Span>, p: int) {
    exists k :: 0 <= k < |spans| && Inside(spans[k], p)
  }

  predicate Inside(sp: Span, p: int) {
    sp.start <= p < End(sp)
  }

  /** No occurrence is missed: every occurrence at or after `idx` lies inside a span
      of the scan (it is found, or it overlaps one found before it). */
  lemma {:induction false} PlainScanComplete(text: string, expression: string, cmp: Comparison,
                                             idx: nat, p: int)
    requires |expression| > 0 && idx <= p && OccursAt(text, expression, p, cmp)
    ensures Covered(PlainScan(text, expression, cmp, idx), p)
    decreases |text| - idx
  {
    var found := IndexOf(text, expression, idx, cmp);
    assert 0 <= found <= p;
    var next := found + |expression|;
    var rest := PlainScan(text, expression, cmp, next);
    var r := PlainScan(text, expression, cmp, idx);
    assert r == [Span(found, |expression|)] + rest;
    if p < next {
      assert Inside(r[0], p);
    } else {
      PlainScanComplete(text, expression, cmp, next, p);
      var k :| 0 <= k < |rest| && Inside(rest[k], p);
      assert r[k + 1] == rest[k];
    }
  }

  // ---------------------------------------------------------------------------
  // Sorting by start

  /** Inserts x before the first span that does not start before it. */
  function InsertByStart(x: Span, s: seq<Span>): (r: seq<Span>)
    ensures multiset(r) == multiset(s) + multiset{x}
  {
    if s == [] || x.start <= s[0].start then [x] + s
    else
      assert s == [s[0]] + s[1..];
      [s[0]] + InsertByStart(x, s[1..])
  }

  /** Insertion keeps a sorted list sorted. */
  lemma {:induction false} InsertSorted(x: Span, s: seq<Span>)
    requires SortedByStart(s)
    ensures SortedByStart(InsertByStart(x, s))
    ensures forall k :: 0 <= k < |InsertByStart(x, s)| ==>
      InsertByStart(x, s)[k] == x || InsertByStart(x, s)[k] in s
  {
    if s != [] && x.start > s[0].start {
      var rest := InsertByStart(x, s[1..]);
      InsertSorted(x, s[1..]);
      assert forall k :: 0 <= k < |rest| ==> rest[k] == x || rest[k] in s[1..];
      assert forall k :: 0 <= k < |rest| ==> s[0].start <= rest[k].start;
    }
  }

  /** The spans ordered by start, by a stable insertion sort. List.Sort is not stable;
      the two orders agree whenever no two spans share a start, as with the plain scan's
      spans and with successive regex matches. */
  function SortByStart(s: seq<Span>): (r: seq<Span>)
    ensures multiset(r) == multiset(s)
    ensures SortedByStart(r)
  {
    if s == [] then []
    else
      assert s == [s[0]] + s[1..];
      InsertSorted(s[0], SortByStart(s[1..]));
      InsertByStart(s[0], SortByStart(s[1..]))
  }

  /** Spans already in order are left as they are. */
  lemma {:induction false} SortSortedIdentity(s: seq<Span>)
    requires SortedByStart(s)
    ensures SortByStart(s) == s
  {
    if s != [] {
      SortSortedIdentity(s[1..]);
      assert s == [s[0]] + s[1..];
    }
  }

  // ---------------------------------------------------------------------------
  // Greedy removal of overlaps

  /** The greedy pass: a span is kept when it starts at or after the end of the last
      kept one (`lastEnd`), and dropped otherwise. */
  function DropOverlaps(spans: seq<Span>, lastEnd: int): (r: seq<Span>)
    ensures StartsFrom(r, lastEnd)
    ensures NonOverlapping(r)
    ensures forall k :: 0 <= k < |r| ==> r[k] in spans
    ensures |spans| > 0 && spans[0].start >= lastEnd ==> |r| > 0 && r[0] == spans[0]
  {
    if spans == [] then []
    else if spans[0].start >= lastEnd then
      [spans[0]] + DropOverlaps(spans[1..], End(spans[0]))
    else DropOverlaps(spans[1..], lastEnd)
  }

  /** On spans sorted by start, every span is kept, or starts before `lastEnd`, or
      starts inside a kept span that starts no later: on an overlap the earlier span
      wins. */
  lemma {:induction false} DropOverlapsKeepsEarlier(spans: seq<Span>, lastEnd: int)
    requires SortedByStart(spans)
    ensures forall k :: 0 <= k < |spans| ==>
      || spans[k] in DropOverlaps(spans, lastEnd)
      || spans[k].start < lastEnd
      || exists q :: q in DropOverlaps(spans, lastEnd) && q.start <= spans[k].start < End(q)
  {
    if spans != [] {
      var r := DropOverlaps(spans, lastEnd);
      var s0 := spans[0];
      if s0.start >= lastEnd {
        DropOverlapsKeepsEarlier(spans[1..], End(s0));
        forall k | 1 <= k < |spans|
          ensures || spans[k] in r
                  || spans[k].start < lastEnd
                  || exists q :: q in r && q.start <= spans[k].start < End(q)
        {
          assert spans[k] == spans[1..][k - 1];
          if spans[k].start < End(s0) {
            assert s0 in r && s0.start <= spans[k].start;
          }
        }
      } else {
        DropOverlapsKeepsEarlier(spans[1..], lastEnd);
        forall k | 1 <= k < |spans|
          ensures || spans[k] in r
                  || spans[k].start < lastEnd
                  || exists q :: q in r && q.start <= spans[k].start < End(q)
        {
          assert spans[k] == spans[1..][k - 1];
        }
      }
    }
  }

  /** The tail of a non-overlapping list starting from `lastEnd` is non-overlapping
      and starts from the end of the head. */
  lemma NonOverlappingTail(spans: seq<Span>, lastEnd: int)
    requires spans != [] && NonOverlapping(spans) && StartsFrom(spans, lastEnd)
    ensures NonOverlapping(spans[1..]) && StartsFrom(spans[1..], End(spans[0]))
    ensures spans[0].start >= lastEnd
  {
    assert forall k :: 0 <= k < |spans[1..]| ==> spans[1..][k] == spans[k + 1];
  }

  /** Spans that already do not overlap, all starting at or after `lastEnd`, are all kept. */
  lemma {:induction false} DropOverlapsIdentity(spans: seq<Span>, lastEnd: int)
    requires NonOverlapping(spans) && StartsFrom(spans, lastEnd)
    ensures DropOverlaps(spans, lastEnd) == spans
  {
    if spans != [] {
      var tail := spans[1..];
      NonOverlappingTail(spans, lastEnd);
      DropOverlapsStep(spans, 0, lastEnd);
      assert spans[0..] == spans;
      hide DropOverlaps, NonOverlapping, StartsFrom;
      DropOverlapsIdentity(tail, End(spans[0]));
      assert spans == [spans[0]] + tail;
    }
  }

  /** A multiset-equal list holds the same elements. */
  lemma SameElements(a: seq<Span>, b: seq<Span>)
    requires multiset(a) == multiset(b)
    ensures forall k :: 0 <= k < |a| ==> a[k] in b
  {
    forall k | 0 <= k < |a|
      ensures a[k] in b
    {
      assert a[k] in multiset(a);
    }
  }

  /** Spans drawn from a well-bounded, non-empty list are well-bounded and non-empty. */
  lemma DrawnFrom(r: seq<Span>, from: seq<Span>, n: nat)
    requires InBounds(from, n) && Positive(from)
    requires forall k :: 0 <= k < |r| ==> r[k] in from
    ensures InBounds(r, n) && Positive(r)
  {
    forall k | 0 <= k < |r|
      ensures End(r[k]) <= n && r[k].length > 0
    {
      var j :| 0 <= j < |from| && from[j] == r[k];
    }
  }

  // ---------------------------------------------------------------------------
  // FindMatches

  /** The regex matches that are not empty. */
  function PositiveOnly(ms: seq<Span>): (r: seq<Span>)
    ensures Positive(r)
    ensures forall k :: 0 <= k < |r| ==> r[k] in ms
  {
    if ms == [] then []
    else (if ms[0].length > 0 then [ms[0]] else []) + PositiveOnly(ms[1..])
  }

  /** The raw spans of the expression in the text, before sorting: every non-empty
      regex match, or the plain-mode scan. */
  function RawMatches(s: FilterSettings, text: string, rt: Runtime): (r: seq<Span>)
    requires rt.Valid()
    requires !IsBlank(s.expression)
    ensures InBounds(r, |text|) && Positive(r)
  {
    if s.useRegex then PositiveOnly(rt.regexMatches(s.expression, text, !s.matchCase))
    else
      var r := PlainScan(text, s.expression, ComparisonFor(s.matchCase, rt), 0);
      assert |s.expression| > 0;
      r
  }

  /** The highlight spans of a tab's settings in a text: none for a blank expression,
      the failure of a regex that does not parse, otherwise the raw matches sorted by
      start with every span that overlaps an earlier kept one dropped. */
  function Matches(s: FilterSettings, text: string, rt: Runtime): (r: Result<seq<Span>, string>)
    requires rt.Valid()
    ensures r.Success? <==> PatternOk(s, rt)
    ensures r.Failure? ==> rt.regexError(s.expression, !s.matchCase) == Some(r.error)
    ensures IsBlank(s.expression) ==> r == Success([])
    ensures r.Success? ==> WellFormedSpans(r.value, |text|)
  {
    if IsBlank(s.expression) then Success([])
    else if s.useRegex && rt.regexError(s.expression, !s.matchCase).Some? then
      Failure(rt.regexError(s.expression, !s.matchCase).value)
    else
      var raw := RawMatches(s, text, rt);
      var sorted := SortByStart(raw);
      SameElements(sorted, raw);
      DrawnFrom(sorted, raw, |text|);
      DrawnFrom(DropOverlaps(sorted, -1), sorted, |text|);
      Success(DropOverlaps(sorted, -1))
  }

  /** In plain mode the scan is already in order and free of overlaps, so the spans
      are exactly the scan's: each an occurrence of the expression under the chosen
      comparison, as long as the expression, each next one at least max(1, length)
      further on. */
  lemma PlainMatchesAreScan(s: FilterSettings, text: string, rt: Runtime)
    requires rt.Valid() && !IsBlank(s.expression) && !s.useRegex
    ensures Matches(s, text, rt) == Success(PlainScan(text, s.expression, ComparisonFor(s.matchCase, rt), 0))
  {
    var scan := PlainScan(text, s.expression, ComparisonFor(s.matchCase, rt), 0);
    assert |s.expression| > 0;
    SortSortedIdentity(scan);
    DropOverlapsIdentity(scan, -1);
  }

  /** In plain mode the verdict and the highlighting agree: a text is a match exactly
      when FindMatches finds a span in it. */
  lemma PlainVerdictAgreesWithSpans(entry: LogEntry, s: FilterSettings, rt: Runtime)
    requires rt.Valid() && !IsBlank(s.expression) && !s.useRegex
    ensures IsMatch(entry, s.expression, s.useRegex, s.matchCase, rt).Success?
    ensures IsMatch(entry, s.expression, s.useRegex, s.matchCase, rt).value <==>
      Matches(s, entry.text, rt).value != []
  {
    var cmp := ComparisonFor(s.matchCase, rt);
    PlainMatchesAreScan(s, entry.text, rt);
    assert |s.expression| > 0;
    if IsMatch(entry, s.expression, s.useRegex, s.matchCase, rt).value {
      var p :| OccursAt(entry.text, s.expression, p, cmp);
      PlainScanComplete(entry.text, s.expression, cmp, 0, p);
    }
    var scan := PlainScan(entry.text, s.expression, cmp, 0);
    if scan != [] {
      assert OccursAt(entry.text, s.expression, scan[0].start, cmp);
    }
  }

  /** A plain expression that includes an entry also highlights its display line: the
      occurrence in the text reappears after the timestamp prefix. */
  lemma IncludedPlainLineIsHighlighted(entry: LogEntry, s: FilterSettings, rt: Runtime)
    requires rt.Valid() && !IsBlank(s.expression) && !s.useRegex
    requires IsMatch(entry, s.expression, s.useRegex, s.matchCase, rt) == Success(true)
    ensures Matches(s, FormatEntry(entry), rt).Success?
    ensures Matches(s, FormatEntry(entry), rt).value != []
  {
    var cmp := ComparisonFor(s.matchCase, rt);
    var p :| OccursAt(entry.text, s.expression, p, cmp);
    var prefix := FormatTimestamp(entry.timestamp) + " | ";
    assert FormatEntry(entry) == prefix + entry.text;
    OccursInSuffix(prefix, entry.text, s.expression, p, cmp);
    PlainVerdictAgreesWithSpans(LogEntry(entry.timestamp, FormatEntry(entry)), s, rt);
  }

  predicate AllEmpty(ms: seq<Span>) {
    forall k :: 0 <= k < |ms| ==> ms[k].length == 0
  }

  /** Regex mode differs: an entry whose text has only empty matches is included, yet
      a display line with no non-empty match gets no highlight and is rendered as one
      default-styled segment. */
  lemma ZeroLengthRegexMatchesIncludeUnhighlighted(entry: LogEntry, s: FilterSettings, rt: Runtime)
    requires rt.Valid() && !IsBlank(s.expression) && s.useRegex
    requires rt.regexError(s.expression, !s.matchCase) == None
    requires rt.regexMatches(s.expression, entry.text, !s.matchCase) != []
    requires AllEmpty(rt.regexMatches(s.expression, FormatEntry(entry), !s.matchCase))
    ensures IsMatch(entry, s.expression, s.useRegex, s.matchCase, rt) == Success(true)
    ensures Matches(s, FormatEntry(entry), rt) == Success([])
  {
    var raw := RawMatches(s, FormatEntry(entry), rt);
  }

  // ---------------------------------------------------------------------------
  // Segments

  /** The foreground of unhighlighted text under the current theme. */
  function DefaultForeground(isDarkTheme: bool): Brush {
    if isDarkTheme then Gainsboro else Black
  }

  /** What a tab contributes to rendering: its matching settings and its brushes. */
  datatype TabStyle = TabStyle(filter: FilterSettings, foreground: Brush, background: Brush)

  /** The default-styled segment of text[from..to], or none when it is empty. */
  function Gap(text: string, from: nat, to: nat, base: Brush): (r: seq<LineSegment>)
    requires from <= to <= |text|
    ensures Concat(r) == text[from..to]
  {
    if to > from then [LineSegment(text[from..to], base, Transparent)] else []
  }

  lemma ConcatParts(a: seq<LineSegment>, b: seq<LineSegment>, c: seq<LineSegment>)
    ensures Concat(a + b + c) == Concat(a) + Concat(b) + Concat(c)
    ensures |b| == 1 ==> Concat(b) == b[0].text
  {
    ConcatAppend(a, b);
    ConcatAppend(a + b, c);
    if |b| == 1 {
      assert Concat(b) == b[0].text + Concat([]);
    }
  }

  lemma SliceParts(text: string, i: nat, j: nat, k: nat)
    requires i <= j <= k <= |text|
    ensures text[i..] == text[i..j] + text[j..k] + text[k..]
  {
  }

  /** The segments of text[cursor..]: a default-styled segment for each non-empty gap
      before a span, a tab-styled segment for each span, and a default-styled segment
      for a non-empty tail. Their texts put together give text[cursor..] back. */
  function SegmentsFrom(text: string, spans: seq<Span>, cursor: nat,
                        fg: Brush, bg: Brush, base: Brush): (r: seq<LineSegment>)
    requires cursor <= |text| && InBounds(spans, |text|) && NonOverlapping(spans)
    requires StartsFrom(spans, cursor)
    ensures Concat(r) == text[cursor..]
    decreases |spans|
  {
    if spans == [] then
      if cursor < |text| then [LineSegment(text[cursor..], base, Transparent)] else []
    else
      var sp := spans[0];
      var gap := Gap(text, cursor, sp.start, base);
      var hit := [LineSegment(text[sp.start..End(sp)], fg, bg)];
      TailWellFormed(spans, |text|);
      var rest := SegmentsFrom(text, spans[1..], End(sp), fg, bg, base);
      ConcatParts(gap, hit, rest);
      SliceParts(text, cursor, sp.start, End(sp));
      gap + hit + rest
  }

  /** The tail of a span list meets the conditions of SegmentsFrom from the end of its head. */
  lemma TailWellFormed(spans: seq<Span>, n: nat)
    requires spans != [] && InBounds(spans, n) && NonOverlapping(spans)
    ensures InBounds(spans[1..], n) && NonOverlapping(spans[1..]) && StartsFrom(spans[1..], End(spans[0]))
    ensures Positive(spans) ==> Positive(spans[1..])
  {
    assert forall k :: 0 <= k < |spans[1..]| ==> spans[1..][k] == spans[k + 1];
  }

  /** SegmentsFrom on a non-empty span list: gap, hit, then the rest. */
  lemma SegmentsFromCons(text: string, spans: seq<Span>, cursor: nat, fg: Brush, bg: Brush, base: Brush)
    requires spans != [] && cursor <= |text| && InBounds(spans, |text|) && NonOverlapping(spans)
    requires StartsFrom(spans, cursor)
    ensures cursor <= spans[0].start && End(spans[0]) <= |text|
    ensures InBounds(spans[1..], |text|) && NonOverlapping(spans[1..]) && StartsFrom(spans[1..], End(spans[0]))
    ensures Positive(spans) ==> Positive(spans[1..])
    ensures SegmentsFrom(text, spans, cursor, fg, bg, base)
      == Gap(text, cursor, spans[0].start, base)
         + [LineSegment(text[spans[0].start..End(spans[0])], fg, bg)]
         + SegmentsFrom(text, spans[1..], End(spans[0]), fg, bg, base)
  {
    TailWellFormed(spans, |text|);
  }

  /** Where each span's segment sits in SegmentsFrom(text, spans, cursor, …): after a
      gap segment when the span starts past the cursor, then after the rest's positions. */
  function HitPositions(spans: seq<Span>, cursor: nat): (h: seq<nat>)
    ensures |h| == |spans|
    decreases |spans|
  {
    if spans == [] then []
    else
      var g := if spans[0].start > cursor then 1 else 0;
      [g] + Shifted(HitPositions(spans[1..], End(spans[0])), g + 1)
  }

  function Shifted(h: seq<nat>, d: nat): (r: seq<nat>)
    ensures |r| == |h| && forall i :: 0 <= i < |h| ==> r[i] == h[i] + d
  {
    seq(|h|, i requires 0 <= i < |h| => h[i] + d)
  }

  /** Segment h[k] is span k's text in the tab's brushes, and the segments before it
      cover the text from the cursor up to where the span starts. */
  predicate SpanSegmentsAt(r: seq<LineSegment>, h: seq<nat>, text: string, spans: seq<Span>,
                           cursor: nat, fg: Brush, bg: Brush)
    requires |h| == |spans| && InBounds(spans, |text|)
  {
    forall k :: 0 <= k < |h| ==>
      h[k] < |r| && r[h[k]] == LineSegment(text[spans[k].start..End(spans[k])], fg, bg)
      && cursor + |Concat(r[..h[k]])| == spans[k].start
  }

  predicate StrictlyIncreasing(h: seq<nat>) {
    forall k, l :: 0 <= k < l < |h| ==> h[k] < h[l]
  }

  /** Every segment that is not a span's carries the default style. */
  predicate DefaultElsewhere(r: seq<LineSegment>, h: seq<nat>, base: Brush) {
    forall j :: 0 <= j < |r| && j !in h ==> r[j].foreground == base && r[j].background == Transparent
  }

  /** The segments come in the order of the text: span k's segment is at position h[k],
      the positions strictly increase, and everything else is default-styled text. */
  lemma {:induction false} SegmentsFromPositions(text: string, spans: seq<Span>, cursor: nat,
                                                 fg: Brush, bg: Brush, base: Brush)
    requires cursor <= |text| && InBounds(spans, |text|) && NonOverlapping(spans)
    requires StartsFrom(spans, cursor)
    ensures SpanSegmentsAt(SegmentsFrom(text, spans, cursor, fg, bg, base), HitPositions(spans, cursor),
                           text, spans, cursor, fg, bg)
    ensures StrictlyIncreasing(HitPositions(spans, cursor))
    ensures DefaultElsewhere(SegmentsFrom(text, spans, cursor, fg, bg, base), HitPositions(spans, cursor), base)
    decreases |spans|
  {
    if spans != [] {
      var sp := spans[0];
      var gap := Gap(text, cursor, sp.start, base);
      var rh := HitPositions(spans[1..], End(sp));
      assert HitPositions(spans, cursor) == [|gap|] + Shifted(rh, |gap| + 1);
      hide SegmentsFrom, HitPositions, SpanSegmentsAt, StrictlyIncreasing, DefaultElsewhere, Concat, Gap;
      SegmentsFromCons(text, spans, cursor, fg, bg, base);
      SegmentsFromPositions(text, spans[1..], End(sp), fg, bg, base);
      var hit := LineSegment(text[sp.start..End(sp)], fg, bg);
      var rest := SegmentsFrom(text, spans[1..], End(sp), fg, bg, base);
      ConsPositions(text, spans, cursor, fg, bg, base, gap, hit, rest, rh);
    }
  }

  /** The step of SegmentsFromPositions: a gap and a hit in front of the rest's segments. */
  lemma ConsPositions(text: string, spans: seq<Span>, cursor: nat, fg: Brush, bg: Brush, base: Brush,
                      gap: seq<LineSegment>, hit: LineSegment, rest: seq<LineSegment>, rh: seq<nat>)
    requires spans != [] && cursor <= spans[0].start && InBounds(spans, |text|)
    requires gap == Gap(text, cursor, spans[0].start, base)
    requires hit == LineSegment(text[spans[0].start..End(spans[0])], fg, bg)
    requires |rh| == |spans| - 1
    requires SpanSegmentsAt(rest, rh, text, spans[1..], End(spans[0]), fg, bg)
    requires StrictlyIncreasing(rh) && DefaultElsewhere(rest, rh, base)
    ensures SpanSegmentsAt(gap + [hit] + rest, [|gap|] + Shifted(rh, |gap| + 1), text, spans, cursor, fg, bg)
    ensures StrictlyIncreasing([|gap|] + Shifted(rh, |gap| + 1))
    ensures DefaultElsewhere(gap + [hit] + rest, [|gap|] + Shifted(rh, |gap| + 1), base)
  {
    ConsSpanSegmentsAt(text, spans, cursor, fg, bg, base, gap, hit, rest, rh);
    ConsDefaultElsewhere(gap, hit, rest, rh, base);
  }

  lemma ConsSpanSegmentsAt(text: string, spans: seq<Span>, cursor: nat, fg: Brush, bg: Brush, base: Brush,
                           gap: seq<LineSegment>, hit: LineSegment, rest: seq<LineSegment>, rh: seq<nat>)
    requires spans != [] && cursor <= spans[0].start && InBounds(spans, |text|)
    requires gap == Gap(text, cursor, spans[0].start, base)
    requires hit == LineSegment(text[spans[0].start..End(spans[0])], fg, bg)
    requires |rh| == |spans| - 1
    requires SpanSegmentsAt(rest, rh, text, spans[1..], End(spans[0]), fg, bg)
    ensures SpanSegmentsAt(gap + [hit] + rest, [|gap|] + Shifted(rh, |gap| + 1), text, spans, cursor, fg, bg)
  {
    var sp := spans[0];
    var g := |gap|;
    var r := gap + [hit] + rest;
    var h := [g] + Shifted(rh, g + 1);
    assert |Concat(gap)| == sp.start - cursor by {
      if g == 1 {
        assert Concat(gap) == text[cursor..sp.start] + Concat([]);
      }
    }
    hide Gap, Concat;
    forall k | 0 <= k < |h|
      ensures h[k] < |r| && r[h[k]] == LineSegment(text[spans[k].start..End(spans[k])], fg, bg)
      ensures cursor + |Concat(r[..h[k]])| == spans[k].start
    {
      if k == 0 {
        assert r[..g] == gap;
      } else {
        var m := rh[k - 1];
        assert spans[k] == spans[1..][k - 1];
        assert m < |rest| && rest[m] == LineSegment(text[spans[k].start..End(spans[k])], fg, bg);
        assert End(sp) + |Concat(rest[..m])| == spans[k].start;
        PrefixAfterHit(gap, hit, rest, m);
      }
    }
  }

  /** The segments before position |gap| + 1 + m of gap + [hit] + rest. */
  lemma PrefixAfterHit(gap: seq<LineSegment>, hit: LineSegment, rest: seq<LineSegment>, m: nat)
    requires m <= |rest|
    ensures m < |rest| ==> (gap + [hit] + rest)[|gap| + 1 + m] == rest[m]
    ensures |Concat((gap + [hit] + rest)[..|gap| + 1 + m])| == |Concat(gap)| + |hit.text| + |Concat(rest[..m])|
  {
    assert (gap + [hit] + rest)[..|gap| + 1 + m] == gap + [hit] + rest[..m];
    ConcatParts(gap, [hit], rest[..m]);
  }

  lemma ConsDefaultElsewhere(gap: seq<LineSegment>, hit: LineSegment, rest: seq<LineSegment>,
                             rh: seq<nat>, base: Brush)
    requires forall j :: 0 <= j < |gap| ==> gap[j].foreground == base && gap[j].background == Transparent
    requires StrictlyIncreasing(rh) && DefaultElsewhere(rest, rh, base)
    ensures StrictlyIncreasing([|gap|] + Shifted(rh, |gap| + 1))
    ensures DefaultElsewhere(gap + [hit] + rest, [|gap|] + Shifted(rh, |gap| + 1), base)
  {
    var g := |gap|;
    var r := gap + [hit] + rest;
    var h := [g] + Shifted(rh, g + 1);
    forall j | 0 <= j < |r| && j !in h
      ensures r[j].foreground == base && r[j].background == Transparent
    {
      if j > g {
        assert r[j] == rest[j - g - 1];
      }
    }
  }

  /** Every segment carries the default style or the tab's. */
  predicate Styled(r: seq<LineSegment>, fg: Brush, bg: Brush, base: Brush) {
    forall j :: 0 <= j < |r| ==>
      (r[j].foreground == base && r[j].background == Transparent) ||
      (r[j].foreground == fg && r[j].background == bg)
  }

  predicate NonEmptyTexts(r: seq<LineSegment>) {
    forall j :: 0 <= j < |r| ==> r[j].text != []
  }

  /** Every segment carries the default style or the tab's, and none is empty when no
      span is. */
  lemma {:induction false} SegmentsFromStyled(text: string, spans: seq<Span>, cursor: nat,
                                              fg: Brush, bg: Brush, base: Brush)
    requires cursor <= |text| && InBounds(spans, |text|) && NonOverlapping(spans)
    requires StartsFrom(spans, cursor)
    ensures Styled(SegmentsFrom(text, spans, cursor, fg, bg, base), fg, bg, base)
    ensures Positive(spans) ==> NonEmptyTexts(SegmentsFrom(text, spans, cursor, fg, bg, base))
    decreases |spans|
  {
    if spans != [] {
      var sp := spans[0];
      SegmentsFromCons(text, spans, cursor, fg, bg, base);
      SegmentsFromStyled(text, spans[1..], End(sp), fg, bg, base);
      var front := Gap(text, cursor, sp.start, base) + [LineSegment(text[sp.start..End(sp)], fg, bg)];
      var rest := SegmentsFrom(text, spans[1..], End(sp), fg, bg, base);
      assert Styled(front, fg, bg, base);
      StyledAppend(front, rest, fg, bg, base);
      if Positive(spans) {
        assert |text[sp.start..End(sp)]| == sp.length > 0;
        assert NonEmptyTexts(front);
      }
    }
  }

  lemma StyledAppend(a: seq<LineSegment>, b: seq<LineSegment>, fg: Brush, bg: Brush, base: Brush)
    ensures Styled(a, fg, bg, base) && Styled(b, fg, bg, base) ==> Styled(a + b, fg, bg, base)
    ensures NonEmptyTexts(a) && NonEmptyTexts(b) ==> NonEmptyTexts(a + b)
  {
  }

  /** The segments of a display line for a well-formed span list: the whole line in the
      default style when there are no spans, else the gaps and the hits in order. */
  function Segmentation(text: string, spans: seq<Span>, fg: Brush, bg: Brush, base: Brush)
    : (r: seq<LineSegment>)
    requires WellFormedSpans(spans, |text|)
    ensures Concat(r) == text
  {
    if spans == [] then
      assert Concat([LineSegment(text, base, Transparent)]) == text + "";
      [LineSegment(text, base, Transparent)]
    else
      SegmentsFrom(text, spans, 0, fg, bg, base)
  }

  /** The layout of a segmentation: each span's segment at its position, in the order
      of the text, the rest default-styled, and no segment empty unless the line is. */
  lemma SegmentationLayout(text: string, spans: seq<Span>, fg: Brush, bg: Brush, base: Brush)
    requires WellFormedSpans(spans, |text|)
    ensures SpanSegmentsAt(Segmentation(text, spans, fg, bg, base), HitPositions(spans, 0), text, spans, 0, fg, bg)
    ensures StrictlyIncreasing(HitPositions(spans, 0))
    ensures DefaultElsewhere(Segmentation(text, spans, fg, bg, base), HitPositions(spans, 0), base)
    ensures Styled(Segmentation(text, spans, fg, bg, base), fg, bg, base)
    ensures text != [] ==> NonEmptyTexts(Segmentation(text, spans, fg, bg, base))
    ensures forall k :: 0 <= k < |spans| ==>
      LineSegment(text[spans[k].start..End(spans[k])], fg, bg) in Segmentation(text, spans, fg, bg, base)
  {
    if spans != [] {
      SegmentationLayoutSpans(text, spans, fg, bg, base);
    }
  }

  lemma SegmentationLayoutSpans(text: string, spans: seq<Span>, fg: Brush, bg: Brush, base: Brush)
    requires WellFormedSpans(spans, |text|) && spans != []
    ensures SpanSegmentsAt(Segmentation(text, spans, fg, bg, base), HitPositions(spans, 0), text, spans, 0, fg, bg)
    ensures StrictlyIncreasing(HitPositions(spans, 0))
    ensures DefaultElsewhere(Segmentation(text, spans, fg, bg, base), HitPositions(spans, 0), base)
    ensures Styled(Segmentation(text, spans, fg, bg, base), fg, bg, base)
    ensures text != [] ==> NonEmptyTexts(Segmentation(text, spans, fg, bg, base))
    ensures forall k :: 0 <= k < |spans| ==>
      LineSegment(text[spans[k].start..End(spans[k])], fg, bg) in Segmentation(text, spans, fg, bg, base)
  {
    var r := Segmentation(text, spans, fg, bg, base);
    assert r == SegmentsFrom(text, spans, 0, fg, bg, base);
    hide Segmentation, SegmentsFrom, HitPositions, Concat;
    SegmentsFromPositions(text, spans, 0, fg, bg, base);
    SegmentsFromStyled(text, spans, 0, fg, bg, base);
    SpanSegmentsMembers(r, HitPositions(spans, 0), text, spans, 0, fg, bg);
  }

  lemma SpanSegmentsMembers(r: seq<LineSegment>, h: seq<nat>, text: string, spans: seq<Span>,
                            cursor: nat, fg: Brush, bg: Brush)
    requires |h| == |spans| && InBounds(spans, |text|)
    requires SpanSegmentsAt(r, h, text, spans, cursor, fg, bg)
    ensures forall k :: 0 <= k < |spans| ==> LineSegment(text[spans[k].start..End(spans[k])], fg, bg) in r
  {
    forall k | 0 <= k < |spans|
      ensures LineSegment(text[spans[k].start..End(spans[k])], fg, bg) in r
    {
      assert r[h[k]] == LineSegment(text[spans[k].start..End(spans[k])], fg, bg);
    }
  }

  /** BuildSegments: the segmentation of a display line by a tab, or the failure of a
      regex that does not parse. */
  function Segmented(style: TabStyle, text: string, isDarkTheme: bool, rt: Runtime)
    : (r: Result<seq<LineSegment>, string>)
    requires rt.Valid()
    ensures r.Success? <==> PatternOk(style.filter, rt)
    ensures r.Success? ==> Concat(r.value) == text
    ensures Matches(style.filter, text, rt) == Success([]) ==>
      r == Success([LineSegment(text, DefaultForeground(isDarkTheme), Transparent)])
    ensures Matches(style.filter, text, rt).Success? ==>
      var spans := Matches(style.filter, text, rt).value;
      var h := HitPositions(spans, 0);
      (forall k :: 0 <= k < |spans| ==>
         LineSegment(text[spans[k].start..End(spans[k])], style.foreground, style.background) in r.value)
      && SpanSegmentsAt(r.value, h, text, spans, 0, style.foreground, style.background)
      && StrictlyIncreasing(h)
      && DefaultElsewhere(r.value, h, DefaultForeground(isDarkTheme))
    ensures r.Success? ==> Styled(r.value, style.foreground, style.background, DefaultForeground(isDarkTheme))
    ensures r.Success? && text != [] ==> NonEmptyTexts(r.value)
  {
    match Matches(style.filter, text, rt)
    case Failure(e) => Failure(e)
    case Success(spans) =>
      SegmentationLayout(text, spans, style.foreground, style.background, DefaultForeground(isDarkTheme));
      Success(Segmentation(text, spans, style.foreground, style.background, DefaultForeground(isDarkTheme)))
  }

  /** A blank expression passes every entry through, unhighlighted: one default-styled
      segment holding the whole display line. */
  lemma BlankExpressionPassesThrough(style: TabStyle, entry: LogEntry, isDarkTheme: bool, rt: Runtime)
    requires rt.Valid() && IsBlank(style.filter.expression)
    ensures IsMatch(entry, style.filter.expression, style.filter.useRegex, style.filter.matchCase, rt) == Success(true)
    ensures Segmented(style, FormatEntry(entry), isDarkTheme, rt) ==
      Success([LineSegment(FormatEntry(entry), DefaultForeground(isDarkTheme), Transparent)])
  {
  }

  // ---------------------------------------------------------------------------
  // The loops as the source writes them

  /** FindMatches: the collecting loop of the matching mode, the sort and the greedy pass. */
  method FindMatches(s: FilterSettings, text: string, rt: Runtime) returns (r: Result<seq<Span>, string>)
    requires rt.Valid()
    ensures r == Matches(s, text, rt)
  {
    if IsBlank(s.expression) {
      return Success([]);
    }
    var matches: seq<Span>;
    if s.useRegex {
      var error := rt.regexError(s.expression, !s.matchCase);
      if error.Some? {
        return Failure(error.value);
      }
      matches := CollectRegexMatches(rt.regexMatches(s.expression, text, !s.matchCase));
    } else {
      matches := CollectPlainMatches(text, s.expression, ComparisonFor(s.matchCase, rt));
    }
    var sorted := SortByStart(matches);
    var nonOverlapping := RemoveOverlaps(sorted);
    return Success(nonOverlapping);
  }

  lemma PositiveOnlyStep(ms: seq<Span>, i: nat)
    requires i < |ms|
    ensures PositiveOnly(ms[i..]) == (if ms[i].length > 0 then [ms[i]] else []) + PositiveOnly(ms[i + 1..])
  {
    assert ms[i..][1..] == ms[i + 1..];
  }

  lemma PlainScanStep(text: string, expression: string, cmp: Comparison, idx: nat, prefix: seq<Span>)
    requires idx < |text| && IndexOf(text, expression, idx, cmp) >= 0
    ensures var found := IndexOf(text, expression, idx, cmp);
      prefix + PlainScan(text, expression, cmp, idx)
      == (prefix + [Span(found, |expression|)]) + PlainScan(text, expression, cmp, found + Max(1, |expression|))
  {
  }

  /** The scan ends at the end of the text or when no occurrence is left. */
  lemma PlainScanDone(text: string, expression: string, cmp: Comparison, idx: nat)
    requires idx >= |text| || IndexOf(text, expression, idx, cmp) < 0
    ensures PlainScan(text, expression, cmp, idx) == []
  {
  }

  /** The regex branch's loop: keeps every match of positive length, in order. */
  method CollectRegexMatches(regexMatches: seq<Span>) returns (matches: seq<Span>)
    ensures matches == PositiveOnly(regexMatches)
  {
    assert PositiveOnly([]) == [];
    hide PositiveOnly;
    matches := [];
    for i := 0 to |regexMatches|
      invariant matches + PositiveOnly(regexMatches[i..]) == PositiveOnly(regexMatches)
    {
      PositiveOnlyStep(regexMatches, i);
      if regexMatches[i].length > 0 {
        assert matches + [regexMatches[i]] + PositiveOnly(regexMatches[i + 1..])
            == matches + ([regexMatches[i]] + PositiveOnly(regexMatches[i + 1..]));
        matches := matches + [regexMatches[i]];
      } else {
        assert [] + PositiveOnly(regexMatches[i + 1..]) == PositiveOnly(regexMatches[i + 1..]);
      }
    }
    assert regexMatches[|regexMatches|..] == [];
  }

  /** The plain branch's loop: IndexOf from the resume index until no occurrence is left. */
  method CollectPlainMatches(text: string, expression: string, cmp: Comparison) returns (matches: seq<Span>)
    ensures matches == PlainScan(text, expression, cmp, 0)
  {
    hide PlainScan;
    matches := [];
    var idx: nat := 0;
    while idx < |text|
      invariant matches + PlainScan(text, expression, cmp, idx) == PlainScan(text, expression, cmp, 0)
      decreases |text| - idx
    {
      var found := IndexOf(text, expression, idx, cmp);
      if found < 0 {
        break;
      }
      PlainScanStep(text, expression, cmp, idx, matches);
      matches := matches + [Span(found, |expression|)];
      idx := found + Max(1, |expression|);
    }
    PlainScanDone(text, expression, cmp, idx);
  }

  /** The greedy loop over the sorted spans. */
  method RemoveOverlaps(sorted: seq<Span>) returns (nonOverlapping: seq<Span>)
    ensures nonOverlapping == DropOverlaps(sorted, -1)
  {
    nonOverlapping := [];
    var lastEnd: int := -1;
    assert sorted[0..] == sorted && sorted[|sorted|..] == [] && forall e :: DropOverlaps([], e) == [];
    hide DropOverlaps;
    for i := 0 to |sorted|
      invariant nonOverlapping + DropOverlaps(sorted[i..], lastEnd) == DropOverlaps(sorted, -1)
    {
      DropOverlapsStep(sorted, i, lastEnd);
      if sorted[i].start >= lastEnd {
        assert nonOverlapping + [sorted[i]] + DropOverlaps(sorted[i + 1..], End(sorted[i]))
            == nonOverlapping + ([sorted[i]] + DropOverlaps(sorted[i + 1..], End(sorted[i])));
        nonOverlapping := nonOverlapping + [sorted[i]];
        lastEnd := End(sorted[i]);
      }
    }
  }

  /** One step of the greedy pass: the span at i is kept exactly when it starts at or
      after the end of the last kept span. */
  lemma DropOverlapsStep(spans: seq<Span>, i: nat, lastEnd: int)
    requires i < |spans|
    ensures DropOverlaps(spans[i..], lastEnd)
         == if spans[i].start >= lastEnd
            then [spans[i]] + DropOverlaps(spans[i + 1..], End(spans[i]))
            else DropOverlaps(spans[i + 1..], lastEnd)
  {
    assert spans[i..][1..] == spans[i + 1..];
  }

  /** BuildSegments: the cursor loop over the spans. */
  method BuildSegments(style: TabStyle, text: string, isDarkTheme: bool, rt: Runtime)
    returns (r: Result<seq<LineSegment>, string>)
    requires rt.Valid()
    ensures r == Segmented(style, text, isDarkTheme, rt)
  {
    var baseForeground := DefaultForeground(isDarkTheme);
    var found := FindMatches(style.filter, text, rt);
    if found.Failure? {
      return Failure(found.error);
    }
    var matches := found.value;
    if |matches| == 0 {
      return Success([LineSegment(text, baseForeground, Transparent)]);
    }
    var segments := CutSegments(text, matches, style.foreground, style.background, baseForeground);
    return Success(segments);
  }

  /** What the cursor loop keeps: the spans still to cut lie in the text, do not
      overlap and start at or after the cursor, and the segments cut so far followed by
      the segmentation of the rest are the segmentation of the whole line. */
  predicate CutProgress(text: string, spans: seq<Span>, remaining: seq<Span>, cursor: nat,
                        segments: seq<LineSegment>, fg: Brush, bg: Brush, base: Brush)
    requires InBounds(spans, |text|) && NonOverlapping(spans)
  {
    && cursor <= |text| && InBounds(remaining, |text|) && NonOverlapping(remaining)
    && StartsFrom(remaining, cursor)
    && segments + SegmentsFrom(text, remaining, cursor, fg, bg, base) == SegmentsFrom(text, spans, 0, fg, bg, base)
  }

  /** One step of the cursor loop: the gap before the next span, if any, then the span. */
  lemma CutStep(text: string, spans: seq<Span>, remaining: seq<Span>, cursor: nat,
                segments: seq<LineSegment>, fg: Brush, bg: Brush, base: Brush)
    requires InBounds(spans, |text|) && NonOverlapping(spans)
    requires remaining != [] && CutProgress(text, spans, remaining, cursor, segments, fg, bg, base)
    ensures cursor <= remaining[0].start && End(remaining[0]) <= |text|
    ensures CutProgress(text, spans, remaining[1..], End(remaining[0]),
      segments + Gap(text, cursor, remaining[0].start, base)
        + [LineSegment(text[remaining[0].start..End(remaining[0])], fg, bg)],
      fg, bg, base)
  {
    hide SegmentsFrom, Gap;
    SegmentsFromCons(text, remaining, cursor, fg, bg, base);
    var sp := remaining[0];
    var front := Gap(text, cursor, sp.start, base) + [LineSegment(text[sp.start..End(sp)], fg, bg)];
    var rest := SegmentsFrom(text, remaining[1..], End(sp), fg, bg, base);
    assert (segments + front) + rest == segments + (front + rest);
  }

  /** When no span is left, the tail after the cursor (if any) completes the line. */
  lemma CutFinish(text: string, spans: seq<Span>, cursor: nat,
                  segments: seq<LineSegment>, fg: Brush, bg: Brush, base: Brush)
    requires InBounds(spans, |text|) && NonOverlapping(spans)
    requires CutProgress(text, spans, [], cursor, segments, fg, bg, base)
    ensures segments + (if cursor < |text| then [LineSegment(text[cursor..], base, Transparent)] else [])
      == SegmentsFrom(text, spans, 0, fg, bg, base)
  {
  }

  /** The loop of BuildSegments that cuts the line at the spans. */
  method CutSegments(text: string, spans: seq<Span>, fg: Brush, bg: Brush, base: Brush)
    returns (segments: seq<LineSegment>)
    requires InBounds(spans, |text|) && NonOverlapping(spans)
    ensures segments == SegmentsFrom(text, spans, 0, fg, bg, base)
  {
    segments := [];
    var cursor: nat := 0;
    var remaining := spans;
    while remaining != []
      invariant CutProgress(text, spans, remaining, cursor, segments, fg, bg, base)
      decreases |remaining|
    {
      CutStep(text, spans, remaining, cursor, segments, fg, bg, base);
      var sp := remaining[0];
      var gap := if sp.start > cursor then [LineSegment(text[cursor..sp.start], base, Transparent)] else [];
      assert gap == Gap(text, cursor, sp.start, base);
      segments := segments + gap + [LineSegment(text[sp.start..End(sp)], fg, bg)];
      cursor := End(sp);
      remaining := remaining[1..];
    }
    CutFinish(text, spans, cursor, segments, fg, bg, base);
    if cursor < |text| {
      segments := segments + [LineSegment(text[cursor..], base, Transparent)];
    }
  }
}
