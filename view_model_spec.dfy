/** What the main view model of UartLogTerminal/ViewModels/MainViewModel.cs computes,
    stated on values: the outcome of matching an entry against a tab, the display
    line of an entry, the lines a tab shows for a stretch of history, the raw view's
    lines, and the footer. */
module ViewSpec {
  import opened Text
  import opened Models
  import opened FilterEngine
  import opened Highlight
  import opened History

  /** The footer text, by the template that produced it. */
  datatype Footer =
    | Ready
    | Counters(received: nat, visibleRaw: nat, selectedFilterLines: nat, filters: nat)
    | TabError(tabName: string, error: string)
    | Loaded(count: nat, fileName: string)
    | LoadFailed(message: string)

  /** TryIsMatch: the verdict of the filter engine, or the error text reported for a
      pattern that does not parse. */
  function TryIsMatch(settings: FilterSettings, entry: LogEntry, rt: Runtime): (r: Result<bool, string>)
    ensures r.Success? <==> PatternOk(settings, rt)
    ensures r.Success? ==>
      r.value == IsMatch(entry, settings.expression, settings.useRegex, settings.matchCase, rt).value
    ensures r.Failure? ==>
      r.error == "Filter error: " + rt.regexError(settings.expression, !settings.matchCase).value
    ensures r.Failure? ==> !IsBlank(r.error)
  {
    match IsMatch(entry, settings.expression, settings.useRegex, settings.matchCase, rt)
    case Success(isMatch) => Success(isMatch)
    case Failure(message) =>
      var error := "Filter error: " + message;
      assert error[0] == 'F' && !IsWhiteSpace(error[0]);
      Failure(error)
  }

  /** Whether the outcome of an entry does not depend on the entry: a pattern that
      does not parse fails on every entry. */
  lemma TryIsMatchFailsAlike(settings: FilterSettings, a: LogEntry, b: LogEntry, rt: Runtime)
    ensures TryIsMatch(settings, a, rt).Failure? <==> TryIsMatch(settings, b, rt).Failure?
    ensures TryIsMatch(settings, a, rt).Failure? ==> TryIsMatch(settings, a, rt) == TryIsMatch(settings, b, rt)
  {
  }

  /** The ColoredLogLine AppendLineToTab adds for a display line. */
  function Rendered(style: TabStyle, text: string, isDarkTheme: bool, rt: Runtime): (l: ColoredLogLine)
    requires rt.Valid() && PatternOk(style.filter, rt)
    ensures l.text == text && WellFormedLine(l)
  {
    ColoredLogLine(text, Segmented(style, text, isDarkTheme, rt).value)
  }

  /** The lines a tab shows for these entries, uncapped: the rendered display line of
      every entry its filter includes, in order. */
  function MatchingLines(style: TabStyle, entries: seq<LogEntry>, isDarkTheme: bool, rt: Runtime)
    : (r: seq<ColoredLogLine>)
    requires rt.Valid() && PatternOk(style.filter, rt)
    ensures |r| <= |entries|
    decreases |entries|
  {
    if entries == [] then []
    else
      var last := entries[|entries| - 1];
      MatchingLines(style, entries[..|entries| - 1], isDarkTheme, rt)
        + (if TryIsMatch(style.filter, last, rt).value
           then [Rendered(style, FormatEntry(last), isDarkTheme, rt)] else [])
  }

  /** Every line a tab shows is well formed: its segments cover its text. */
  lemma {:induction false} MatchingLinesWellFormed(style: TabStyle, entries: seq<LogEntry>, isDarkTheme: bool,
                                                   rt: Runtime)
    requires rt.Valid() && PatternOk(style.filter, rt)
    ensures forall k :: 0 <= k < |MatchingLines(style, entries, isDarkTheme, rt)| ==>
              WellFormedLine(MatchingLines(style, entries, isDarkTheme, rt)[k])
    decreases |entries|
  {
    if entries != [] {
      MatchingLinesWellFormed(style, entries[..|entries| - 1], isDarkTheme, rt);
    }
  }

  /** Every entry reaches a tab exactly once and in order: matching a concatenation
      is matching each part. */
  lemma {:induction false} MatchingLinesAppend(style: TabStyle, a: seq<LogEntry>, b: seq<LogEntry>,
                                               isDarkTheme: bool, rt: Runtime)
    requires rt.Valid() && PatternOk(style.filter, rt)
    ensures MatchingLines(style, a + b, isDarkTheme, rt)
         == MatchingLines(style, a, isDarkTheme, rt) + MatchingLines(style, b, isDarkTheme, rt)
    decreases |b|
  {
    hide Rendered, TryIsMatch, FormatTimestamp, DecimalValue;
    if b == [] {
      assert a + b == a;
    } else {
      var b' := b[..|b| - 1];
      assert (a + b)[..|a + b| - 1] == a + b';
      assert (a + b)[|a + b| - 1] == b[|b| - 1];
      MatchingLinesAppend(style, a, b', isDarkTheme, rt);
    }
  }

  /** One entry gives its display line exactly when the filter includes it. */
  lemma MatchingLinesSingle(style: TabStyle, e: LogEntry, isDarkTheme: bool, rt: Runtime)
    requires rt.Valid() && PatternOk(style.filter, rt)
    ensures MatchingLines(style, [e], isDarkTheme, rt)
      == if IsMatch(e, style.filter.expression, style.filter.useRegex, style.filter.matchCase, rt).value
         then [Rendered(style, FormatEntry(e), isDarkTheme, rt)] else []
  {
    assert [e][..0] == [];
  }

  /** A tab that has been offered the entries since its last rebuild, one at a time
      and each time capped, shows the newest matches of all of them: offering one more
      entry is the same as rebuilding over one more entry. */
  lemma OfferAgreesWithRebuild(style: TabStyle, lines: seq<ColoredLogLine>, entries: seq<LogEntry>,
                               e: LogEntry, isDarkTheme: bool, rt: Runtime)
    requires rt.Valid() && PatternOk(style.filter, rt)
    requires lines == KeepLast(MatchingLines(style, entries, isDarkTheme, rt), MaxBufferedLines)
    ensures (if TryIsMatch(style.filter, e, rt).value
             then KeepLast(lines + [Rendered(style, FormatEntry(e), isDarkTheme, rt)], MaxBufferedLines)
             else lines)
         == KeepLast(MatchingLines(style, entries + [e], isDarkTheme, rt), MaxBufferedLines)
  {
    assert (entries + [e])[..|entries|] == entries;
    var m := MatchingLines(style, entries, isDarkTheme, rt);
    if TryIsMatch(style.filter, e, rt).value {
      KeepLastAppend(m, [Rendered(style, FormatEntry(e), isDarkTheme, rt)], MaxBufferedLines);
    } else {
      assert MatchingLines(style, entries + [e], isDarkTheme, rt) == m + [];
      assert m + [] == m;
    }
  }

  /** The raw view's lines for these entries. */
  function FormatAll(entries: seq<LogEntry>): (r: seq<string>)
    ensures |r| == |entries|
    ensures forall k {:trigger r[k]} :: 0 <= k < |entries| ==> r[k] == FormatEntry(entries[k])
  {
    if entries == [] then [] else FormatAll(entries[..|entries| - 1]) + [FormatEntry(entries[|entries| - 1])]
  }

  /** Formatting a suffix of the entries gives the same suffix of their raw lines. */
  lemma FormatAllDrop(entries: seq<LogEntry>, d: nat)
    requires d <= |entries|
    ensures FormatAll(entries[d..]) == FormatAll(entries)[d..]
  {
    hide FormatTimestamp, DecimalValue;
    var a, b := FormatAll(entries[d..]), FormatAll(entries)[d..];
    forall k | 0 <= k < |a|
      ensures a[k] == b[k]
    {
      assert entries[d..][k] == entries[d + k];
    }
  }

  /** The raw lines and the entries stay in step: capping both after an append keeps
      the raw lines the formatting of the entries. */
  lemma FormatAllKeepLast(entries: seq<LogEntry>, e: LogEntry)
    ensures FormatAll(KeepLast(entries + [e], MaxBufferedLines))
         == KeepLast(FormatAll(entries) + [FormatEntry(e)], MaxBufferedLines)
  {
    var all := entries + [e];
    assert all[..|all| - 1] == entries;
    assert FormatAll(all) == FormatAll(entries) + [FormatEntry(e)];
    hide FormatAll, KeepLast;
    var d := |all| - Min(|all|, MaxBufferedLines);
    KeepLastSuffix(all, MaxBufferedLines);
    KeepLastSuffix(FormatAll(all), MaxBufferedLines);
    FormatAllDrop(all, d);
  }
}
