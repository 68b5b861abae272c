/** What the view model of UartLogTerminal/ViewModels/MainViewModel.cs keeps true
    between operations, and that every operation keeps it: the entry and raw buffers
    hold the newest part of the history, the counter counts it, and every tab shows
    the newest matches of what was received since it was last rebuilt. */
module Invariants {
  import opened Text
  import opened Models
  import opened FilterEngine
  import opened Highlight
  import opened History
  import opened Tabs
  import opened ViewSpec
  import opened States

  /** A tab shows the newest capped matches of everything received since its last
      rebuild, history[origin..], or nothing when its pattern does not parse. */
  ghost predicate Consistent(t: TabView, history: seq<LogEntry>, isDarkTheme: bool, rt: Runtime)
    requires rt.Valid()
  {
    && 0 <= t.origin <= |history|
    && t.lines == if PatternOk(t.Settings(), rt)
                  then KeepLast(MatchingLines(t.Style(), history[t.origin..], isDarkTheme, rt), MaxBufferedLines)
                  else []
  }

  /** The buffers hold the newest entries of the history and their display lines,
      the counter counts the history, and the selection, if any, is one of the tabs. */
  ghost predicate Bookkeeping(s: ViewState) {
    && s.entries == KeepLast(s.history, MaxBufferedLines)
    && s.rawLines == FormatAll(s.entries)
    && s.totalReceived == |s.history|
    && s.nextFilterNumber >= 1
    && (s.selected.Some? ==> s.selected.value < |s.tabs|)
  }

  /** Bookkeeping, and every tab consistent with the history. */
  ghost predicate Core(s: ViewState, rt: Runtime)
    requires rt.Valid()
  {
    && Bookkeeping(s)
    && forall k :: 0 <= k < |s.tabs| ==> Consistent(s.tabs[k], s.history, s.isDarkTheme, rt)
  }

  /** The invariant between operations: the core, outside a file load. */
  ghost predicate Inv(s: ViewState, rt: Runtime)
    requires rt.Valid()
  {
    Core(s, rt) && !s.isBulkLoading
  }

  /** Whether the raw text shows the raw lines. */
  ghost predicate RawTextCurrent(s: ViewState) {
    s.rawLogText == Joined(s.rawLines)
  }

  // ---------------------------------------------------------------------------
  // Tabs

  /** Offering the newest entry of the history to a tab consistent with the history
      before it leaves the tab consistent with the whole history. */
  lemma OfferKeepsConsistent(t: TabView, history: seq<LogEntry>, e: LogEntry, isDarkTheme: bool, rt: Runtime)
    requires rt.Valid() && Consistent(t, history, isDarkTheme, rt)
    ensures Consistent(OfferTab(t, e, isDarkTheme, rt), history + [e], isDarkTheme, rt)
    ensures OfferTab(t, e, isDarkTheme, rt).origin == t.origin
  {
    if PatternOk(t.Settings(), rt) {
      assert (history + [e])[t.origin..] == history[t.origin..] + [e];
      OfferAgreesWithRebuild(t.Style(), t.lines, history[t.origin..], e, isDarkTheme, rt);
    }
  }

  /** A rebuilt tab is consistent with the history the buffer came from, and under
      the bookkeeping all of its matches fit: it shows the display line of every
      buffered entry its filter includes. */
  lemma RebuiltTabConsistent(t: TabView, s: ViewState, rt: Runtime)
    requires rt.Valid() && Bookkeeping(s)
    ensures Consistent(RebuiltTab(t, s, rt), s.history, s.isDarkTheme, rt)
    ensures RebuiltTab(t, s, rt).lines ==
      if PatternOk(t.Settings(), rt) then MatchingLines(t.Style(), s.entries, s.isDarkTheme, rt) else []
  {
    if PatternOk(t.Settings(), rt) {
      KeepLastFits(MatchingLines(t.Style(), s.entries, s.isDarkTheme, rt), MaxBufferedLines);
    }
  }

  /** The footer's counters: the raw view shows the newest received lines up to the
      capacity, and the selected tab never shows more lines than the raw view. */
  lemma CountsBounded(s: ViewState, rt: Runtime)
    requires rt.Valid() && Core(s, rt)
    ensures Counts(s).visibleRaw == Min(Counts(s).received, MaxBufferedLines)
    ensures Counts(s).selectedFilterLines <= Counts(s).visibleRaw
    ensures Counts(s).filters == |s.tabs|
  {
    if s.selected.Some? {
      var t := s.tabs[s.selected.value];
      assert Consistent(t, s.history, s.isDarkTheme, rt);
      if PatternOk(t.Settings(), rt) {
        assert |MatchingLines(t.Style(), s.history[t.origin..], s.isDarkTheme, rt)| <= |s.history|;
      }
    }
  }

  // ---------------------------------------------------------------------------
  // Ingestion

  /** What IngestLine changes: the counter, the buffers, the raw text outside a file
      load, every tab by OfferTab, the footer and the history; nothing else. */
  lemma IngestShape(s: ViewState, e: LogEntry, rt: Runtime)
    requires rt.Valid()
    ensures var r := IngestLine(s, e, rt);
      && r == s.(totalReceived := r.totalReceived, entries := r.entries, rawLines := r.rawLines,
                 rawLogText := r.rawLogText, tabs := r.tabs, footer := r.footer, history := r.history)
      && r.totalReceived == s.totalReceived + 1 && r.history == s.history + [e]
      && r.entries == KeepLast(s.entries + [e], MaxBufferedLines)
      && r.rawLines == KeepLast(s.rawLines + [FormatEntry(e)], MaxBufferedLines)
      && r.rawLogText == (if s.isBulkLoading then s.rawLogText else Joined(r.rawLines))
      && |r.tabs| == |s.tabs|
      && (forall k :: 0 <= k < |s.tabs| ==> r.tabs[k] == OfferTab(s.tabs[k], e, s.isDarkTheme, rt))
      && (!s.isBulkLoading ==> r.footer == Counts(r))
  {
    hide OfferTab, KeepLast, Joined, OfferFooter;
  }

  /** Ingesting a line keeps the core: the buffers move on by one entry, every tab
      follows, and the tabs keep their places and origins. Outside a file load the
      raw text is refreshed and the footer shows the counters. */
  lemma IngestKeepsCore(s: ViewState, e: LogEntry, rt: Runtime)
    requires rt.Valid() && Core(s, rt)
    ensures var r := IngestLine(s, e, rt);
      && Core(r, rt) && r.history == s.history + [e]
      && r.isBulkLoading == s.isBulkLoading && r.isPaused == s.isPaused
      && r.isLiveSource == s.isLiveSource && r.rawSourceName == s.rawSourceName
      && |r.tabs| == |s.tabs| && (forall k :: 0 <= k < |s.tabs| ==> r.tabs[k].origin == s.tabs[k].origin)
      && (s.isBulkLoading ==> r.rawLogText == s.rawLogText)
      && (!s.isBulkLoading ==> RawTextCurrent(r) && r.footer == Counts(r))
  {
    IngestShape(s, e, rt);
    hide IngestLine, AddEntry, OfferTab, MatchingLines, Joined, OfferFooter, KeepLast, FormatAll, Consistent;
    var r := IngestLine(s, e, rt);
    KeepLastAppend(s.history, [e], MaxBufferedLines);
    FormatAllKeepLast(s.entries, e);
    forall k | 0 <= k < |r.tabs|
      ensures Consistent(r.tabs[k], r.history, r.isDarkTheme, rt) && r.tabs[k].origin == s.tabs[k].origin
    {
      OfferKeepsConsistent(s.tabs[k], s.history, e, s.isDarkTheme, rt);
    }
  }

  /** A file's lines ingested one by one keep the core and end up as the history. */
  lemma {:induction false} IngestAllKeepsCore(s: ViewState, lines: seq<LogEntry>, rt: Runtime)
    requires rt.Valid() && Core(s, rt)
    ensures var r := IngestAll(s, lines, rt);
      && Core(r, rt) && r.history == s.history + lines
      && r.isBulkLoading == s.isBulkLoading && r.isLiveSource == s.isLiveSource
      && r.rawSourceName == s.rawSourceName
      && |r.tabs| == |s.tabs| && (forall k :: 0 <= k < |s.tabs| ==> r.tabs[k].origin == s.tabs[k].origin)
      && (s.isBulkLoading ==> r.rawLogText == s.rawLogText)
    decreases |lines|
  {
    hide IngestLine, Core;
    if lines != [] {
      var front := lines[..|lines| - 1];
      IngestAllKeepsCore(s, front, rt);
      IngestKeepsCore(IngestAll(s, front, rt), lines[|lines| - 1], rt);
      assert s.history + front + [lines[|lines| - 1]] == s.history + lines;
    }
  }

  /** A live line is ignored while paused; otherwise it is ingested, the raw view
      switches to the live source, and the footer shows the counters (a tab's filter
      error never stays in the footer). */
  lemma ReceiveKeepsInv(s: ViewState, e: LogEntry, rt: Runtime)
    requires rt.Valid() && Inv(s, rt)
    ensures var r := ReceiveLine(s, e, rt);
      && Inv(r, rt)
      && (s.isPaused ==> r == s)
      && (!s.isPaused ==> r.history == s.history + [e] && r.isLiveSource && r.rawSourceName == "Live"
                          && RawTextCurrent(r) && r.footer == Counts(r))
  {
    if !s.isPaused {
      IngestKeepsCore(SetLiveSource(s), e, rt);
    }
  }

  // ---------------------------------------------------------------------------
  // Clearing and rebuilding

  /** Clearing keeps the invariant and forgets the history: nothing received,
      nothing shown, and the footer counts zero lines. */
  lemma ClearKeepsInv(s: ViewState, rt: Runtime)
    requires rt.Valid() && Inv(s, rt)
    ensures var r := ClearLogs(s);
      && Inv(r, rt) && r.history == [] && RawTextCurrent(r)
      && |r.tabs| == |s.tabs| && (forall k :: 0 <= k < |r.tabs| ==> r.tabs[k].lines == [])
      && r.footer == Counters(0, 0, 0, |s.tabs|)
  {
    var r := ClearLogs(s);
    forall k | 0 <= k < |r.tabs|
      ensures Consistent(r.tabs[k], r.history, r.isDarkTheme, rt)
    {
      if PatternOk(r.tabs[k].Settings(), rt) {
        assert r.history[0..] == [];
      }
    }
  }

  /** Rebuilding a tab makes it consistent whatever it showed before, so the core
      holds afterwards if it held for all the other tabs; the footer shows the
      counters. */
  lemma {:induction false} RebuildRestoresCore(s: ViewState, i: nat, rt: Runtime)
    requires rt.Valid() && i < |s.tabs| && Bookkeeping(s)
    requires forall k :: 0 <= k < |s.tabs| && k != i ==> Consistent(s.tabs[k], s.history, s.isDarkTheme, rt)
    ensures var r := RebuildFilterTab(s, i, rt);
      && Core(r, rt) && r.footer == Counts(r)
      && r.tabs[i].lines == (if PatternOk(s.tabs[i].Settings(), rt)
                             then MatchingLines(s.tabs[i].Style(), s.entries, s.isDarkTheme, rt) else [])
      && r == s.(tabs := r.tabs, footer := r.footer) && |r.tabs| == |s.tabs|
      && (forall k :: 0 <= k < |s.tabs| && k != i ==> r.tabs[k] == s.tabs[k])
      && r.tabs[i].name == s.tabs[i].name && r.tabs[i].Style() == s.tabs[i].Style()
  {
    hide MatchingLines;
    RebuiltTabConsistent(s.tabs[i], s, rt);
  }

  /** Rebuilding a tab twice is rebuilding it once. */
  lemma RebuildIdempotent(s: ViewState, i: nat, rt: Runtime)
    requires rt.Valid() && i < |s.tabs|
    ensures RebuildFilterTab(RebuildFilterTab(s, i, rt), i, rt) == RebuildFilterTab(s, i, rt)
  {
  }

  /** Rebuilding every tab keeps the core; afterwards every tab shows its matches
      among the buffered entries. */
  lemma RebuildAllKeepsCore(s: ViewState, rt: Runtime)
    requires rt.Valid() && Bookkeeping(s)
    ensures var r := RebuildAllFilterTabs(s, rt);
      && Core(r, rt) && |r.tabs| == |s.tabs|
      && forall k :: 0 <= k < |r.tabs| ==>
           r.tabs[k].lines == if PatternOk(s.tabs[k].Settings(), rt)
                              then MatchingLines(s.tabs[k].Style(), s.entries, s.isDarkTheme, rt) else []
  {
    var r := RebuildAllFilterTabs(s, rt);
    forall k | 0 <= k < |r.tabs|
      ensures Consistent(r.tabs[k], r.history, r.isDarkTheme, rt)
      ensures r.tabs[k].lines == if PatternOk(s.tabs[k].Settings(), rt)
                                 then MatchingLines(s.tabs[k].Style(), s.entries, s.isDarkTheme, rt) else []
    {
      RebuiltTabConsistent(s.tabs[k], s, rt);
    }
  }

  /** Changing the theme keeps the invariant and re-renders every tab in the new
      theme; setting the current theme changes nothing. */
  lemma SetDarkThemeKeepsInv(s: ViewState, value: bool, rt: Runtime)
    requires rt.Valid() && Inv(s, rt)
    ensures var r := SetDarkTheme(s, value, rt);
      && Inv(r, rt) && r.isDarkTheme == value
      && (s.isDarkTheme == value ==> r == s)
  {
    if s.isDarkTheme != value {
      RebuildAllKeepsCore(s.(isDarkTheme := value), rt);
    }
  }

  // ---------------------------------------------------------------------------
  // Tabs

  /** Selecting a tab in the list, or none, keeps the invariant. */
  lemma SelectKeepsInv(s: ViewState, selected: Option<nat>, rt: Runtime)
    requires rt.Valid() && Inv(s, rt) && (selected.Some? ==> selected.value < |s.tabs|)
    ensures Inv(Select(s, selected), rt) && Select(s, selected).selected == selected
  {
  }

  /** Adding a tab keeps the invariant: the old tabs stay as they were, and the new
      one, numbered by the counter, is selected and shows its matches among the
      buffered entries (with its empty expression, every one of them). */
  lemma AddTabKeepsInv(s: ViewState, rt: Runtime)
    requires rt.Valid() && Inv(s, rt)
    ensures var r := AddFilterTab(s, rt);
      && Inv(r, rt)
      && |r.tabs| == |s.tabs| + 1 && r.tabs[..|s.tabs|] == s.tabs && r.selected == Some(|s.tabs|)
      && r.tabs[|s.tabs|].name == NewTab(s.nextFilterNumber).name
      && r.tabs[|s.tabs|].lines == MatchingLines(r.tabs[|s.tabs|].Style(), s.entries, s.isDarkTheme, rt)
      && r.nextFilterNumber == s.nextFilterNumber + 1
      && r.footer == Counts(r)
      && r == s.(nextFilterNumber := r.nextFilterNumber, tabs := r.tabs, selected := r.selected, footer := r.footer)
  {
    hide RebuildFilterTab, Consistent, MatchingLines, KeepLast, NewTab, FormatAll;
    var n := s.nextFilterNumber;
    NewTabDefaults(n);
    var s1 := s.(nextFilterNumber := n + 1, tabs := s.tabs + [NewTab(n)]);
    var s2 := Select(s1, Some(|s.tabs|));
    assert forall k :: 0 <= k < |s.tabs| ==> s2.tabs[k] == s.tabs[k];
    RebuildRestoresCore(s2, |s.tabs|, rt);
    assert AddFilterTab(s, rt).tabs[..|s.tabs|] == s.tabs;
  }

  /** Removing the selected tab keeps the invariant (another tab is selected while
      any remain); without a selection nothing changes. */
  lemma RemoveKeepsInv(s: ViewState, rt: Runtime)
    requires rt.Valid() && Inv(s, rt)
    ensures var r := RemoveSelectedFilterTab(s);
      && Inv(r, rt)
      && (s.selected.None? ==> r == s)
      && (s.selected.Some? ==> |r.tabs| == |s.tabs| - 1 && r.footer == Counts(r))
  {
    hide Consistent;
    if s.selected.Some? {
      var i := s.selected.value;
      var r := RemoveSelectedFilterTab(s);
      forall k | 0 <= k < |r.tabs|
        ensures Consistent(r.tabs[k], r.history, r.isDarkTheme, rt)
      {
        assert r.tabs[k] == if k < i then s.tabs[k] else s.tabs[k + 1];
      }
    }
  }

  /** Removing the tab just added gives back the tab list. */
  lemma AddThenRemove(s: ViewState, rt: Runtime)
    requires rt.Valid() && Inv(s, rt)
    ensures RemoveSelectedFilterTab(AddFilterTab(s, rt)).tabs == s.tabs
  {
    AddTabKeepsInv(s, rt);
  }

  /** A setter keeps the invariant; setting the current value changes nothing, and a
      change leaves the tab showing its matches under the new settings. */
  lemma ConfigureKeepsInv(s: ViewState, i: nat, setting: TabSetting, rt: Runtime)
    requires rt.Valid() && Inv(s, rt) && i < |s.tabs|
    ensures var r := ConfigureTab(s, i, setting, rt);
      && Inv(r, rt)
      && (!ApplySetting(s.tabs[i], setting).1 ==> r == s)
      && (ApplySetting(s.tabs[i], setting).1 ==>
            var t := ApplySetting(s.tabs[i], setting).0;
            r.tabs[i].lines == if PatternOk(t.Settings(), rt)
                               then MatchingLines(t.Style(), s.entries, s.isDarkTheme, rt) else [])
  {
    var (t, changed) := ApplySetting(s.tabs[i], setting);
    if changed {
      RebuildRestoresCore(s.(tabs := s.tabs[i := t]), i, rt);
    } else {
      assert s.tabs[i := t] == s.tabs;
    }
  }

  /** The state before the constructor adds its first tab: empty and consistent. */
  lemma InitialInv(rt: Runtime)
    requires rt.Valid()
    ensures var s := Initial();
      && Inv(s, rt) && s.tabs == [] && s.entries == [] && s.rawLines == []
      && s.totalReceived == 0 && s.nextFilterNumber == 1
  {
  }

  /** The constructor's state satisfies the invariant: one tab, "Filter 1",
      selected, nothing received. */
  lemma ConstructInv(rt: Runtime)
    requires rt.Valid()
    ensures var r := Construct(rt);
      && Inv(r, rt) && |r.tabs| == 1 && r.selected == Some(0) && r.tabs[0].name == "Filter 1"
      && r.nextFilterNumber == 2 && r.footer == Counters(0, 0, 0, 1)
  {
    assert NatToString(1) == "1";
    assert NewTab(1).name == "Filter 1";
    hide Initial, AddFilterTab, Inv, NewTab, NatToString, MatchingLines, KeepLast, FormatAll;
    InitialInv(rt);
    AddTabKeepsInv(Initial(), rt);
  }

  // ---------------------------------------------------------------------------
  // Loading a file

  /** Loading a file keeps the invariant. A cancelled dialog changes nothing; a
      successful load makes the file's lines the whole history, shows them in the
      raw text and reports their number; a failed load reports the error and keeps
      the lines read before it. */
  lemma LoadKeepsInv(s: ViewState, outcome: LoadOutcome, rt: Runtime)
    requires rt.Valid() && Inv(s, rt)
    ensures var r := OpenLogFile(s, outcome, rt);
      && Inv(r, rt)
      && (outcome.Cancelled? ==> r == s)
      && (outcome.Read? ==> r.history == outcome.lines && !r.isLiveSource && |r.tabs| == |s.tabs|
                            && (forall k :: 0 <= k < |r.tabs| ==> r.tabs[k].origin == 0))
      && (outcome.Read? && outcome.failure.None? ==>
            RawTextCurrent(r) && r.footer == Loaded(|outcome.lines|, outcome.fileName))
      && (outcome.Read? && outcome.failure.Some? ==> r.footer == LoadFailed(outcome.failure.value) && r.rawLogText == "")
  {
    hide IngestAll, Consistent, MatchingLines;
    if outcome.Read? {
      ClearKeepsInv(s, rt);
      var start := SetFileSource(ClearLogs(s), outcome.fileName).(isBulkLoading := true);
      IngestAllKeepsCore(start, outcome.lines, rt);
    }
  }

  /** After a successful load every tab shows its newest matches among the file's
      lines, exactly what it would show had the lines arrived live. */
  lemma LoadedTabsShowFile(s: ViewState, fileName: string, lines: seq<LogEntry>, rt: Runtime)
    requires rt.Valid() && Inv(s, rt)
    ensures var r := OpenLogFile(s, Read(fileName, lines, None), rt);
      forall k :: 0 <= k < |r.tabs| ==>
        r.tabs[k].lines == if PatternOk(r.tabs[k].Settings(), rt)
                           then KeepLast(MatchingLines(r.tabs[k].Style(), lines, r.isDarkTheme, rt), MaxBufferedLines)
                           else []
  {
    LoadKeepsInv(s, Read(fileName, lines, None), rt);
    var r := OpenLogFile(s, Read(fileName, lines, None), rt);
    forall k | 0 <= k < |r.tabs|
      ensures Consistent(r.tabs[k], lines, r.isDarkTheme, rt)
    {
      assert Consistent(r.tabs[k], r.history, r.isDarkTheme, rt);
    }
    assert lines[0..] == lines;
  }

  /** A load that fails leaves the raw text empty while the raw view's buffer holds
      the lines read before the failure: the raw text is joined only on success. */
  lemma FailedLoadLeavesRawTextStale(s: ViewState, fileName: string, e: LogEntry, message: string, rt: Runtime)
    requires rt.Valid() && Inv(s, rt)
    ensures var r := OpenLogFile(s, Read(fileName, [e], Some(message)), rt);
      r.rawLogText == "" && r.rawLines == [FormatEntry(e)] && !RawTextCurrent(r)
  {
    hide OpenLogFile, Consistent, MatchingLines;
    LoadKeepsInv(s, Read(fileName, [e], Some(message)), rt);
    var line := FormatEntry(e);
    assert [line][1..] == [];
    assert Joined([line]) == JoinFrom(line, []) == line;
  }
}
