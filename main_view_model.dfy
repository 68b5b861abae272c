/** The main view model of UartLogTerminal/ViewModels/MainViewModel.cs as the object
    it is: fields updated in place, filter tabs that are objects of their own, and
    methods that run the source's loops. Each method is proved to move the view
    model's value, Abs(), by the transition of the States module that specifies it;
    what those transitions keep true is proved in the Invariants module. */
module ViewModel {
  import opened Text
  import opened Models
  import opened FilterEngine
  import opened Highlight
  import opened History
  import opened Tabs
  import opened ViewSpec
  import opened States

  /** The values of the tabs, in order. */
  ghost function Views(tabs: seq<FilterTab>): (r: seq<TabView>)
    reads tabs
  {
    seq(|tabs|, j requires 0 <= j < |tabs| reads tabs => tabs[j].View())
  }

  /** The position of the first occurrence of `tab` (ObservableCollection.IndexOf),
      None when it does not occur. */
  function PositionOf(tabs: seq<FilterTab>, tab: FilterTab?): (r: Option<nat>)
    ensures r.Some? ==> r.value < |tabs| && tabs[r.value] == tab
    ensures r.Some? ==> forall j :: 0 <= j < r.value ==> tabs[j] != tab
    ensures r.None? <==> tab !in tabs
    decreases |tabs|
  {
    if tabs == [] then None
    else if tabs[0] == tab then Some(0)
    else
      match PositionOf(tabs[1..], tab)
      case None => None
      case Some(k) => Some(k + 1)
  }

  /** No tab occurs twice. */
  predicate Distinct(tabs: seq<FilterTab>) {
    forall i, j :: 0 <= i < j < |tabs| ==> tabs[i] != tabs[j]
  }

  /** In a list without repeats, a tab's position is the one it occupies. */
  lemma PositionOfDistinct(tabs: seq<FilterTab>, i: nat)
    requires Distinct(tabs) && i < |tabs|
    ensures PositionOf(tabs, tabs[i]) == Some(i)
  {
  }

  /** A tab keeps its position when another is appended. */
  lemma PositionOfAppend(tabs: seq<FilterTab>, tab: FilterTab, x: FilterTab?)
    requires x == null || x in tabs
    ensures PositionOf(tabs + [tab], x) == PositionOf(tabs, x)
  {
    var r := PositionOf(tabs + [tab], x);
    if x != null {
      var k := PositionOf(tabs, x).value;
      assert (tabs + [tab])[k] == x;
    }
  }

  /** The tabs of s once the first i have been rebuilt. */
  ghost function RebuiltUpTo(s: ViewState, i: nat, rt: Runtime): (r: seq<TabView>)
    requires rt.Valid()
    ensures |r| == |s.tabs|
    ensures forall k :: 0 <= k < |r| ==> r[k] == if k < i then RebuiltTab(s.tabs[k], s, rt) else s.tabs[k]
  {
    seq(|s.tabs|, k requires 0 <= k < |s.tabs| => if k < i then RebuiltTab(s.tabs[k], s, rt) else s.tabs[k])
  }

  /** Rebuilding tab i after the first i: the first i + 1 are rebuilt and the footer
      shows the counters. */
  lemma RebuildNext(s: ViewState, before: ViewState, i: nat, rt: Runtime)
    requires rt.Valid() && i < |s.tabs|
    requires before == s.(tabs := RebuiltUpTo(s, i, rt), footer := before.footer)
    ensures States.RebuildFilterTab(before, i, rt) == UpdateFooterCounters(s.(tabs := RebuiltUpTo(s, i + 1, rt)))
  {
    assert RebuiltTab(before.tabs[i], before, rt) == RebuiltTab(s.tabs[i], s, rt);
    assert before.tabs[i := RebuiltTab(s.tabs[i], s, rt)] == RebuiltUpTo(s, i + 1, rt);
  }

  /** After the last tab, every tab is rebuilt. */
  lemma RebuiltAll(s: ViewState, rt: Runtime)
    requires rt.Valid()
    ensures States.RebuildAllFilterTabs(s, rt)
            == if s.tabs == [] then s else UpdateFooterCounters(s.(tabs := RebuiltUpTo(s, |s.tabs|, rt)))
  {
    assert s.tabs == [] ==> RebuiltUpTo(s, 0, rt) == s.tabs;
  }

  /** The tabs once the first i have been emptied. */
  ghost function ClearedUpTo(tabs: seq<TabView>, i: nat): (r: seq<TabView>)
    ensures |r| == |tabs|
    ensures forall k :: 0 <= k < |r| ==> r[k] == if k < i then tabs[k].(lines := [], origin := 0) else tabs[k]
  {
    seq(|tabs|, k requires 0 <= k < |tabs| => if k < i then tabs[k].(lines := [], origin := 0) else tabs[k])
  }

  /** Emptying tab i after the first i. */
  lemma ClearedNext(tabs: seq<TabView>, i: nat)
    requires i < |tabs|
    ensures ClearedUpTo(tabs, i)[i := tabs[i].(lines := [], origin := 0)] == ClearedUpTo(tabs, i + 1)
  {
  }

  /** A pass that has emptied every tab. */
  lemma ClearedAll(tabs: seq<TabView>)
    ensures ClearedUpTo(tabs, 0) == tabs
    ensures ClearedUpTo(tabs, |tabs|) == seq(|tabs|, k requires 0 <= k < |tabs| => tabs[k].(lines := [], origin := 0))
  {
  }

  /** ClearLogs' loop over the tabs: each tab's lines are emptied. */
  method ClearTabs(tabs: seq<FilterTab>)
    requires Distinct(tabs)
    modifies tabs`lines, tabs`origin
    ensures Views(tabs) == ClearedUpTo(old(Views(tabs)), |tabs|)
  {
    ghost var views := Views(tabs);
    ClearedAll(views);
    hide ClearedUpTo;
    for i := 0 to |tabs|
      invariant Views(tabs) == ClearedUpTo(views, i)
    {
      label Before:
      tabs[i].lines := [];
      tabs[i].origin := 0;
      assert Views(tabs) == old@Before(Views(tabs))[i := tabs[i].View()];
      ClearedNext(views, i);
    }
  }

  /** ClearLogs before its footer update: the buffers, the counter and every tab
      emptied. */
  lemma ClearLogsThenCount(s: ViewState, cleared: ViewState)
    requires cleared == s.(entries := [], rawLines := [], rawLogText := "", totalReceived := 0,
                           tabs := ClearedUpTo(s.tabs, |s.tabs|), history := [])
    ensures States.ClearLogs(s) == States.UpdateFooterCounters(cleared)
  {
    ClearedAll(s.tabs);
  }

  /** The tabs once the first i have been offered entry e. */
  ghost function OfferedUpTo(tabs: seq<TabView>, e: LogEntry, isDarkTheme: bool, rt: Runtime, i: nat)
    : (r: seq<TabView>)
    requires rt.Valid()
    ensures |r| == |tabs|
    ensures forall k :: 0 <= k < |r| ==> r[k] == if k < i then OfferTab(tabs[k], e, isDarkTheme, rt) else tabs[k]
  {
    seq(|tabs|, k requires 0 <= k < |tabs| => if k < i then OfferTab(tabs[k], e, isDarkTheme, rt) else tabs[k])
  }

  /** Offering e to tab i after the first i. */
  lemma OfferedNext(tabs: seq<TabView>, e: LogEntry, isDarkTheme: bool, rt: Runtime, footer: Footer, i: nat)
    requires rt.Valid() && i < |tabs|
    ensures OfferedUpTo(tabs, e, isDarkTheme, rt, i)[i := OfferTab(tabs[i], e, isDarkTheme, rt)]
            == OfferedUpTo(tabs, e, isDarkTheme, rt, i + 1)
    ensures OfferFooter(tabs[..i + 1], e, footer, rt)
            == match TryIsMatch(tabs[i].Settings(), e, rt)
               case Failure(error) => TabError(tabs[i].name, error)
               case Success(_) => OfferFooter(tabs[..i], e, footer, rt)
  {
    assert tabs[..i + 1][..i] == tabs[..i];
  }

  /** AddEntry before its footer update: the buffers, the raw text, the history, and
      every tab offered the entry. */
  lemma AddEntryThenCount(s: ViewState, offered: ViewState, e: LogEntry, rt: Runtime)
    requires rt.Valid()
    requires offered == s.(entries := KeepLast(s.entries + [e], MaxBufferedLines),
                           rawLines := KeepLast(s.rawLines + [FormatEntry(e)], MaxBufferedLines),
                           rawLogText := if s.isBulkLoading then s.rawLogText else offered.rawLogText,
                           tabs := OfferedUpTo(s.tabs, e, s.isDarkTheme, rt, |s.tabs|),
                           footer := OfferFooter(s.tabs, e, s.footer, rt),
                           history := s.history + [e])
    requires !s.isBulkLoading ==> offered.rawLogText == Joined(offered.rawLines)
    ensures States.AddEntry(s, e, rt) == if s.isBulkLoading then offered else States.UpdateFooterCounters(offered)
  {
    assert OfferedUpTo(s.tabs, e, s.isDarkTheme, rt, |s.tabs|)
           == seq(|s.tabs|, k requires 0 <= k < |s.tabs| => OfferTab(s.tabs[k], e, s.isDarkTheme, rt));
  }

  /** One more line of a bulk load. */
  lemma IngestAllNext(s: ViewState, lines: seq<LogEntry>, i: nat, rt: Runtime)
    requires rt.Valid() && i < |lines|
    ensures IngestAll(s, lines[..i + 1], rt) == States.IngestLine(IngestAll(s, lines[..i], rt), lines[i], rt)
  {
    assert lines[..i + 1][..i] == lines[..i];
  }

  /** RemoveSelectedFilterTab once the selected tab, at position i, has left and the
      last remaining one is selected: only the footer counters are left to show. */
  lemma RemovedThenCount(s: ViewState, i: nat, removed: ViewState)
    requires s.selected == Some(i) && i < |s.tabs|
    requires removed == s.(tabs := s.tabs[..i] + s.tabs[i + 1..], footer := removed.footer,
                           selected := if |s.tabs| == 1 then None else Some(|s.tabs| - 2))
    ensures States.RemoveSelectedFilterTab(s) == States.UpdateFooterCounters(removed)
  {
  }

  /** OpenLogFile once the lines are ingested: on success the raw text is joined
      and the footer reports the count, on failure the footer reports the error;
      bulk mode ends either way. */
  lemma OpenLogFileFinish(s: ViewState, outcome: LoadOutcome, loading: ViewState, rt: Runtime)
    requires rt.Valid() && outcome.Read?
    requires loading == IngestAll(States.SetFileSource(States.ClearLogs(s), outcome.fileName).(isBulkLoading := true),
                                  outcome.lines, rt)
    ensures States.OpenLogFile(s, outcome, rt)
            == loading.(rawLogText := if outcome.failure.None? then Joined(loading.rawLines) else loading.rawLogText,
                        footer := if outcome.failure.None? then Loaded(|outcome.lines|, outcome.fileName)
                                  else LoadFailed(outcome.failure.value),
                        isBulkLoading := false)
  {
  }

  /** The setter a TabSetting names, on the tab: the tab takes the new value and the
      result says whether it changed. */
  method ApplyToTab(tab: FilterTab, setting: TabSetting) returns (settingsChanged: bool)
    modifies tab`name, tab`expression, tab`useRegex, tab`matchCase, tab`selectedForegroundColor
    modifies tab`selectedBackgroundColor
    ensures (tab.View(), settingsChanged) == ApplySetting(old(tab.View()), setting)
  {
    match setting {
      case NameSetting(v) => settingsChanged := tab.SetName(v);
      case ExpressionSetting(v) => settingsChanged := tab.SetExpression(v);
      case UseRegexSetting(v) => settingsChanged := tab.SetUseRegex(v);
      case MatchCaseSetting(v) => settingsChanged := tab.SetMatchCase(v);
      case ForegroundSetting(v) => settingsChanged := tab.SetSelectedForegroundColor(v);
      case BackgroundSetting(v) => settingsChanged := tab.SetSelectedBackgroundColor(v);
    }
  }

  class MainViewModel {
    /** The .NET services the view model relies on (case mapping, regular expressions). */
    const runtime: Runtime
    /** ColorOptions, built by the constructor. */
    const colorOptions: seq<ColorOption>
    /** _entries: the newest received entries, oldest first. */
    var entries: seq<LogEntry>
    /** _rawLines: their display lines. */
    var rawLines: seq<string>
    var rawLogText: string
    var totalReceived: nat
    var nextFilterNumber: nat
    var selectedFilterTab: FilterTab?
    var isBulkLoading: bool
    var isPaused: bool
    var isDarkTheme: bool
    var filterTabs: seq<FilterTab>
    var footer: Footer
    var isLiveSource: bool
    var rawSourceName: string
    /** Every entry received since the last clear, oldest first. */
    ghost var history: seq<LogEntry>

    /** The services work, the palette is the built one, and no tab is listed twice. */
    ghost predicate Wired()
      reads this
    {
      runtime.Valid() && colorOptions == ColorOptions && Distinct(filterTabs)
    }

    /** Wired, and the selected tab, if any, is one of the list's. */
    ghost predicate Valid()
      reads this
    {
      Wired() && (selectedFilterTab == null || selectedFilterTab in filterTabs)
    }

    /** The view model's value: its fields, the tabs' values, and the selected tab's
        position. */
    ghost function Abs(): ViewState
      reads this, filterTabs
    {
      ViewState(entries, rawLines, rawLogText, totalReceived, nextFilterNumber, Views(filterTabs),
                PositionOf(filterTabs, selectedFilterTab), isBulkLoading, isPaused, isDarkTheme, footer,
                isLiveSource, rawSourceName, history)
    }

    /** When only the tab at position i has changed, only its value has. */
    twostate lemma OneTabChanged(i: nat)
      requires i < |filterTabs| && unchanged(this`filterTabs)
      requires forall j :: 0 <= j < |filterTabs| && j != i ==> unchanged(filterTabs[j])
      ensures Views(filterTabs) == old(Views(filterTabs))[i := filterTabs[i].View()]
    {
    }

    /** When only the tab at position i and the footer have changed, so has the value. */
    twostate lemma TabChanged(i: nat)
      requires i < |filterTabs|
      requires unchanged(this`entries, this`rawLines, this`rawLogText, this`totalReceived)
      requires unchanged(this`nextFilterNumber, this`filterTabs, this`selectedFilterTab, this`isBulkLoading)
      requires unchanged(this`isPaused, this`isDarkTheme, this`isLiveSource, this`rawSourceName, this`history)
      requires forall j :: 0 <= j < |filterTabs| && j != i ==> unchanged(filterTabs[j])
      ensures Abs() == old(Abs()).(tabs := old(Abs()).tabs[i := filterTabs[i].View()], footer := footer)
    {
      assert Views(filterTabs) == old(Views(filterTabs))[i := filterTabs[i].View()];
    }

    /** When neither the list, the selection nor any tab has changed, the value
        differs only in the view model's own fields. */
    twostate lemma TabsKept()
      requires unchanged(this`filterTabs, this`selectedFilterTab)
      requires forall j :: 0 <= j < |filterTabs| ==> unchanged(filterTabs[j])
      ensures Abs() == old(Abs()).(entries := entries, rawLines := rawLines, rawLogText := rawLogText,
                                   totalReceived := totalReceived, nextFilterNumber := nextFilterNumber,
                                   isBulkLoading := isBulkLoading, isPaused := isPaused, isDarkTheme := isDarkTheme,
                                   footer := footer, isLiveSource := isLiveSource, rawSourceName := rawSourceName,
                                   history := history)
    {
      assert Views(filterTabs) == old(Views(filterTabs));
    }

    /** When only the tabs and the footer have changed, only their values have. */
    twostate lemma TabsChanged()
      requires unchanged(this`entries, this`rawLines, this`rawLogText, this`totalReceived, this`nextFilterNumber)
      requires unchanged(this`filterTabs, this`selectedFilterTab, this`isBulkLoading, this`isPaused)
      requires unchanged(this`isDarkTheme, this`isLiveSource, this`rawSourceName, this`history)
      ensures Abs() == old(Abs()).(tabs := Views(filterTabs), footer := footer)
    {
    }

    /** The value once the buffers, the counter and the history are empty and every
        tab is emptied. */
    twostate lemma Cleared()
      requires unchanged(this`nextFilterNumber, this`filterTabs, this`selectedFilterTab, this`isBulkLoading)
      requires unchanged(this`isPaused, this`isDarkTheme, this`footer, this`isLiveSource, this`rawSourceName)
      requires entries == [] && rawLines == [] && rawLogText == "" && totalReceived == 0 && history == []
      requires Views(filterTabs) == ClearedUpTo(old(Views(filterTabs)), |filterTabs|)
      ensures Abs() == old(Abs()).(entries := [], rawLines := [], rawLogText := "", totalReceived := 0,
                                   tabs := ClearedUpTo(old(Abs()).tabs, |old(Abs()).tabs|), history := [])
    {
    }

    /** When only bulk mode, the raw text and the footer have changed, only those
        parts of the value have. */
    twostate lemma LoadStateChanged()
      requires unchanged(this`entries, this`rawLines, this`totalReceived, this`nextFilterNumber, this`filterTabs)
      requires unchanged(this`selectedFilterTab, this`isPaused, this`isDarkTheme, this`isLiveSource)
      requires unchanged(this`rawSourceName, this`history)
      requires forall j :: 0 <= j < |filterTabs| ==> unchanged(filterTabs[j])
      ensures Abs() == old(Abs()).(rawLogText := rawLogText, footer := footer, isBulkLoading := isBulkLoading)
    {
      assert Views(filterTabs) == old(Views(filterTabs));
    }

    /** When a new tab, not listed before, has been appended and the next filter
        number has moved on by one, the value gains the new tab at the end. */
    twostate lemma NewTabAppended(new tab: FilterTab)
      requires old(Valid()) && tab !in old(filterTabs) && filterTabs == old(filterTabs) + [tab]
      requires tab.View() == NewTab(old(nextFilterNumber)) && nextFilterNumber == old(nextFilterNumber) + 1
      requires unchanged(this`entries, this`rawLines, this`rawLogText, this`totalReceived, this`footer)
      requires unchanged(this`selectedFilterTab, this`isBulkLoading, this`isPaused, this`isDarkTheme)
      requires unchanged(this`isLiveSource, this`rawSourceName, this`history)
      requires forall j :: 0 <= j < |old(filterTabs)| ==> unchanged(old(filterTabs)[j])
      ensures Valid() && Wired() && |old(Abs()).tabs| == |old(filterTabs)|
      ensures Abs() == old(Abs()).(nextFilterNumber := old(Abs()).nextFilterNumber + 1,
                                   tabs := old(Abs()).tabs + [NewTab(old(Abs()).nextFilterNumber)])
    {
      hide NewTab;
      assert Views(filterTabs) == old(Views(filterTabs)) + [tab.View()];
      PositionOfAppend(old(filterTabs), tab, selectedFilterTab);
    }

    /** When the selected tab, at position i, has left the list and nothing else has
        changed, the value loses that tab and has no selection. */
    twostate lemma TabRemoved(i: nat)
      requires old(Valid()) && i < |old(filterTabs)| && old(filterTabs)[i] == selectedFilterTab
      requires filterTabs == old(filterTabs)[..i] + old(filterTabs)[i + 1..]
      requires unchanged(this`entries, this`rawLines, this`rawLogText, this`totalReceived, this`footer)
      requires unchanged(this`nextFilterNumber, this`selectedFilterTab, this`isBulkLoading, this`isPaused)
      requires unchanged(this`isDarkTheme, this`isLiveSource, this`rawSourceName, this`history)
      requires forall j :: 0 <= j < |filterTabs| ==> unchanged(filterTabs[j])
      ensures Wired() && |old(Abs()).tabs| == |old(filterTabs)| && old(Abs()).selected == Some(i)
      ensures Abs() == old(Abs()).(tabs := old(Abs()).tabs[..i] + old(Abs()).tabs[i + 1..], selected := None)
    {
      assert forall j :: 0 <= j < |filterTabs| ==> filterTabs[j] == old(filterTabs)[if j < i then j else j + 1];
      assert Views(filterTabs) == old(Views(filterTabs))[..i] + old(Views(filterTabs))[i + 1..];
    }

    /** UpdateFooterCounters. */
    method UpdateFooterCounters()
      requires Valid()
      modifies this`footer
      ensures Valid() && Abs() == States.UpdateFooterCounters(old(Abs()))
    {
      footer := Counters(totalReceived, |rawLines|,
                         if selectedFilterTab == null then 0 else |selectedFilterTab.lines|, |filterTabs|);
    }

    /** CreateNewFilterTab: the next number, its name, its default colours. */
    method CreateNewFilterTab() returns (tab: FilterTab)
      requires Valid()
      modifies this`nextFilterNumber
      ensures fresh(tab) && tab.View() == NewTab(old(nextFilterNumber))
      ensures nextFilterNumber == old(nextFilterNumber) + 1
    {
      hide ColorOptions, FirstNamed, NatToString;
      PaletteShape();
      var idx := nextFilterNumber;
      nextFilterNumber := nextFilterNumber + 1;
      var defaultForeground := colorOptions[Min(idx, |colorOptions| - 2)];
      var transparent := FirstNamed(colorOptions, "Transparent");
      tab := new FilterTab();
      tab.name := "Filter " + NatToString(idx);
      tab.selectedForegroundColor := Some(defaultForeground);
      tab.selectedBackgroundColor := transparent;
    }

    /** The SelectedFilterTab setter: a change updates the footer counters. Between
        the removal of the selected tab and the choice of another, the old selection
        is no longer listed; then only the selection and the footer are said to
        change. */
    method SelectTab(tab: FilterTab?)
      requires Wired() && (tab == null || tab in filterTabs)
      modifies this`selectedFilterTab, this`footer
      ensures Valid() && selectedFilterTab == tab
      ensures Abs() == old(Abs()).(selected := PositionOf(filterTabs, tab), footer := footer)
      ensures old(Valid()) ==> Abs() == Select(old(Abs()), PositionOf(filterTabs, tab))
    {
      var (value, changed) := SetProperty(selectedFilterTab, tab);
      selectedFilterTab := value;
      if changed {
        UpdateFooterCounters();
      }
    }

    /** The IsPaused setter. */
    method SetPaused(value: bool)
      modifies this`isPaused
      ensures Abs() == States.SetPaused(old(Abs()), value)
    {
      isPaused := SetProperty(isPaused, value).0;
    }

    /** SetLiveSource. */
    method SetLiveSource()
      modifies this`isLiveSource, this`rawSourceName
      ensures Abs() == States.SetLiveSource(old(Abs()))
    {
      isLiveSource := true;
      rawSourceName := "Live";
    }

    /** SetFileSource. */
    method SetFileSource(fileName: string)
      modifies this`isLiveSource, this`rawSourceName
      ensures Abs() == States.SetFileSource(old(Abs()), fileName)
    {
      isLiveSource := false;
      rawSourceName := if IsBlank(fileName) then "Loaded File" else fileName;
    }

    /** AppendLineToTab: the display line with its segments joins the tab's lines,
        the oldest dropping out beyond the capacity. */
    method AppendLineToTab(tab: FilterTab, formattedLine: string)
      requires runtime.Valid() && PatternOk(tab.Settings(), runtime)
      modifies tab`lines
      ensures tab.lines == KeepLast(old(tab.lines) + [Rendered(tab.Style(), formattedLine, isDarkTheme, runtime)],
                                    MaxBufferedLines)
    {
      var segments := BuildSegments(tab.Style(), formattedLine, isDarkTheme, runtime);
      tab.lines := EnqueueWithCap(tab.lines, ColoredLogLine(formattedLine, segments.value));
    }

    /** The clearing and the loop of RebuildFilterTab: every buffered entry the
        filter includes is appended to the emptied tab; the first entry whose
        matching fails puts the error in the footer and ends the pass. (The error
        text is never blank, so the source's guard against a blank one always
        passes.) */
    method ReplayEntries(tab: FilterTab)
      requires runtime.Valid()
      modifies this`footer, tab`lines
      ensures tab.lines == if PatternOk(tab.Settings(), runtime)
                           then KeepLast(MatchingLines(tab.Style(), entries, isDarkTheme, runtime), MaxBufferedLines)
                           else []
      ensures footer == if !PatternOk(tab.Settings(), runtime) && entries != []
                        then TabError(tab.name, TryIsMatch(tab.Settings(), entries[0], runtime).error)
                        else old(footer)
    {
      hide MatchingLines, Rendered, KeepLast, TryIsMatch;
      ghost var style := tab.Style();
      var settings := tab.Settings();
      tab.lines := [];
      for i := 0 to |entries|
        invariant PatternOk(settings, runtime) ==>
          tab.lines == KeepLast(MatchingLines(style, entries[..i], isDarkTheme, runtime), MaxBufferedLines)
        invariant !PatternOk(settings, runtime) ==> tab.lines == [] && i == 0
        invariant tab.Style() == style
        invariant footer == old(footer)
      {
        var entry := entries[i];
        match TryIsMatch(settings, entry, runtime)
        case Success(isMatch) =>
          assert entries[..i + 1] == entries[..i] + [entry];
          OfferAgreesWithRebuild(style, tab.lines, entries[..i], entry, isDarkTheme, runtime);
          if isMatch {
            AppendLineToTab(tab, FormatEntry(entry));
          }
        case Failure(error) =>
          footer := TabError(tab.name, error);
          break;
      }
      assert entries[..|entries|] == entries;
    }

    /** RebuildFilterTab: the tab's lines are recomputed from the buffered entries,
        and the footer shows the counters. */
    method RebuildFilterTab(tab: FilterTab)
      requires Valid() && tab in filterTabs
      modifies this`footer, tab`lines, tab`origin
      ensures Valid() && Abs() == States.RebuildFilterTab(old(Abs()), PositionOf(filterTabs, tab).value, runtime)
    {
      hide MatchingLines, Rendered, KeepLast;
      ghost var s := Abs();
      ghost var i := PositionOf(filterTabs, tab).value;
      ReplayEntries(tab);
      tab.origin := |history| - |entries|;
      ghost var t := RebuiltTab(s.tabs[i], s, runtime);
      assert tab.View() == t;
      hide RebuiltTab;
      TabChanged(i);
      UpdateFooterCounters();
    }

    /** RebuildAllFilterTabs: each tab rebuilt in turn. */
    method RebuildAllFilterTabs()
      requires Valid()
      modifies this`footer, filterTabs`lines, filterTabs`origin
      ensures Valid() && Abs() == States.RebuildAllFilterTabs(old(Abs()), runtime)
    {
      ghost var s := Abs();
      assert RebuiltUpTo(s, 0, runtime) == s.tabs;
      hide RebuiltUpTo, States.RebuildFilterTab, States.UpdateFooterCounters, RebuiltTab, MatchingLines, KeepLast, Rendered, Counts;
      for i := 0 to |filterTabs|
        invariant Valid()
        invariant Abs() == if i == 0 then s else States.UpdateFooterCounters(s.(tabs := RebuiltUpTo(s, i, runtime)))
      {
        PositionOfDistinct(filterTabs, i);
        RebuildNext(s, Abs(), i, runtime);
        RebuildFilterTab(filterTabs[i]);
      }
      RebuiltAll(s, runtime);
    }

    /** The IsDarkTheme setter: a change re-renders every tab. */
    method SetDarkTheme(value: bool)
      requires Valid()
      modifies this`isDarkTheme, this`footer, filterTabs`lines, filterTabs`origin
      ensures Valid() && Abs() == States.SetDarkTheme(old(Abs()), value, runtime)
    {
      var (v, changed) := SetProperty(isDarkTheme, value);
      isDarkTheme := v;
      if changed {
        RebuildAllFilterTabs();
      }
    }

    /** ClearLogs: the buffers, the raw text, the counter and every tab's lines are
        emptied, and the footer shows the counters. */
    method ClearLogs()
      requires Valid()
      modifies this`entries, this`rawLines, this`rawLogText, this`totalReceived, this`history, this`footer
      modifies filterTabs`lines, filterTabs`origin
      ensures Valid() && Abs() == States.ClearLogs(old(Abs()))
    {
      entries, rawLines, rawLogText, totalReceived, history := [], [], "", 0, [];
      ClearTabs(filterTabs);
      Cleared();
      ClearLogsThenCount(old(Abs()), Abs());
      UpdateFooterCounters();
    }

    /** One pass of AddEntry's loop over the tabs: a matching entry's display line is
        appended to the tab, and a pattern that does not parse puts its error in the
        footer. (The error text is never blank, so the source's guard against a blank
        one always passes.) */
    method OfferEntry(tab: FilterTab, entry: LogEntry)
      requires runtime.Valid()
      modifies tab`lines, this`footer
      ensures tab.View() == OfferTab(old(tab.View()), entry, isDarkTheme, runtime)
      ensures footer == match TryIsMatch(tab.Settings(), entry, runtime)
                        case Failure(error) => TabError(tab.name, error)
                        case Success(_) => old(footer)
    {
      match TryIsMatch(tab.Settings(), entry, runtime)
      case Success(isMatch) =>
        if isMatch {
          AppendLineToTab(tab, FormatEntry(entry));
        }
      case Failure(error) =>
        footer := TabError(tab.name, error);
    }

    /** AddEntry's loop over the tabs: each is offered the entry in turn. */
    method OfferToTabs(entry: LogEntry)
      requires Valid()
      modifies filterTabs`lines, this`footer
      ensures Abs() == old(Abs()).(tabs := OfferedUpTo(old(Abs()).tabs, entry, old(Abs()).isDarkTheme, runtime,
                                                       |old(Abs()).tabs|),
                                   footer := OfferFooter(old(Abs()).tabs, entry, old(Abs()).footer, runtime))
    {
      ghost var tabs := Views(filterTabs);
      assert tabs[..0] == [] && tabs[..|tabs|] == tabs;
      assert OfferedUpTo(tabs, entry, isDarkTheme, runtime, 0) == tabs;
      hide OfferedUpTo, OfferTab, TryIsMatch, OfferFooter;
      for i := 0 to |filterTabs|
        invariant Views(filterTabs) == OfferedUpTo(tabs, entry, isDarkTheme, runtime, i)
        invariant footer == OfferFooter(tabs[..i], entry, old(footer), runtime)
      {
        label Before:
        OfferEntry(filterTabs[i], entry);
        OneTabChanged@Before(i);
        OfferedNext(tabs, entry, isDarkTheme, runtime, old(footer), i);
      }
      TabsChanged();
    }

    /** The first half of AddEntry: the entry and its display line join their capped
        buffers, the raw text is refreshed unless a file is being loaded, and the
        history grows by the entry. */
    method BufferEntry(entry: LogEntry)
      requires Valid()
      modifies this`entries, this`rawLines, this`rawLogText, this`history
      ensures Abs() == old(Abs()).(entries := KeepLast(old(entries) + [entry], MaxBufferedLines),
                                   rawLines := rawLines, rawLogText := rawLogText, history := old(history) + [entry])
      ensures rawLines == KeepLast(old(rawLines) + [FormatEntry(entry)], MaxBufferedLines)
      ensures rawLogText == if isBulkLoading then old(rawLogText) else Joined(rawLines)
      ensures Valid()
    {
      var queued := EnqueueWithCap(entries, entry);
      var lines := EnqueueWithCap(rawLines, FormatEntry(entry));
      var text := rawLogText;
      if !isBulkLoading {
        text := JoinLines(lines);
      }
      entries, rawLines, rawLogText, history := queued, lines, text, history + [entry];
      TabsKept();
    }

    /** AddEntry: the entry and its display line join their capped buffers, the raw
        text is refreshed unless a file is being loaded, every tab is offered the
        entry, and outside a file load the footer shows the counters. */
    method AddEntry(entry: LogEntry)
      requires Valid()
      modifies this`entries, this`rawLines, this`rawLogText, this`history, this`footer, filterTabs`lines
      ensures Valid() && Abs() == States.AddEntry(old(Abs()), entry, runtime)
    {
      hide Views, KeepLast, Joined, OfferedUpTo, OfferFooter;
      BufferEntry(entry);
      OfferToTabs(entry);
      AddEntryThenCount(old(Abs()), Abs(), entry, runtime);
      if !isBulkLoading {
        UpdateFooterCounters();
      }
    }

    /** IngestLine: one more line received, then AddEntry; `timestamp` is the clock
        reading taken at this point. */
    method IngestLine(line: string, timestamp: nat)
      requires Valid()
      modifies this`totalReceived, this`entries, this`rawLines, this`rawLogText, this`history, this`footer
      modifies filterTabs`lines
      ensures Valid() && Abs() == States.IngestLine(old(Abs()), LogEntry(timestamp, line), runtime)
    {
      hide States.AddEntry;
      var entry := LogEntry(timestamp, line);
      totalReceived := totalReceived + 1;
      AddEntry(entry);
    }

    /** OnLineReceived's callback on the UI thread: ignored while paused, otherwise the
        raw view switches to the live source and the line is ingested. */
    method OnLineReceived(line: string, timestamp: nat)
      requires Valid()
      modifies this`isLiveSource, this`rawSourceName
      modifies this`totalReceived, this`entries, this`rawLines, this`rawLogText, this`history, this`footer
      modifies filterTabs`lines
      ensures Valid() && Abs() == ReceiveLine(old(Abs()), LogEntry(timestamp, line), runtime)
    {
      if isPaused {
        return;
      }
      SetLiveSource();
      IngestLine(line, timestamp);
    }

    /** OpenLogFile's loop over the file's lines: each is ingested in turn and
        counted. */
    method IngestLines(lines: seq<LogEntry>) returns (loaded: nat)
      requires Valid()
      modifies this`totalReceived, this`entries, this`rawLines, this`rawLogText, this`history, this`footer
      modifies filterTabs`lines
      ensures Valid() && Abs() == IngestAll(old(Abs()), lines, runtime) && loaded == |lines|
    {
      assert lines[..0] == [] && IngestAll(old(Abs()), [], runtime) == old(Abs());
      hide States.IngestLine, IngestAll;
      loaded := 0;
      for i := 0 to |lines|
        invariant Valid() && Abs() == IngestAll(old(Abs()), lines[..i], runtime) && loaded == i
      {
        IngestLine(lines[i].text, lines[i].timestamp);
        loaded := loaded + 1;
        IngestAllNext(old(Abs()), lines, i, runtime);
      }
      assert lines[..|lines|] == lines;
    }

    /** OpenLogFile, after the dialog: `outcome` is what the dialog and File.ReadLines
        gave. The logs are cleared, the raw view names the file, and the lines are
        ingested in bulk mode; on success the raw text is joined once and the footer
        reports the count, on failure it reports the error; bulk mode ends either way. */
    method OpenLogFile(outcome: LoadOutcome)
      requires Valid()
      modifies this`entries, this`rawLines, this`rawLogText, this`totalReceived, this`history, this`footer
      modifies this`isLiveSource, this`rawSourceName, this`isBulkLoading, filterTabs`lines, filterTabs`origin
      ensures Valid() && Abs() == States.OpenLogFile(old(Abs()), outcome, runtime)
    {
      if outcome.Cancelled? {
        return;
      }
      hide States.ClearLogs, States.SetFileSource, IngestAll, Joined, States.UpdateFooterCounters, States.OpenLogFile;
      ClearLogs();
      SetFileSource(outcome.fileName);
      label Sourced:
      isBulkLoading := true;
      LoadStateChanged@Sourced();
      var loaded := IngestLines(outcome.lines);
      OpenLogFileFinish(old(Abs()), outcome, Abs(), runtime);
      FinishLoad(outcome.failure, loaded, outcome.fileName);
    }

    /** The end of OpenLogFile: a read that completed joins the raw text and reports
        how many lines were loaded, a failed read reports the error; bulk mode ends
        either way. */
    method FinishLoad(failure: Option<string>, loaded: nat, fileName: string)
      requires Valid() && isBulkLoading
      modifies this`rawLogText, this`footer, this`isBulkLoading
      ensures Valid()
      ensures Abs() == old(Abs()).(rawLogText := if failure.None? then Joined(old(Abs()).rawLines) else old(Abs()).rawLogText,
                                   footer := if failure.None? then Loaded(loaded, fileName) else LoadFailed(failure.value),
                                   isBulkLoading := false)
    {
      label Start:
      match failure {
        case None =>
          rawLogText := JoinLines(rawLines);
          UpdateFooterCounters();
          footer := Loaded(loaded, fileName);
        case Some(message) =>
          footer := LoadFailed(message);
      }
      isBulkLoading := false;
      LoadStateChanged@Start();
    }

    /** AddFilterTab: a new tab joins the list, becomes the selection, and is rebuilt
        from the buffered entries. Subscribing to its FilterSettingsChanged is
        modelled by its membership of the list (see ConfigureTab). */
    method AddFilterTab()
      requires Valid()
      modifies this`nextFilterNumber, this`filterTabs, this`selectedFilterTab, this`footer
      ensures Valid() && Abs() == States.AddFilterTab(old(Abs()), runtime)
      ensures fresh(filterTabs[|filterTabs| - 1]) && filterTabs == old(filterTabs) + [filterTabs[|filterTabs| - 1]]
    {
      hide States.RebuildFilterTab, Views, Valid, Abs, NewTab;
      label Start:
      var tab := CreateNewFilterTab();
      filterTabs := filterTabs + [tab];
      NewTabAppended@Start(tab);
      PositionOfDistinct(filterTabs, |filterTabs| - 1);
      SelectTab(tab);
      RebuildFilterTab(tab);
    }

    /** RemoveSelectedFilterTab: without a selection nothing happens; otherwise the
        selected tab leaves the list (and stops being listened to), the last remaining
        tab, if any, is selected, and the footer shows the counters. */
    method RemoveSelectedFilterTab()
      requires Valid()
      modifies this`filterTabs, this`selectedFilterTab, this`footer
      ensures Valid() && Abs() == States.RemoveSelectedFilterTab(old(Abs()))
    {
      if selectedFilterTab == null {
        return;
      }
      var i := PositionOf(filterTabs, selectedFilterTab).value;
      hide Abs, Valid, Views;
      label Start:
      filterTabs := filterTabs[..i] + filterTabs[i + 1..];
      TabRemoved@Start(i);
      var last := if filterTabs == [] then null else filterTabs[|filterTabs| - 1];
      if last != null {
        PositionOfDistinct(filterTabs, |filterTabs| - 1);
      }
      SelectTab(last);
      RemovedThenCount(old(Abs()), i, Abs());
      hide States.UpdateFooterCounters, States.RemoveSelectedFilterTab;
      UpdateFooterCounters();
    }

    /** A setter on one of the tab's editors: the tab takes the new value, and a change
        raises FilterSettingsChanged, which rebuilds the tab when the view model
        listens to it, that is, when it is listed. */
    method ConfigureTab(tab: FilterTab, setting: TabSetting) returns (settingsChanged: bool)
      requires Valid()
      modifies tab`name, tab`expression, tab`useRegex, tab`matchCase, tab`selectedForegroundColor
      modifies tab`selectedBackgroundColor, tab`lines, tab`origin, this`footer
      ensures Valid() && settingsChanged == ApplySetting(old(tab.View()), setting).1
      ensures tab in filterTabs ==>
                Abs() == States.ConfigureTab(old(Abs()), PositionOf(filterTabs, tab).value, setting, runtime)
      ensures tab !in filterTabs ==> Abs() == old(Abs()) && tab.View() == ApplySetting(old(tab.View()), setting).0
    {
      var position := PositionOf(filterTabs, tab);
      if position.Some? {
        PositionOfDistinct(filterTabs, position.value);
        assert Abs().tabs[position.value] == tab.View();
      }
      hide Views, ApplySetting, States.RebuildFilterTab;
      label Start:
      settingsChanged := ApplyToTab(tab, setting);
      if position.Some? {
        TabChanged@Start(position.value);
        if settingsChanged {
          RebuildFilterTab(tab);
        }
      } else {
        TabsKept@Start();
      }
    }

    /** The constructor: the defaults, then one filter tab. The serial port service's
        events and the port list are not part of this model. */
    constructor(rt: Runtime)
      requires rt.Valid()
      ensures Valid() && runtime == rt && Abs() == Construct(rt)
    {
      runtime, colorOptions := rt, ColorOptions;
      entries, rawLines, rawLogText, totalReceived, nextFilterNumber := [], [], "", 0, 1;
      selectedFilterTab, isBulkLoading, isPaused, isDarkTheme, filterTabs := null, false, false, true, [];
      footer, isLiveSource, rawSourceName, history := Ready, true, "Live", [];
      new;
      assert Abs() == Initial();
      AddFilterTab();
    }
  }
}
