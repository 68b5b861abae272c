/** The main view model of UartLogTerminal/ViewModels/MainViewModel.cs as a state
    machine on values: everything the view model holds, and one transition per
    operation, each doing what the corresponding method does in the same order. */
module States {
  import opened Text
  import opened Models
  import opened FilterEngine
  import opened Highlight
  import opened History
  import opened Tabs
  import opened ViewSpec

  /** The view model's state. `selected` is the position of SelectedFilterTab in
      FilterTabs; `history` is every entry received since the last clear, which the
      view model does not keep but which says what its buffers and tabs show. */
  datatype ViewState = ViewState(
    entries: seq<LogEntry>,
    rawLines: seq<string>,
    rawLogText: string,
    totalReceived: nat,
    nextFilterNumber: nat,
    tabs: seq<TabView>,
    selected: Option<nat>,
    isBulkLoading: bool,
    isPaused: bool,
    isDarkTheme: bool,
    footer: Footer,
    isLiveSource: bool,
    rawSourceName: string,
    history: seq<LogEntry>)

  /** The field initialisers' values. */
  function Initial(): ViewState {
    ViewState([], [], "", 0, 1, [], None, false, false, true, Ready, true, "Live", [])
  }

  /** The counters UpdateFooterCounters shows. */
  function Counts(s: ViewState): Footer {
    Counters(s.totalReceived, |s.rawLines|,
             if s.selected.Some? && s.selected.value < |s.tabs| then |s.tabs[s.selected.value].lines| else 0,
             |s.tabs|)
  }

  /** UpdateFooterCounters. */
  function UpdateFooterCounters(s: ViewState): ViewState {
    s.(footer := Counts(s))
  }

  /** The SelectedFilterTab setter: a change updates the footer counters. */
  function Select(s: ViewState, selected: Option<nat>): (r: ViewState)
    ensures r == s.(selected := selected, footer := r.footer)
    ensures r.footer == if s.selected == selected then s.footer else Counts(r)
  {
    if s.selected == selected then s else UpdateFooterCounters(s.(selected := selected))
  }

  /** The IsPaused setter. */
  function SetPaused(s: ViewState, value: bool): ViewState {
    s.(isPaused := value)
  }

  /** SetLiveSource. */
  function SetLiveSource(s: ViewState): ViewState {
    s.(isLiveSource := true, rawSourceName := "Live")
  }

  /** SetFileSource: a blank file name shows as "Loaded File". */
  function SetFileSource(s: ViewState, fileName: string): ViewState {
    s.(isLiveSource := false, rawSourceName := if IsBlank(fileName) then "Loaded File" else fileName)
  }

  // ---------------------------------------------------------------------------
  // Ingestion

  /** One tab's share of AddEntry: a matching entry's display line is appended
      (AppendLineToTab); a pattern that does not parse leaves the tab as it is. */
  function OfferTab(t: TabView, e: LogEntry, isDarkTheme: bool, rt: Runtime): TabView
    requires rt.Valid()
  {
    match TryIsMatch(t.Settings(), e, rt)
    case Success(isMatch) =>
      if isMatch
      then t.(lines := KeepLast(t.lines + [Rendered(t.Style(), FormatEntry(e), isDarkTheme, rt)], MaxBufferedLines))
      else t
    case Failure(_) => t
  }

  /** The footer after AddEntry's pass over the tabs, starting from `footer`: each
      tab whose pattern does not parse reports its error, so the last one wins.
      (The error text always starts with "Filter error", so the guard against a
      blank error never skips a report.) */
  function OfferFooter(tabs: seq<TabView>, e: LogEntry, footer: Footer, rt: Runtime): (f: Footer)
    ensures (forall k :: 0 <= k < |tabs| ==> PatternOk(tabs[k].Settings(), rt)) ==> f == footer
    ensures f != footer ==> exists k :: 0 <= k < |tabs| && !PatternOk(tabs[k].Settings(), rt)
                                        && f == TabError(tabs[k].name, TryIsMatch(tabs[k].Settings(), e, rt).error)
    decreases |tabs|
  {
    if tabs == [] then footer
    else
      var last := tabs[|tabs| - 1];
      match TryIsMatch(last.Settings(), e, rt)
      case Failure(error) => TabError(last.name, error)
      case Success(_) =>
        var f := OfferFooter(tabs[..|tabs| - 1], e, footer, rt);
        assert forall k :: 0 <= k < |tabs| - 1 ==> tabs[..|tabs| - 1][k] == tabs[k];
        f
  }

  /** AddEntry: the entry and its display line join their capped buffers, the raw
      text is refreshed unless a file is being loaded, every tab is offered the
      entry, and outside a file load the footer shows the counters. */
  function AddEntry(s: ViewState, e: LogEntry, rt: Runtime): ViewState
    requires rt.Valid()
  {
    var rawLines := KeepLast(s.rawLines + [FormatEntry(e)], MaxBufferedLines);
    var s' := s.(entries := KeepLast(s.entries + [e], MaxBufferedLines),
                 rawLines := rawLines,
                 rawLogText := if s.isBulkLoading then s.rawLogText else Joined(rawLines),
                 tabs := seq(|s.tabs|, k requires 0 <= k < |s.tabs| => OfferTab(s.tabs[k], e, s.isDarkTheme, rt)),
                 footer := OfferFooter(s.tabs, e, s.footer, rt),
                 history := s.history + [e]);
    if s.isBulkLoading then s' else UpdateFooterCounters(s')
  }

  /** IngestLine: one more line received, then AddEntry. The entry carries the
      clock reading the source takes at this point. */
  function IngestLine(s: ViewState, e: LogEntry, rt: Runtime): ViewState
    requires rt.Valid()
  {
    AddEntry(s.(totalReceived := s.totalReceived + 1), e, rt)
  }

  /** OnLineReceived's callback on the UI thread: ignored while paused, otherwise the
      raw view switches to the live source and the line is ingested. */
  function ReceiveLine(s: ViewState, e: LogEntry, rt: Runtime): ViewState
    requires rt.Valid()
  {
    if s.isPaused then s else IngestLine(SetLiveSource(s), e, rt)
  }

  /** OpenLogFile's loop: the lines ingested one after another. */
  function IngestAll(s: ViewState, lines: seq<LogEntry>, rt: Runtime): ViewState
    requires rt.Valid()
    decreases |lines|
  {
    if lines == [] then s else IngestLine(IngestAll(s, lines[..|lines| - 1], rt), lines[|lines| - 1], rt)
  }

  // ---------------------------------------------------------------------------
  // Clearing and rebuilding

  /** ClearLogs: the buffers, the raw text, the counter and every tab's lines are
      emptied, and the footer shows the counters. */
  function ClearLogs(s: ViewState): ViewState {
    UpdateFooterCounters(
      s.(entries := [], rawLines := [], rawLogText := "", totalReceived := 0,
         tabs := seq(|s.tabs|, k requires 0 <= k < |s.tabs| => s.tabs[k].(lines := [], origin := 0)),
         history := []))
  }

  /** A tab after RebuildFilterTab's pass over the buffered entries: the display
      lines of the matching ones, capped, or none when the pattern does not parse
      (the first entry then fails and ends the pass). It now reflects the history
      from the oldest buffered entry on. */
  function RebuiltTab(t: TabView, s: ViewState, rt: Runtime): TabView
    requires rt.Valid()
  {
    t.(lines := if PatternOk(t.Settings(), rt)
                then KeepLast(MatchingLines(t.Style(), s.entries, s.isDarkTheme, rt), MaxBufferedLines)
                else [],
       origin := |s.history| - |s.entries|)
  }

  /** RebuildFilterTab for the tab at position i; whatever the pass reported, the
      footer ends up showing the counters. */
  function RebuildFilterTab(s: ViewState, i: nat, rt: Runtime): ViewState
    requires rt.Valid() && i < |s.tabs|
  {
    UpdateFooterCounters(s.(tabs := s.tabs[i := RebuiltTab(s.tabs[i], s, rt)]))
  }

  /** RebuildAllFilterTabs: every tab rebuilt in turn; the last rebuild leaves the
      counters in the footer. */
  function RebuildAllFilterTabs(s: ViewState, rt: Runtime): ViewState
    requires rt.Valid()
  {
    var s' := s.(tabs := seq(|s.tabs|, k requires 0 <= k < |s.tabs| => RebuiltTab(s.tabs[k], s, rt)));
    if s.tabs == [] then s' else UpdateFooterCounters(s')
  }

  /** The IsDarkTheme setter: a change re-renders every tab. */
  function SetDarkTheme(s: ViewState, value: bool, rt: Runtime): ViewState
    requires rt.Valid()
  {
    if s.isDarkTheme == value then s else RebuildAllFilterTabs(s.(isDarkTheme := value), rt)
  }

  // ---------------------------------------------------------------------------
  // Tabs

  /** ColorOptions.First(x => x.Name == name), None where First would throw. */
  function FirstNamed(options: seq<ColorOption>, name: string): (r: Option<ColorOption>)
    ensures r.Some? ==> r.value in options && r.value.name == name
    ensures r.None? <==> forall k :: 0 <= k < |options| ==> options[k].name != name
    decreases |options|
  {
    if options == [] then None
    else if options[0].name == name then Some(options[0])
    else
      var r := FirstNamed(options[1..], name);
      assert r.None? ==> forall k :: 1 <= k < |options| ==> options[k] == options[1..][k - 1];
      r
  }

  /** First returns the earliest option with the name. */
  lemma {:induction false} FirstNamedAt(options: seq<ColorOption>, name: string, k: nat)
    requires k < |options| && options[k].name == name
    requires forall j :: 0 <= j < k ==> options[j].name != name
    ensures FirstNamed(options, name) == Some(options[k])
    decreases k
  {
    if k > 0 {
      var rest := options[1..];
      assert rest[k - 1] == options[k];
      assert forall j :: 0 <= j < k - 1 ==> rest[j] == options[j + 1];
      FirstNamedAt(rest, name, k - 1);
    }
  }

  /** CreateNewFilterTab's tab number n: named after its number, the palette entry at
      the number as foreground (clamped to the last entry before "Transparent"),
      transparent background, empty expression. */
  function NewTab(n: nat): TabView {
    PaletteShape();
    TabView("Filter " + NatToString(n), "", false, false,
            Some(ColorOptions[Min(n, |ColorOptions| - 2)]), FirstNamed(ColorOptions, "Transparent"), [], 0)
  }

  /** The defaults of a new tab: its foreground is never transparent, its background
      is the palette's transparent entry, and it shows nothing yet. */
  lemma NewTabDefaults(n: nat)
    ensures NewTab(n).foreground.Some? && NewTab(n).foreground.value.brush != Transparent
    ensures NewTab(n).background == Some(ColorOptions[11]) && ColorOptions[11].brush == Transparent
    ensures NewTab(n).Settings() == FilterSettings("", false, false) && NewTab(n).lines == []
  {
    hide FirstNamed, NatToString, ColorOptions;
    PaletteShape();
    FirstNamedAt(ColorOptions, "Transparent", 11);
  }

  /** Distinct tab numbers give distinct default names. */
  lemma NewTabNamesDistinct(m: nat, n: nat)
    requires m != n
    ensures NewTab(m).name != NewTab(n).name
  {
    NatToStringInjective(m, n);
    var a, b := NewTab(m).name, NewTab(n).name;
    assert a[7..] == NatToString(m) && b[7..] == NatToString(n);
  }

  /** AddFilterTab: a new tab is appended, selected, and rebuilt from the buffered
      entries. */
  function AddFilterTab(s: ViewState, rt: Runtime): ViewState
    requires rt.Valid()
  {
    var s1 := s.(nextFilterNumber := s.nextFilterNumber + 1, tabs := s.tabs + [NewTab(s.nextFilterNumber)]);
    RebuildFilterTab(Select(s1, Some(|s.tabs|)), |s.tabs|, rt)
  }

  /** RemoveSelectedFilterTab: without a selection nothing happens; otherwise the
      selected tab leaves the list, the last remaining tab (if any) is selected, and
      the footer shows the counters. */
  function RemoveSelectedFilterTab(s: ViewState): ViewState {
    match s.selected
    case None => s
    case Some(i) =>
      if i < |s.tabs| then
        var tabs := s.tabs[..i] + s.tabs[i + 1..];
        UpdateFooterCounters(s.(tabs := tabs, selected := if tabs == [] then None else Some(|tabs| - 1)))
      else s
  }

  /** MainViewModel(serialPortService): the defaults, then one filter tab. */
  function Construct(rt: Runtime): ViewState
    requires rt.Valid()
  {
    AddFilterTab(Initial(), rt)
  }

  /** One of the settings a tab's editors can change. */
  datatype TabSetting =
    | NameSetting(name: string)
    | ExpressionSetting(expression: string)
    | UseRegexSetting(useRegex: bool)
    | MatchCaseSetting(matchCase: bool)
    | ForegroundSetting(foreground: Option<ColorOption>)
    | BackgroundSetting(background: Option<ColorOption>)

  /** A tab setter: the tab with the new value, and whether it changed (only then is
      FilterSettingsChanged raised). */
  function ApplySetting(t: TabView, setting: TabSetting): (r: (TabView, bool))
    ensures setting.NameSetting? ==>
      r.0 == t.(name := setting.name) && (r.1 <==> t.name != setting.name)
    ensures setting.ExpressionSetting? ==>
      r.0 == t.(expression := setting.expression) && (r.1 <==> t.expression != setting.expression)
    ensures setting.UseRegexSetting? ==>
      r.0 == t.(useRegex := setting.useRegex) && (r.1 <==> t.useRegex != setting.useRegex)
    ensures setting.MatchCaseSetting? ==>
      r.0 == t.(matchCase := setting.matchCase) && (r.1 <==> t.matchCase != setting.matchCase)
    ensures setting.ForegroundSetting? ==>
      r.0 == t.(foreground := setting.foreground) && (r.1 <==> t.foreground != setting.foreground)
    ensures setting.BackgroundSetting? ==>
      r.0 == t.(background := setting.background) && (r.1 <==> t.background != setting.background)
    ensures !r.1 ==> r.0 == t
    ensures r.0.lines == t.lines && r.0.origin == t.origin
  {
    match setting
    case NameSetting(v) => var (x, c) := SetProperty(t.name, v); (t.(name := x), c)
    case ExpressionSetting(v) => var (x, c) := SetProperty(t.expression, v); (t.(expression := x), c)
    case UseRegexSetting(v) => var (x, c) := SetProperty(t.useRegex, v); (t.(useRegex := x), c)
    case MatchCaseSetting(v) => var (x, c) := SetProperty(t.matchCase, v); (t.(matchCase := x), c)
    case ForegroundSetting(v) => var (x, c) := SetProperty(t.foreground, v); (t.(foreground := x), c)
    case BackgroundSetting(v) => var (x, c) := SetProperty(t.background, v); (t.(background := x), c)
  }

  /** A setter on the tab at position i; a change of any setting rebuilds the tab
      (OnFilterSettingsChanged). */
  function ConfigureTab(s: ViewState, i: nat, setting: TabSetting, rt: Runtime): ViewState
    requires rt.Valid() && i < |s.tabs|
  {
    var (t, changed) := ApplySetting(s.tabs[i], setting);
    var s' := s.(tabs := s.tabs[i := t]);
    if changed then RebuildFilterTab(s', i, rt) else s'
  }

  // ---------------------------------------------------------------------------
  // Loading a file

  /** What OpenLogFile got from the dialog and the file: cancelled, or the file's
      name and the lines read before the end of the file or before reading failed
      with `failure`; each line comes with the clock reading at its ingestion. */
  datatype LoadOutcome =
    | Cancelled
    | Read(fileName: string, lines: seq<LogEntry>, failure: Option<string>)

  /** OpenLogFile: after the dialog, the logs are cleared, the raw view names the
      file, and the lines are ingested in bulk mode; on success the raw text is
      joined once and the footer reports the count, on failure the footer reports
      the error; bulk mode ends either way. */
  function OpenLogFile(s: ViewState, outcome: LoadOutcome, rt: Runtime): ViewState
    requires rt.Valid()
  {
    match outcome
    case Cancelled => s
    case Read(fileName, lines, failure) =>
      var loading := IngestAll(SetFileSource(ClearLogs(s), fileName).(isBulkLoading := true), lines, rt);
      var done := match failure
        case None =>
          UpdateFooterCounters(loading.(rawLogText := Joined(loading.rawLines))).(footer := Loaded(|lines|, fileName))
        case Some(message) => loading.(footer := LoadFailed(message));
      done.(isBulkLoading := false)
  }
}
