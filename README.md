# UartLogTerminal log pipeline in Dafny

UartLogTerminal is a WPF terminal for serial (UART) devices. The serial port service
cuts incoming text into lines. The main view model then does four things with them:
- keeps the newest 5000 entries and their display lines;
- shows the raw lines as one text;
- feeds every line to a set of filter tabs, each with an expression, a regex flag, a
  match-case flag and two colours;
- renders each included line as coloured segments that highlight the matches.

Changing a tab's settings rebuilds that tab from the buffered entries. A log file can
be loaded in place of the live stream.

This project models that pipeline and proves properties of the model. The modules
follow the program's classes:

| file | module | models |
|---|---|---|
| text.dfy | Text | the string primitives the core calls: white-space test, `TrimEnd('\r')`, `IndexOf`, `Contains`, decimal rendering of counters |
| models.dfy | Models | the records `LogEntry`, `LineSegment`, `ColoredLogLine`, `ColorOption`; the palette; `FormatEntry` |
| line_framer.dfy | LineFramer | `SerialPortService` as a class: buffer, line framing, `Close` |
| filter_engine.dfy | FilterEngine | `FilterEngine.IsMatch` and the runtime services it relies on |
| highlight.dfy | Highlight | `FindMatches` and `BuildSegments`: specification functions, and the loops proved equal to them |
| history.dfy | History | the capped queues (`EnqueueWithCap`) and `JoinLines` |
| filter_tab.dfy | Tabs | `FilterTabViewModel` as a class: setters with the `SetProperty` guard, brush getters |
| view_model_spec.dfy | ViewSpec | `TryIsMatch`, the rendered line, the lines a rebuild produces |
| state_machine.dfy | States | the main view model as a value (`ViewState`) with one transition per operation |
| invariants.dfy | Invariants | the invariant every transition keeps: buffers, counter and tabs agree with everything received |
| main_view_model.dfy | ViewModel | `MainViewModel` as a class; each method is proved to move `Abs()` by its transition |

How the model is layered:
- `ViewModel.MainViewModel` holds the source's fields. Each of its methods is proved to
  change the abstract value `Abs()` exactly as the matching `States` transition does.
- The `Invariants` lemmas prove that every transition keeps `Inv`. `Inv` says:
  - the entry buffer is the newest 5000 of the entries received since the last clear;
  - the raw lines are their display lines;
  - the counter counts what was received;
  - every tab shows the newest 5000 display lines of the entries it matches, counted
    from its last rebuild, or nothing when its pattern does not parse.
- `history`, the list of every entry received since the last clear, is ghost state.
  The source does not keep it. It only serves to state the invariant.

The runtime services the model does not define are parameters, bundled in the
`FilterEngine.Runtime` value:
- `fold` is the per-character mapping `StringComparison.OrdinalIgnoreCase` compares under.
- `regexError(pattern, ignoreCase)` is the message of the exception an unparsable
  pattern raises, or None when the pattern parses.
- `regexMatches(pattern, text, ignoreCase)` is the list of successive matches.

A regular expression's failure depends only on the pattern: .NET parses the pattern
before matching, and the source sets no match timeout. Consequently:
- a pattern that `IsMatch` accepts never makes `BuildSegments` throw;
- a rebuild with an unparsable pattern fails on the first buffered entry.

The wall clock is also a parameter: the timestamp of each ingested line, in
milliseconds of the local day.

Behaviour of the source worth knowing:
- **Default foreground.** A new tab's default foreground is palette entry `min(n, Count - 2)`.
  From tab 10 on, it stays at "Light Gray"; it does not wrap around the palette
  (UartLogTerminal/ViewModels/MainViewModel.cs:310).
- **Rebuild with an invalid pattern.** `RebuildFilterTab` clears the tab before its pass.
  Regex failure depends only on the pattern, so the first buffered entry fails. The
  tab is therefore left empty; it does not keep the lines it showed before
  (UartLogTerminal/ViewModels/MainViewModel.cs:568-589).
- **Filter-error footer.** The footer `"{tab}: Filter error: …"` never survives the
  operation that sets it:
  - `RebuildFilterTab` always ends with `UpdateFooterCounters`;
  - `AddEntry` does too, outside a file load;
  - a file load ends with "Loaded …" or "Load failed …"
  (UartLogTerminal/ViewModels/MainViewModel.cs:479-519, 533-566, 568-589, 742-746).
- **Plain-mode spans.** A plain-mode span always has the expression's length. With the
  expression "ERR" and case ignored, the span in "Error: disk ERR 2" covers "Err", not
  the whole word "Error" (UartLogTerminal/ViewModels/MainViewModel.cs:722).

## Model

| member | source | states |
|---|---|---|
| Text.TrimEndCR | UartLogTerminal/Services/SerialPortService.cs:113 | the result is a prefix of the input that does not end in '\r', and everything cut off was '\r' |
| Text.IndexOf | UartLogTerminal/ViewModels/MainViewModel.cs:716 | -1 exactly when no occurrence starts at or after `from`; otherwise an occurrence with none before it from `from` on |
| Text.Contains | UartLogTerminal/Filtering/FilterEngine.cs:18 | true exactly when the expression occurs somewhere in the text under the comparison |
| Text.NatToString | UartLogTerminal/ViewModels/MainViewModel.cs:315 | the rendering of a tab number is a non-empty string of decimal digits that starts with '0' only for 0 |
| Text.NatToStringRoundTrip | UartLogTerminal/ViewModels/MainViewModel.cs:315 | reading the rendered digits back gives the number |
| Text.NatToStringInjective | UartLogTerminal/ViewModels/MainViewModel.cs:308-315 | distinct numbers render as distinct strings |
| Models.PaletteShape | UartLogTerminal/ViewModels/MainViewModel.cs:278-295 | the palette has twelve colours; the last is the only transparent one and the only one named "Transparent" |
| Models.Pad2 | UartLogTerminal/ViewModels/MainViewModel.cs:750 | a two-digit field is two decimal digits that read back as the number |
| Models.Pad3 | UartLogTerminal/ViewModels/MainViewModel.cs:750 | a three-digit field is three decimal digits that read back as the number |
| Models.FormatTimestamp | UartLogTerminal/ViewModels/MainViewModel.cs:750 | the time of day is 12 characters with ':' ':' '.' at the HH:mm:ss.fff positions, and its four fields read back as the hour of the day, the minute, the second and the millisecond |
| Models.FormatEntry | UartLogTerminal/ViewModels/MainViewModel.cs:748-751 | a display line is the 12-character timestamp, " \| ", then the entry's text unchanged |
| LineFramer.LineBreakIndex | UartLogTerminal/Services/SerialPortService.cs:119-130 | -1 exactly when the buffer has no '\n'; otherwise the index of a '\n' with none before it |
| LineFramer.LineBreakIndexUnique | UartLogTerminal/Services/SerialPortService.cs:119-130 | any '\n' not preceded by another is the index found |
| LineFramer.SerialPortService.FindLineBreakIndex | UartLogTerminal/Services/SerialPortService.cs:119-130 | the `for` scan returns the first line break's index, or -1 |
| LineFramer.Split | UartLogTerminal/Services/SerialPortService.cs:103-117 | the complete lines and the remainder hold no '\n', and the lines, each followed by '\n', then the remainder, give back the input |
| LineFramer.SplitUnique | UartLogTerminal/Services/SerialPortService.cs:103-117 | every such decomposition of the buffer is the one Split gives, so lines come out in input order |
| LineFramer.ChunkBoundaryIndependent | UartLogTerminal/Services/SerialPortService.cs:91-95 | splitting s then feeding t after the remainder emits the same lines and leaves the same remainder as splitting s + t at once |
| LineFramer.SplitCount | UartLogTerminal/Services/SerialPortService.cs:105-116 | the number of complete lines is the number of '\n' in the buffer |
| LineFramer.TrimAll | UartLogTerminal/Services/SerialPortService.cs:113 | each emitted line is its raw line with trailing carriage returns trimmed, one for one |
| LineFramer.EmittedLinesClean | UartLogTerminal/Services/SerialPortService.cs:113 | every emitted line is a prefix of its raw line, without '\n', not ending in '\r', and only '\r' was cut |
| LineFramer.EmittedCount | UartLogTerminal/Services/SerialPortService.cs:91-95 | with a remainder-only buffer, a chunk emits one line per '\n' it holds |
| LineFramer.SerialPortService.constructor | UartLogTerminal/Services/SerialPortService.cs:8-9 | a new service has an empty buffer and no port |
| LineFramer.SerialPortService.Open | UartLogTerminal/Services/SerialPortService.cs:21-39 | opening while a port is open fails with "Port is already open."; afterwards a port is attached and open |
| LineFramer.SerialPortService.Close | UartLogTerminal/Services/SerialPortService.cs:41-59 | closing detaches the port and discards any partial line; with no port it changes nothing |
| LineFramer.SerialPortService.EmitCompletedLines | UartLogTerminal/Services/SerialPortService.cs:103-117 | the loop emits exactly the trimmed complete lines of the buffer and leaves the remainder, which holds no '\n' |
| LineFramer.SerialPortService.OnDataReceived | UartLogTerminal/Services/SerialPortService.cs:76-101 | with no open port or an empty chunk nothing is emitted and the buffer is unchanged; otherwise the lines of buffer + chunk are emitted and its remainder is kept |
| FilterEngine.IsMatch | UartLogTerminal/Filtering/FilterEngine.cs:8-28 | blank expression: always included; plain mode: included exactly when the expression occurs under Ordinal or OrdinalIgnoreCase; regex mode: fails exactly when the pattern does not parse, else included exactly when there is a match |
| FilterEngine.IsMatchIgnoresTimestamp | UartLogTerminal/Filtering/FilterEngine.cs:8-28 | entries with the same text get the same verdict, whatever their timestamps |
| FilterEngine.OrdinalMatchIsSubstring | UartLogTerminal/Filtering/FilterEngine.cs:15-18 | with match case in plain mode, inclusion is exactly "the expression is a substring of the text" |
| Tabs.SetProperty | UartLogTerminal/ViewModels/ObservableObject.cs:10-20 | the field takes the value, and the change is reported exactly when the value differs |
| Tabs.ForegroundOf | UartLogTerminal/ViewModels/FilterTabViewModel.cs:92 | the chosen colour's brush, black when none is chosen |
| Tabs.BackgroundOf | UartLogTerminal/ViewModels/FilterTabViewModel.cs:93 | the chosen colour's brush, transparent when none is chosen |
| Tabs.FilterTab.ForegroundBrush | UartLogTerminal/ViewModels/FilterTabViewModel.cs:92 | the selected foreground colour's brush, black when none is selected |
| Tabs.FilterTab.BackgroundBrush | UartLogTerminal/ViewModels/FilterTabViewModel.cs:93 | the selected background colour's brush, transparent when none is selected |
| Tabs.FilterTab.constructor | UartLogTerminal/ViewModels/FilterTabViewModel.cs:9-18 | a fresh tab is named "Filter", has an empty expression, both flags off, no colours and no lines |
| Tabs.FilterTab.SetName | UartLogTerminal/ViewModels/FilterTabViewModel.cs:20-30 | stores the name, changes nothing else, and reports a change exactly when the value differs |
| Tabs.FilterTab.SetExpression | UartLogTerminal/ViewModels/FilterTabViewModel.cs:32-42 | stores the expression, changes nothing else, and reports a change exactly when the value differs |
| Tabs.FilterTab.SetUseRegex | UartLogTerminal/ViewModels/FilterTabViewModel.cs:44-54 | stores the flag, changes nothing else, and reports a change exactly when the value differs |
| Tabs.FilterTab.SetMatchCase | UartLogTerminal/ViewModels/FilterTabViewModel.cs:56-66 | stores the flag, changes nothing else, and reports a change exactly when the value differs |
| Tabs.FilterTab.SetSelectedForegroundColor | UartLogTerminal/ViewModels/FilterTabViewModel.cs:68-78 | stores the colour, changes nothing else, and reports a change exactly when the value differs |
| Tabs.FilterTab.SetSelectedBackgroundColor | UartLogTerminal/ViewModels/FilterTabViewModel.cs:80-90 | stores the colour, changes nothing else, and reports a change exactly when the value differs |
| History.KeepLast | UartLogTerminal/ViewModels/MainViewModel.cs:753-760 | a capped queue holds min(length, cap) elements |
| History.KeepLastAppend | UartLogTerminal/ViewModels/MainViewModel.cs:535-541 | capping after every enqueue keeps the same elements as capping once at the end |
| History.KeepLastFits | UartLogTerminal/ViewModels/MainViewModel.cs:756 | a queue within the cap loses nothing |
| History.EnqueueWithCap | UartLogTerminal/ViewModels/MainViewModel.cs:753-760 | the enqueue-and-dequeue loop leaves the newest 5000 elements, the new value last |
| History.JoinFromNonEmpty | UartLogTerminal/ViewModels/MainViewModel.cs:762-776 | once the builder holds text, each further line is preceded by a line break |
| History.JoinedIsIntercalate | UartLogTerminal/ViewModels/MainViewModel.cs:762-776 | when the first line is not empty, the raw text is the lines joined with a line break between neighbours |
| History.JoinedSkipsLeadingEmpty | UartLogTerminal/ViewModels/MainViewModel.cs:767-770 | a leading empty line leaves no trace, not even a line break |
| History.JoinLines | UartLogTerminal/ViewModels/MainViewModel.cs:762-776 | the StringBuilder loop computes the joined raw text |
| Highlight.PlainScan | UartLogTerminal/ViewModels/MainViewModel.cs:712-724 | every span has the expression's length and marks an occurrence; spans start at or after the scan's start and each starts at least max(1, length) after the previous one |
| Highlight.PlainScanComplete | UartLogTerminal/ViewModels/MainViewModel.cs:712-724 | every occurrence of a non-empty expression at or after the start lies inside some span |
| Highlight.SortByStart | UartLogTerminal/ViewModels/MainViewModel.cs:727 | the sort is a permutation of the spans, ordered by start |
| Highlight.SortSortedIdentity | UartLogTerminal/ViewModels/MainViewModel.cs:727 | spans already in order are left as they are |
| Highlight.DropOverlaps | UartLogTerminal/ViewModels/MainViewModel.cs:728-737 | the kept spans start at or after lastEnd, do not overlap, are drawn from the input, and the first span is kept when it starts at or after lastEnd |
| Highlight.DropOverlapsKeepsEarlier | UartLogTerminal/ViewModels/MainViewModel.cs:728-737 | a dropped span starts before lastEnd or inside an earlier kept span, so the first-found span wins |
| Highlight.DropOverlapsIdentity | UartLogTerminal/ViewModels/MainViewModel.cs:728-737 | spans that already do not overlap are all kept |
| Highlight.PositiveOnly | UartLogTerminal/ViewModels/MainViewModel.cs:702-708 | only non-empty regex matches are kept, each drawn from the matches |
| Highlight.RawMatches | UartLogTerminal/ViewModels/MainViewModel.cs:691-725 | the collected spans of a non-blank expression lie inside the text and are not empty |
| Highlight.Matches | UartLogTerminal/ViewModels/MainViewModel.cs:684-740 | fails exactly when the pattern does not parse, with the regex's message; a blank expression gives no spans; otherwise the spans lie in the text, are not empty, and each ends at or before the next one starts |
| Highlight.PlainMatchesAreScan | UartLogTerminal/ViewModels/MainViewModel.cs:712-739 | in plain mode the sort and the greedy pass change nothing: the spans are the scan's |
| Highlight.PlainVerdictAgreesWithSpans | UartLogTerminal/Filtering/FilterEngine.cs:15-18 | in plain mode with a non-blank expression, a text is included exactly when it has spans |
| Highlight.IncludedPlainLineIsHighlighted | UartLogTerminal/ViewModels/MainViewModel.cs:549-553 | in plain mode an included entry's display line has at least one highlight |
| Highlight.ZeroLengthRegexMatchesIncludeUnhighlighted | UartLogTerminal/ViewModels/MainViewModel.cs:549-553 | a regex with matches on the text but only empty ones on the display line includes the entry without any highlight |
| Highlight.Gap | UartLogTerminal/ViewModels/MainViewModel.cs:651-659 | the default-styled segments of a gap concatenate to exactly the gap's text |
| Highlight.SegmentsFrom | UartLogTerminal/ViewModels/MainViewModel.cs:646-681 | the segments from the cursor concatenate to the text from the cursor |
| Highlight.SegmentsFromPositions | UartLogTerminal/ViewModels/MainViewModel.cs:646-681 | span k's segment, the span's text in the tab's brushes, sits at position HitPositions[k]; the segments before it cover the text from the cursor to the span's start; the positions strictly increase with k; every other segment is default-styled |
| Highlight.SegmentsFromStyled | UartLogTerminal/ViewModels/MainViewModel.cs:651-679 | every segment has the default style or the tab's; with non-empty spans no segment is empty |
| Highlight.Segmentation | UartLogTerminal/ViewModels/MainViewModel.cs:633-681 | the segments of a line for well-formed spans concatenate to the line |
| Highlight.SegmentationLayout | UartLogTerminal/ViewModels/MainViewModel.cs:633-681 | each span's segment is at its position with the text before it ending where the span starts, the positions increase with the spans, every other segment is default-styled, every segment has the default or the tab's style, and none is empty unless the line is |
| Highlight.Segmented | UartLogTerminal/ViewModels/MainViewModel.cs:629-682 | fails exactly when the pattern does not parse; segments concatenate to the text; no spans give one default segment of the whole text; span k's segment is at position HitPositions[k], after segments covering exactly the text before the span, in span order; every other segment is default-styled; every segment has the default or the tab's style; none is empty for a non-empty line |
| Highlight.BlankExpressionPassesThrough | UartLogTerminal/ViewModels/MainViewModel.cs:686-689 | a blank expression includes every entry and renders it as one default segment |
| Highlight.FindMatches | UartLogTerminal/ViewModels/MainViewModel.cs:684-740 | the collecting loop, the sort and the greedy loop compute Matches |
| Highlight.CollectRegexMatches | UartLogTerminal/ViewModels/MainViewModel.cs:702-708 | the regex loop keeps exactly the non-empty matches, in order |
| Highlight.CollectPlainMatches | UartLogTerminal/ViewModels/MainViewModel.cs:713-724 | the IndexOf loop computes the plain scan from index 0 |
| Highlight.RemoveOverlaps | UartLogTerminal/ViewModels/MainViewModel.cs:728-737 | the greedy loop, with lastEnd starting at -1, computes DropOverlaps |
| Highlight.BuildSegments | UartLogTerminal/ViewModels/MainViewModel.cs:629-682 | the method computes Segmented |
| Highlight.CutSegments | UartLogTerminal/ViewModels/MainViewModel.cs:646-681 | the cursor loop over the spans computes SegmentsFrom from 0 |
| ViewSpec.TryIsMatch | UartLogTerminal/ViewModels/MainViewModel.cs:599-613 | succeeds exactly when the pattern parses, with IsMatch's verdict; a failure carries "Filter error: " and the message, which is never blank |
| ViewSpec.TryIsMatchFailsAlike | UartLogTerminal/ViewModels/MainViewModel.cs:599-613 | whether and how matching fails does not depend on the entry |
| ViewSpec.Rendered | UartLogTerminal/ViewModels/MainViewModel.cs:615-621 | the appended line keeps its text, and its segments concatenate back to it |
| ViewSpec.MatchingLines | UartLogTerminal/ViewModels/MainViewModel.cs:572-580 | a pass over the entries yields at most one line per entry |
| ViewSpec.MatchingLinesWellFormed | UartLogTerminal/ViewModels/MainViewModel.cs:572-580 | every line a pass yields has segments that concatenate to its text |
| ViewSpec.MatchingLinesAppend | UartLogTerminal/ViewModels/MainViewModel.cs:572-580 | the pass over a + b is the pass over a followed by the pass over b, so order is arrival order |
| ViewSpec.MatchingLinesSingle | UartLogTerminal/ViewModels/MainViewModel.cs:574-579 | one entry yields its rendered display line exactly when it is included |
| ViewSpec.OfferAgreesWithRebuild | UartLogTerminal/ViewModels/MainViewModel.cs:547-589 | offering a new entry to a tab showing a rebuild gives what a rebuild over the entries plus it shows |
| ViewSpec.FormatAll | UartLogTerminal/ViewModels/MainViewModel.cs:541 | the raw lines are the entries' display lines, one for one |
| ViewSpec.FormatAllKeepLast | UartLogTerminal/ViewModels/MainViewModel.cs:535-541 | capping entries and raw lines separately keeps the raw lines the display lines of the kept entries |
| States.Select | UartLogTerminal/ViewModels/MainViewModel.cs:217-228 | only the selection and footer change, and the footer shows the counters exactly when the selection changed |
| States.OfferFooter | UartLogTerminal/ViewModels/MainViewModel.cs:547-560 | with every pattern parsing the footer is unchanged; otherwise it names a tab whose pattern fails, with its error |
| States.FirstNamed | UartLogTerminal/ViewModels/MainViewModel.cs:311 | finds a palette entry with the name, or none exactly when no entry has it |
| States.FirstNamedAt | UartLogTerminal/ViewModels/MainViewModel.cs:311 | the entry found is the earliest with the name |
| States.NewTabDefaults | UartLogTerminal/ViewModels/MainViewModel.cs:306-319 | a new tab's foreground is never transparent, its background is the palette's transparent entry, its filter is blank and it shows nothing |
| States.NewTabNamesDistinct | UartLogTerminal/ViewModels/MainViewModel.cs:308-315 | tabs created with distinct numbers have distinct default names |
| States.ApplySetting | UartLogTerminal/ViewModels/FilterTabViewModel.cs:20-90 | each setter stores its value in its own field only, and reports a change exactly when the new value differs from the old; no setting touches the tab's lines |
| States.UpdateFooterCounters | UartLogTerminal/ViewModels/MainViewModel.cs:742-746 | the footer shows the received, visible-raw, selected-tab and tab counts; bounds stated by Invariants.CountsBounded |
| States.SetPaused | UartLogTerminal/ViewModels/MainViewModel.cs:121-125 | only the paused flag changes; stated by ViewModel.MainViewModel.SetPaused |
| States.SetLiveSource | UartLogTerminal/ViewModels/MainViewModel.cs:783-787 | the raw view is live and named "Live"; stated by ViewModel.MainViewModel.SetLiveSource |
| States.SetFileSource | UartLogTerminal/ViewModels/MainViewModel.cs:789-793 | the raw view names the file, or "Loaded File" for a blank name; stated by ViewModel.MainViewModel.SetFileSource |
| States.OfferTab | UartLogTerminal/ViewModels/MainViewModel.cs:547-560 | one tab is offered an entry: a matching one's line is appended and capped; stated by Invariants.OfferKeepsConsistent and ViewSpec.OfferAgreesWithRebuild |
| States.AddEntry | UartLogTerminal/ViewModels/MainViewModel.cs:533-566 | buffers, raw text, tabs and footer after one entry; stated by Invariants.IngestShape and Invariants.IngestKeepsCore |
| States.IngestLine | UartLogTerminal/ViewModels/MainViewModel.cs:521-531 | one more line counted, then AddEntry; stated by Invariants.IngestShape and Invariants.IngestKeepsCore |
| States.ReceiveLine | UartLogTerminal/ViewModels/MainViewModel.cs:465-477 | a paused state ignores the line, otherwise it goes live and ingests it; stated by Invariants.ReceiveKeepsInv |
| States.IngestAll | UartLogTerminal/ViewModels/MainViewModel.cs:498-505 | the file's lines ingested in order; stated by Invariants.IngestAllKeepsCore |
| States.ClearLogs | UartLogTerminal/ViewModels/MainViewModel.cs:435-448 | history, buffers, counter and every tab emptied, counters in the footer; stated by Invariants.ClearKeepsInv |
| States.RebuiltTab | UartLogTerminal/ViewModels/MainViewModel.cs:568-589 | a tab after a rebuild pass; stated by Invariants.RebuiltTabConsistent |
| States.RebuildFilterTab | UartLogTerminal/ViewModels/MainViewModel.cs:568-589 | one tab rebuilt, counters in the footer; stated by Invariants.RebuildRestoresCore and Invariants.RebuildIdempotent |
| States.RebuildAllFilterTabs | UartLogTerminal/ViewModels/MainViewModel.cs:591-597 | every tab rebuilt; stated by Invariants.RebuildAllKeepsCore |
| States.SetDarkTheme | UartLogTerminal/ViewModels/MainViewModel.cs:243-258 | a theme change re-renders every tab; stated by Invariants.SetDarkThemeKeepsInv |
| States.NewTab | UartLogTerminal/ViewModels/MainViewModel.cs:306-319 | the defaults of tab number n; stated by States.NewTabDefaults and States.NewTabNamesDistinct |
| States.AddFilterTab | UartLogTerminal/ViewModels/MainViewModel.cs:297-304 | a new tab appended, selected and filled; stated by Invariants.AddTabKeepsInv and Invariants.AddThenRemove |
| States.RemoveSelectedFilterTab | UartLogTerminal/ViewModels/MainViewModel.cs:321-332 | the selected tab leaves the list and the last remaining one is selected; stated by Invariants.RemoveKeepsInv |
| States.Construct | UartLogTerminal/ViewModels/MainViewModel.cs:49-79 | the defaults plus one tab; stated by Invariants.ConstructInv |
| States.ConfigureTab | UartLogTerminal/ViewModels/MainViewModel.cs:450-458 | a changed setting rebuilds the tab; stated by Invariants.ConfigureKeepsInv |
| States.OpenLogFile | UartLogTerminal/ViewModels/MainViewModel.cs:479-519 | clear, load in bulk mode, then report; stated by Invariants.LoadKeepsInv, Invariants.LoadedTabsShowFile and Invariants.FailedLoadLeavesRawTextStale |
| Invariants.OfferKeepsConsistent | UartLogTerminal/ViewModels/MainViewModel.cs:547-560 | offering the newest entry keeps a tab consistent with the history extended by it |
| Invariants.RebuiltTabConsistent | UartLogTerminal/ViewModels/MainViewModel.cs:568-589 | a rebuilt tab shows the matching lines of the buffered entries, or nothing for a bad pattern, and is consistent with the history |
| Invariants.CountsBounded | UartLogTerminal/ViewModels/MainViewModel.cs:742-746 | the footer's visible-raw count is min(received, 5000), the selected tab's count is at most that, and the filter count is the number of tabs |
| Invariants.IngestShape | UartLogTerminal/ViewModels/MainViewModel.cs:521-566 | ingesting counts one more line, caps both buffers with the new entry last, refreshes the raw text unless loading, offers the entry to every tab, and otherwise changes nothing |
| Invariants.IngestKeepsCore | UartLogTerminal/ViewModels/MainViewModel.cs:521-566 | ingesting keeps the invariant's core, extends the history by the entry, and outside a file load leaves the raw text current and the counters in the footer |
| Invariants.IngestAllKeepsCore | UartLogTerminal/ViewModels/MainViewModel.cs:501-505 | a bulk load's lines keep the core, become the history, and leave the raw text untouched while loading |
| Invariants.ReceiveKeepsInv | UartLogTerminal/ViewModels/MainViewModel.cs:465-477 | a paused view model ignores a line; otherwise the line joins the history, the raw view is live, and the raw text and footer are current |
| Invariants.ClearKeepsInv | UartLogTerminal/ViewModels/MainViewModel.cs:435-448 | clearing empties the history, buffers and every tab, and the footer shows zero counts |
| Invariants.RebuildRestoresCore | UartLogTerminal/ViewModels/MainViewModel.cs:568-589 | rebuilding one tab makes it consistent again, shows its matching buffered lines and changes no other tab |
| Invariants.RebuildIdempotent | UartLogTerminal/ViewModels/MainViewModel.cs:568-589 | rebuilding a tab twice gives what rebuilding it once gives |
| Invariants.RebuildAllKeepsCore | UartLogTerminal/ViewModels/MainViewModel.cs:591-597 | rebuilding every tab leaves each showing its matching buffered lines |
| Invariants.SetDarkThemeKeepsInv | UartLogTerminal/ViewModels/MainViewModel.cs:243-258 | the theme setter keeps the invariant and does nothing when the value is unchanged |
| Invariants.SelectKeepsInv | UartLogTerminal/ViewModels/MainViewModel.cs:217-228 | selecting a listed tab, or none, keeps the invariant and sets the selection to it |
| Invariants.AddTabKeepsInv | UartLogTerminal/ViewModels/MainViewModel.cs:297-304 | adding a tab appends it named after the counter, selects it, fills it from the buffered entries and bumps the counter |
| Invariants.RemoveKeepsInv | UartLogTerminal/ViewModels/MainViewModel.cs:321-332 | removing does nothing without a selection; otherwise there is one tab fewer and the footer shows the counters |
| Invariants.AddThenRemove | UartLogTerminal/ViewModels/MainViewModel.cs:297-332 | removing the tab just added gives back the tab list |
| Invariants.ConfigureKeepsInv | UartLogTerminal/ViewModels/MainViewModel.cs:450-458 | an unchanged setting changes nothing; a changed one rebuilds the tab with its new settings |
| Invariants.InitialInv | UartLogTerminal/ViewModels/MainViewModel.cs:22-47 | the field initialisers give an empty, consistent state with the tab counter at 1 |
| Invariants.ConstructInv | UartLogTerminal/ViewModels/MainViewModel.cs:49-79 | a new view model has one selected tab "Filter 1", the counter at 2 and zero counts in the footer |
| Invariants.LoadKeepsInv | UartLogTerminal/ViewModels/MainViewModel.cs:479-519 | a cancelled load changes nothing; a load makes the file's lines the history; success leaves the raw text current and reports the count; failure reports the error with the raw text empty |
| Invariants.LoadedTabsShowFile | UartLogTerminal/ViewModels/MainViewModel.cs:493-510 | after a load every tab shows the newest matching lines of the file |
| Invariants.FailedLoadLeavesRawTextStale | UartLogTerminal/ViewModels/MainViewModel.cs:511-514 | a load that fails after one line leaves that line buffered but the raw text empty |
| ViewModel.ClearTabs | UartLogTerminal/ViewModels/MainViewModel.cs:442-445 | the loop empties every tab's lines and changes nothing else about the tabs |
| ViewModel.ApplyToTab | UartLogTerminal/ViewModels/FilterTabViewModel.cs:20-90 | a setter call moves the tab and its change report exactly as ApplySetting says |
| ViewModel.MainViewModel.UpdateFooterCounters | UartLogTerminal/ViewModels/MainViewModel.cs:742-746 | the footer shows the counters and nothing else changes |
| ViewModel.MainViewModel.CreateNewFilterTab | UartLogTerminal/ViewModels/MainViewModel.cs:306-319 | returns a new tab with the next number's defaults and bumps the counter |
| ViewModel.MainViewModel.SelectTab | UartLogTerminal/ViewModels/MainViewModel.cs:217-228 | the setter moves the state by States.Select to the tab's position |
| ViewModel.MainViewModel.SetPaused | UartLogTerminal/ViewModels/MainViewModel.cs:121-125 | only the paused flag changes |
| ViewModel.MainViewModel.SetLiveSource | UartLogTerminal/ViewModels/MainViewModel.cs:783-787 | the raw view is live and named "Live" |
| ViewModel.MainViewModel.SetFileSource | UartLogTerminal/ViewModels/MainViewModel.cs:789-793 | the raw view names the file, or "Loaded File" for a blank name |
| ViewModel.MainViewModel.AppendLineToTab | UartLogTerminal/ViewModels/MainViewModel.cs:615-627 | the tab's lines gain the rendered line and keep the newest 5000 |
| ViewModel.MainViewModel.ReplayEntries | UartLogTerminal/ViewModels/MainViewModel.cs:570-586 | the pass leaves the tab showing the newest matching lines of the buffered entries, or nothing for a bad pattern; with a bad pattern and entries buffered the first entry's failure puts the tab's name and the error in the footer and ends the pass, otherwise the footer is untouched |
| ViewModel.MainViewModel.RebuildFilterTab | UartLogTerminal/ViewModels/MainViewModel.cs:568-589 | the method moves the state by States.RebuildFilterTab at the tab's position |
| ViewModel.MainViewModel.RebuildAllFilterTabs | UartLogTerminal/ViewModels/MainViewModel.cs:591-597 | the loop moves the state by States.RebuildAllFilterTabs |
| ViewModel.MainViewModel.SetDarkTheme | UartLogTerminal/ViewModels/MainViewModel.cs:243-258 | the setter moves the state by States.SetDarkTheme |
| ViewModel.MainViewModel.ClearLogs | UartLogTerminal/ViewModels/MainViewModel.cs:435-448 | the method moves the state by States.ClearLogs |
| ViewModel.MainViewModel.OfferEntry | UartLogTerminal/ViewModels/MainViewModel.cs:549-559 | one tab is offered the entry, and a pattern error goes to the footer with the tab's name |
| ViewModel.MainViewModel.OfferToTabs | UartLogTerminal/ViewModels/MainViewModel.cs:547-560 | every tab is offered the entry in turn, and the last error, if any, is in the footer |
| ViewModel.MainViewModel.BufferEntry | UartLogTerminal/ViewModels/MainViewModel.cs:535-545 | entry and display line join their capped buffers, and the raw text is refreshed unless a file is loading |
| ViewModel.MainViewModel.AddEntry | UartLogTerminal/ViewModels/MainViewModel.cs:533-566 | the method moves the state by States.AddEntry |
| ViewModel.MainViewModel.IngestLine | UartLogTerminal/ViewModels/MainViewModel.cs:521-531 | the method moves the state by States.IngestLine for the line and its timestamp |
| ViewModel.MainViewModel.OnLineReceived | UartLogTerminal/ViewModels/MainViewModel.cs:465-477 | the callback moves the state by States.ReceiveLine, so a paused view model is unchanged |
| ViewModel.MainViewModel.IngestLines | UartLogTerminal/ViewModels/MainViewModel.cs:498-505 | the loop moves the state by States.IngestAll and counts the lines |
| ViewModel.MainViewModel.OpenLogFile | UartLogTerminal/ViewModels/MainViewModel.cs:479-519 | the method moves the state by States.OpenLogFile |
| ViewModel.MainViewModel.FinishLoad | UartLogTerminal/ViewModels/MainViewModel.cs:507-517 | success joins the raw text and reports the count, failure reports the error; bulk mode ends either way |
| ViewModel.MainViewModel.AddFilterTab | UartLogTerminal/ViewModels/MainViewModel.cs:297-304 | the method moves the state by States.AddFilterTab and appends one new tab object |
| ViewModel.MainViewModel.RemoveSelectedFilterTab | UartLogTerminal/ViewModels/MainViewModel.cs:321-332 | the method moves the state by States.RemoveSelectedFilterTab |
| ViewModel.MainViewModel.ConfigureTab | UartLogTerminal/ViewModels/MainViewModel.cs:450-458 | a setter on a listed tab moves the state by States.ConfigureTab; on an unlisted tab only the tab changes |
| ViewModel.MainViewModel.constructor | UartLogTerminal/ViewModels/MainViewModel.cs:49-79 | the constructor reaches States.Construct: the defaults plus one rebuilt, selected tab |

## Left out

- Serial hardware: the device settings, `ReadExisting`, `SendLine`, `GetAvailablePorts` and `ErrorReceived`. They are device I/O; a received chunk is a parameter of `OnDataReceived`.
- LineFramer.SerialPortService.Open: models only the "already open" check and the port becoming open, not the port's settings or a failing `SerialPort.Open`.
- `lock (_buffer)` and `_uiContext.Post`: these exist for concurrency. Each operation is modelled as the sequential step it runs.
- Events are not modelled as such:
  - `LineReceived` becomes the list of lines `OnDataReceived` returns;
  - `FilterSettingsChanged` becomes the `settingsChanged` result of each setter, which `ConfigureTab` acts on;
  - `PropertyChanged`, `RaiseBrushesChanged` and `RaiseCanExecuteChanged` notify the UI and are left out.
- `Dispose` and the event unsubscriptions: the model has no subscriptions to undo.
- Regular expressions and case folding are the `Runtime` parameter. Their .NET semantics are not defined here.
- `DateTime.Now` is the timestamp parameter of `IngestLine` and `OnLineReceived`, and each loaded line carries one. `FormatTimestamp` takes that timestamp as milliseconds of the local day.
- `OpenFileDialog` and `File.ReadLines` become the `LoadOutcome` parameter: cancelled, or the file name, the lines read, and the message of a read failure if one occurred.
- States.OpenLogFile: only a failure while reading the file is modelled. Other exceptions inside the `try`, such as a formatting failure, are not.
- Footer text: the `N0` formatting of counts and the exact footer strings are not modelled. The `Footer` datatype records which message is shown and with which values.
- Serial settings, `RefreshPorts`, `Connect`, `Disconnect`, `SendTx`, `ToggleFilterPanelDock`, the theme brushes and `ToBrush`: these are UI and device plumbing.
- RichTextLogRenderer.cs and MainWindow.xaml.cs are not part of this model.
- ViewSpec.MatchingLines: its own contract states only the length bound. The well-formedness of its lines is the separate lemma MatchingLinesWellFormed.
- The tab counter `_nextFilterNumber` is an `int` in the source (UartLogTerminal/ViewModels/MainViewModel.cs:34), incremented unchecked at line 308, and an unbounded `nat` here. After 2^31 - 1 tabs the source's counter wraps to a negative value and the palette index at line 310 is out of range; the model does not capture that, so `States.NewTabNamesDistinct` and the counter bump in `Invariants.AddTabKeepsInv` hold without limit.
- The received counter `_totalReceived` is a `long` in the source and an unbounded `nat` here, so no 64-bit overflow is modelled.
- Colours are compared by value. The source compares `ColorOption` objects by reference, but every palette entry is distinct, so the outcome is the same.
- Characters: a Dafny `char` is a Unicode scalar value, while .NET strings count UTF-16 code units. Offsets and lengths (`IndexOf`, span starts and lengths, `Substring`) therefore differ from the source for text outside the Basic Multilingual Plane, and a lone surrogate cannot be represented at all.
- Highlight.SortByStart: is a stable insertion sort, while `List<T>.Sort` (UartLogTerminal/ViewModels/MainViewModel.cs:727) is unstable. The two can order spans with equal starts differently. The plain scan's starts strictly increase, and .NET's successive regex matches do too, so this does not arise in practice; `Runtime.Valid` does not state the regex half.
