/** The filter tab of UartLogTerminal/ViewModels/FilterTabViewModel.cs and the change
    guard of ObservableObject.cs: the tab's settings, its chosen colours and the
    lines it currently shows. */
module Tabs {
  import opened Text
  import opened Models
  import opened FilterEngine
  import opened Highlight

  /** ObservableObject.SetProperty: the new value of the backing field, and whether
      it changed (only a change raises PropertyChanged). */
  function SetProperty<T(==)>(field: T, value: T): (r: (T, bool))
    ensures r.0 == value
    ensures r.1 <==> field != value
  {
    if field == value then (field, false) else (value, true)
  }

  /** ForegroundBrush: the chosen colour's brush, black when none is chosen. */
  function ForegroundOf(selected: Option<ColorOption>): (b: Brush)
    ensures selected.Some? ==> b == selected.value.brush
    ensures selected.None? ==> b == Black
  {
    match selected
    case Some(option) => option.brush
    case None => Black
  }

  /** BackgroundBrush: the chosen colour's brush, transparent when none is chosen. */
  function BackgroundOf(selected: Option<ColorOption>): (b: Brush)
    ensures selected.Some? ==> b == selected.value.brush
    ensures selected.None? ==> b == Transparent
  {
    match selected
    case Some(option) => option.brush
    case None => Transparent
  }

  /** A filter tab as a value: its name, its settings, its chosen colours, the lines
      it shows, and where in the history since the last clear those lines were last
      rebuilt from (the tab shows the matches of everything received from there on). */
  datatype TabView = TabView(name: string, expression: string, useRegex: bool, matchCase: bool,
                             foreground: Option<ColorOption>, background: Option<ColorOption>,
                             lines: seq<ColoredLogLine>, origin: int)
  {
    /** The settings matching depends on. */
    function Settings(): FilterSettings {
      FilterSettings(expression, useRegex, matchCase)
    }

    /** Everything rendering a line of this tab depends on. */
    function Style(): TabStyle {
      TabStyle(Settings(), ForegroundOf(foreground), BackgroundOf(background))
    }
  }

  class FilterTab {
    var name: string
    var expression: string
    var useRegex: bool
    var matchCase: bool
    var selectedForegroundColor: Option<ColorOption>
    var selectedBackgroundColor: Option<ColorOption>
    /** Lines: the rendered lines the tab shows, oldest first. */
    var lines: seq<ColoredLogLine>
    /** Where in the history since the last clear the tab's lines were last rebuilt
        from. */
    ghost var origin: int

    /** A tab with the field initialisers' values. */
    constructor ()
      ensures View() == TabView("Filter", "", false, false, None, None, [], 0)
    {
      name := "Filter";
      expression := "";
      useRegex := false;
      matchCase := false;
      selectedForegroundColor := None;
      selectedBackgroundColor := None;
      lines := [];
      origin := 0;
    }

    /** The tab's current value. */
    ghost function View(): TabView
      reads this
    {
      TabView(name, expression, useRegex, matchCase, selectedForegroundColor, selectedBackgroundColor,
              lines, origin)
    }

    function Settings(): FilterSettings
      reads this`expression, this`useRegex, this`matchCase
    {
      FilterSettings(expression, useRegex, matchCase)
    }

    /** The brush the tab's text is drawn with. */
    function ForegroundBrush(): (b: Brush)
      reads this`selectedForegroundColor
      ensures selectedForegroundColor.Some? ==> b == selectedForegroundColor.value.brush
      ensures selectedForegroundColor.None? ==> b == Black
    {
      ForegroundOf(selectedForegroundColor)
    }

    /** The brush behind the tab's highlighted text. */
    function BackgroundBrush(): (b: Brush)
      reads this`selectedBackgroundColor
      ensures selectedBackgroundColor.Some? ==> b == selectedBackgroundColor.value.brush
      ensures selectedBackgroundColor.None? ==> b == Transparent
    {
      BackgroundOf(selectedBackgroundColor)
    }

    function Style(): TabStyle
      reads this`expression, this`useRegex, this`matchCase
      reads this`selectedForegroundColor, this`selectedBackgroundColor
    {
      TabStyle(Settings(), ForegroundBrush(), BackgroundBrush())
    }

    // Each setter stores the value and reports whether it changed, which is when
    // FilterSettingsChanged is raised.

    method SetName(value: string) returns (settingsChanged: bool)
      modifies this`name
      ensures name == value && (settingsChanged <==> old(name) != value)
    {
      name, settingsChanged := SetProperty(name, value).0, SetProperty(name, value).1;
    }

    method SetExpression(value: string) returns (settingsChanged: bool)
      modifies this`expression
      ensures expression == value && (settingsChanged <==> old(expression) != value)
    {
      expression, settingsChanged := SetProperty(expression, value).0, SetProperty(expression, value).1;
    }

    method SetUseRegex(value: bool) returns (settingsChanged: bool)
      modifies this`useRegex
      ensures useRegex == value && (settingsChanged <==> old(useRegex) != value)
    {
      useRegex, settingsChanged := SetProperty(useRegex, value).0, SetProperty(useRegex, value).1;
    }

    method SetMatchCase(value: bool) returns (settingsChanged: bool)
      modifies this`matchCase
      ensures matchCase == value && (settingsChanged <==> old(matchCase) != value)
    {
      matchCase, settingsChanged := SetProperty(matchCase, value).0, SetProperty(matchCase, value).1;
    }

    method SetSelectedForegroundColor(value: Option<ColorOption>) returns (settingsChanged: bool)
      modifies this`selectedForegroundColor
      ensures selectedForegroundColor == value
      ensures settingsChanged <==> old(selectedForegroundColor) != value
    {
      selectedForegroundColor, settingsChanged :=
        SetProperty(selectedForegroundColor, value).0, SetProperty(selectedForegroundColor, value).1;
    }

    method SetSelectedBackgroundColor(value: Option<ColorOption>) returns (settingsChanged: bool)
      modifies this`selectedBackgroundColor
      ensures selectedBackgroundColor == value
      ensures settingsChanged <==> old(selectedBackgroundColor) != value
    {
      selectedBackgroundColor, settingsChanged :=
        SetProperty(selectedBackgroundColor, value).0, SetProperty(selectedBackgroundColor, value).1;
    }
  }
}
