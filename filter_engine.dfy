/** The inclusion verdict of UartLogTerminal/Filtering/FilterEngine.cs, and the
    runtime services (case mapping, regular expressions) it and the highlighter rely on. */
module FilterEngine {
  import opened Text
  import opened Models

  /** What the .NET runtime supplies and the model does not define:
      `fold`, the per-character mapping StringComparison.OrdinalIgnoreCase compares under;
      `regexError(pattern, ignoreCase)`, the message of the exception constructing the
      regex throws, or None when the pattern parses;
      `regexMatches(pattern, text, ignoreCase)`, the successive matches (Index, Length)
      of a pattern that parses, zero-length ones included. */
  datatype Runtime = Runtime(
    fold: char -> char,
    regexError: (string, bool) -> Option<string>,
    regexMatches: (string, string, bool) -> seq<Span>)
  {
    /** Every match lies inside the text it was found in. */
    ghost predicate Valid() {
      forall pattern, text, ignoreCase, k ::
        0 <= k < |regexMatches(pattern, text, ignoreCase)| ==>
          End(regexMatches(pattern, text, ignoreCase)[k]) <= |text|
    }
  }

  /** The part of a filter tab's settings that decides matching. */
  datatype FilterSettings = FilterSettings(expression: string, useRegex: bool, matchCase: bool)

  /** Ordinal when the case must match, OrdinalIgnoreCase otherwise. */
  function ComparisonFor(matchCase: bool, rt: Runtime): Comparison {
    if matchCase then Ordinal else OrdinalIgnoreCase(rt.fold)
  }

  /** The settings can be evaluated without an exception: the expression is blank,
      plain text, or a regular expression that parses. */
  predicate PatternOk(s: FilterSettings, rt: Runtime) {
    IsBlank(s.expression) || !s.useRegex || rt.regexError(s.expression, !s.matchCase).None?
  }

  /** FilterEngine.IsMatch: whether an entry belongs in a tab, judged on the entry's
      text alone; a pattern that does not parse is the Failure carrying the exception's
      message. */
  function IsMatch(entry: LogEntry, expression: string, useRegex: bool, matchCase: bool,
                   rt: Runtime): (r: Result<bool, string>)
    ensures r.Success? <==> PatternOk(FilterSettings(expression, useRegex, matchCase), rt)
    ensures r.Failure? ==> rt.regexError(expression, !matchCase) == Some(r.error)
    ensures IsBlank(expression) ==> r == Success(true)
    ensures !IsBlank(expression) && !useRegex ==>
      r.Success? &&
      (r.value <==> exists i :: OccursAt(entry.text, expression, i, ComparisonFor(matchCase, rt)))
    ensures !IsBlank(expression) && useRegex && r.Success? ==>
      (r.value <==> |rt.regexMatches(expression, entry.text, !matchCase)| > 0)
  {
    if IsBlank(expression) then Success(true)
    else if !useRegex then Success(Contains(entry.text, expression, ComparisonFor(matchCase, rt)))
    else
      match rt.regexError(expression, !matchCase)
      case Some(message) => Failure(message)
      case None => Success(|rt.regexMatches(expression, entry.text, !matchCase)| > 0)
  }

  /** The timestamp never affects the verdict. */
  lemma IsMatchIgnoresTimestamp(a: LogEntry, b: LogEntry, expression: string, useRegex: bool,
                                matchCase: bool, rt: Runtime)
    requires a.text == b.text
    ensures IsMatch(a, expression, useRegex, matchCase, rt) == IsMatch(b, expression, useRegex, matchCase, rt)
  {
  }

  /** `expression` is the substring of `text` that starts at i. */
  predicate SubstringAt(text: string, expression: string, i: int) {
    0 <= i && i + |expression| <= |text| && text[i..i + |expression|] == expression
  }

  /** With the case to match, a plain expression matches exactly when it is a
      substring of the entry's text. */
  lemma OrdinalMatchIsSubstring(entry: LogEntry, expression: string, useRegex: bool, rt: Runtime)
    requires !IsBlank(expression) && !useRegex
    ensures IsMatch(entry, expression, useRegex, true, rt).Success?
    ensures IsMatch(entry, expression, useRegex, true, rt).value <==>
      exists i :: SubstringAt(entry.text, expression, i)
  {
    var t, e := entry.text, expression;
    if IsMatch(entry, e, useRegex, true, rt).value {
      var i :| OccursAt(t, e, i, Ordinal);
      assert t[i..i + |e|] == e;
      assert SubstringAt(t, e, i);
    }
    forall i | SubstringAt(t, e, i)
      ensures OccursAt(t, e, i, Ordinal)
    {
      forall k | 0 <= k < |e|
        ensures CharsEqual(Ordinal, t[i + k], e[k])
      {
        assert t[i..i + |e|][k] == t[i + k];
      }
    }
  }
}
