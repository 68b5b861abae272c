/** Strings and characters as the .NET base library treats them in the log pipeline:
    option/result wrappers, char.IsWhiteSpace, string.IsNullOrWhiteSpace,
    TrimEnd('\r'), ordinal and ordinal-ignore-case search, and decimal rendering of
    counters (string interpolation of an int). */
module Text {

  datatype Option<+T> = None | Some(value: T)

  datatype Result<+T, +E> = Success(value: T) | Failure(error: E)

  function Min(a: int, b: int): int { if a <= b then a else b }

  function Max(a: int, b: int): int { if a >= b then a else b }

  // ---------------------------------------------------------------------------
  // White space

  /** char.IsWhiteSpace: the Unicode space, line and paragraph separators plus
      U+0009..U+000D, U+0085 and U+00A0. */
  predicate IsWhiteSpace(c: char) {
    ('\t' <= c <= '\r') || c == ' ' || c == '\U{85}' || c == '\U{A0}' || c == '\U{1680}'
    || ('\U{2000}' <= c <= '\U{200A}') || c == '\U{2028}' || c == '\U{2029}'
    || c == '\U{202F}' || c == '\U{205F}' || c == '\U{3000}'
  }

  /** string.IsNullOrWhiteSpace for a non-null string: empty or white space only. */
  predicate IsBlank(s: string) {
    forall i :: 0 <= i < |s| ==> IsWhiteSpace(s[i])
  }

  // ---------------------------------------------------------------------------
  // TrimEnd('\r')

  /** s.TrimEnd('\r'): removes every trailing carriage return. */
  function TrimEndCR(s: string): (r: string)
    ensures |r| <= |s| && r == s[..|r|]
    ensures |r| > 0 ==> r[|r| - 1] != '\r'
    ensures forall i :: |r| <= i < |s| ==> s[i] == '\r'
    decreases |s|
  {
    if |s| > 0 && s[|s| - 1] == '\r' then TrimEndCR(s[..|s| - 1]) else s
  }

  // ---------------------------------------------------------------------------
  // Ordinal and ordinal-ignore-case comparison

  /** StringComparison.Ordinal or StringComparison.OrdinalIgnoreCase; the latter
      compares characters after the runtime's per-character case mapping `fold`. */
  datatype Comparison = Ordinal | OrdinalIgnoreCase(fold: char -> char)

  predicate CharsEqual(cmp: Comparison, a: char, b: char) {
    match cmp
    case Ordinal => a == b
    case OrdinalIgnoreCase(fold) => fold(a) == fold(b)
  }

  /** `pattern` occurs in `text` starting at index `i` under `cmp`. */
  predicate OccursAt(text: string, pattern: string, i: int, cmp: Comparison) {
    0 <= i && i + |pattern| <= |text|
    && forall k :: 0 <= k < |pattern| ==> CharsEqual(cmp, text[i + k], pattern[k])
  }

  /** text.IndexOf(pattern, from, cmp): the first occurrence at or after `from`, or -1. */
  function IndexOf(text: string, pattern: string, from: nat, cmp: Comparison): (r: int)
    requires from <= |text|
    ensures r == -1 || (from <= r <= |text| && OccursAt(text, pattern, r, cmp))
    ensures r == -1 ==> forall i :: from <= i ==> !OccursAt(text, pattern, i, cmp)
    ensures forall i :: from <= i < r ==> !OccursAt(text, pattern, i, cmp)
    decreases |text| - from
  {
    if from + |pattern| > |text| then -1
    else if OccursAt(text, pattern, from, cmp) then from
    else if from == |text| then -1
    else IndexOf(text, pattern, from + 1, cmp)
  }

  /** text.Contains(pattern, cmp). */
  function Contains(text: string, pattern: string, cmp: Comparison): (b: bool)
    ensures b <==> exists i :: OccursAt(text, pattern, i, cmp)
  {
    IndexOf(text, pattern, 0, cmp) >= 0
  }

  /** An occurrence inside a suffix is an occurrence in the whole string, shifted. */
  lemma OccursInSuffix(prefix: string, text: string, pattern: string, i: int, cmp: Comparison)
    requires OccursAt(text, pattern, i, cmp)
    ensures OccursAt(prefix + text, pattern, |prefix| + i, cmp)
  {
    var whole := prefix + text;
    forall k | 0 <= k < |pattern|
      ensures CharsEqual(cmp, whole[|prefix| + i + k], pattern[k])
    {
      assert whole[|prefix| + i + k] == text[i + k];
    }
  }

  // ---------------------------------------------------------------------------
  // Decimal rendering of counters

  function DigitChar(d: nat): (c: char)
    requires d < 10
    ensures '0' <= c <= '9'
  {
    ('0' as int + d) as char
  }

  function DigitValue(c: char): (d: nat)
    requires '0' <= c <= '9'
    ensures d < 10
  {
    (c as int - '0' as int) as nat
  }

  /** The decimal digits of n, most significant first, as `$"{n}"` renders them. */
  function NatToString(n: nat): (s: string)
    ensures |s| >= 1
    ensures forall i :: 0 <= i < |s| ==> '0' <= s[i] <= '9'
    ensures s[0] == '0' ==> n == 0
    decreases n
  {
    if n < 10 then [DigitChar(n)] else NatToString(n / 10) + [DigitChar(n % 10)]
  }

  predicate AllDigits(s: string) {
    forall i :: 0 <= i < |s| ==> '0' <= s[i] <= '9'
  }

  /** Reads a string of decimal digits back as a number. */
  function DecimalValue(s: string): nat
    requires forall i :: 0 <= i < |s| ==> '0' <= s[i] <= '9'
    decreases |s|
  {
    if s == [] then 0 else 10 * DecimalValue(s[..|s| - 1]) + DigitValue(s[|s| - 1])
  }

  lemma DigitRoundTrip(d: nat)
    requires d < 10
    ensures DigitValue(DigitChar(d)) == d
  {
  }

  /** Rendering a counter and reading it back gives the counter. */
  lemma {:induction false} NatToStringRoundTrip(n: nat)
    ensures DecimalValue(NatToString(n)) == n
    decreases n
  {
    var q, d := n / 10, n % 10;
    DigitRoundTrip(d);
    if n >= 10 {
      NatToStringRoundTrip(q);
      var s := NatToString(n);
      assert s == NatToString(q) + [DigitChar(d)];
      assert s[..|s| - 1] == NatToString(q);
      assert DecimalValue(s) == 10 * q + d;
    }
  }

  /** Distinct counters render as distinct strings. */
  lemma NatToStringInjective(m: nat, n: nat)
    requires m != n
    ensures NatToString(m) != NatToString(n)
  {
    NatToStringRoundTrip(m);
    NatToStringRoundTrip(n);
  }
}
