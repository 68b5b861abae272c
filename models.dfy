/** The records of UartLogTerminal/Models (LogEntry, LineSegment, ColoredLogLine,
    ColorOption), the brushes the core uses, the colour palette of the main view
    model, and the formatting of a log entry as one display line. */
module Models {
  import opened Text

  /** The WPF brushes the core hands out; the palette's twelve plus the light-on-dark
      default foreground. */
  datatype Brush =
    | Black | White | Red | Orange | Yellow | LimeGreen | DeepSkyBlue | Navy
    | MediumPurple | Gray | LightGray | Transparent | Gainsboro

  /** A named brush the user can pick for a filter tab. */
  datatype ColorOption = ColorOption(name: string, brush: Brush)

  /** The palette, in the order the colour pickers list it; the last entry is the
      "no fill" one. */
  const ColorOptions: seq<ColorOption> := [
    ColorOption("Black", Black),
    ColorOption("White", White),
    ColorOption("Red", Red),
    ColorOption("Orange", Orange),
    ColorOption("Yellow", Yellow),
    ColorOption("Green", LimeGreen),
    ColorOption("Blue", DeepSkyBlue),
    ColorOption("Navy", Navy),
    ColorOption("Purple", MediumPurple),
    ColorOption("Gray", Gray),
    ColorOption("Light Gray", LightGray),
    ColorOption("Transparent", Transparent)
  ]

  /** The palette's last entry is the only transparent one and the only one named
      "Transparent". */
  lemma PaletteShape()
    ensures |ColorOptions| == 12
    ensures ColorOptions[11] == ColorOption("Transparent", Transparent)
    ensures forall k :: 0 <= k < 11 ==>
      ColorOptions[k].brush != Transparent && ColorOptions[k].name != "Transparent"
  {
  }

  /** One received line; `timestamp` is the local clock reading in milliseconds. */
  datatype LogEntry = LogEntry(timestamp: nat, text: string)

  /** A highlight range [start, start + length) of a display line. */
  datatype Span = Span(start: nat, length: nat)

  function End(s: Span): nat { s.start + s.length }

  /** A styling atom of a rendered line. */
  datatype LineSegment = LineSegment(text: string, foreground: Brush, background: Brush)

  /** A display line of a filter tab with its segmentation. */
  datatype ColoredLogLine = ColoredLogLine(text: string, segments: seq<LineSegment>)

  /** The texts of the segments, one after the other. */
  function Concat(segments: seq<LineSegment>): string
  {
    if segments == [] then "" else segments[0].text + Concat(segments[1..])
  }

  lemma ConcatAppend(a: seq<LineSegment>, b: seq<LineSegment>)
    ensures Concat(a + b) == Concat(a) + Concat(b)
  {
    if a != [] {
      assert (a + b)[1..] == a[1..] + b;
      ConcatAppend(a[1..], b);
    } else {
      assert a + b == b;
    }
  }

  /** A rendered line whose segments reproduce its text exactly. */
  predicate WellFormedLine(l: ColoredLogLine) {
    Concat(l.segments) == l.text
  }

  // ---------------------------------------------------------------------------
  // Timestamp formatting: HH:mm:ss.fff of the entry's local time

  /** n as two decimal digits, with a leading zero below ten (the "00" format). */
  function Pad2(n: nat): (s: string)
    requires n < 100
    ensures |s| == 2 && AllDigits(s)
    ensures DecimalValue(s) == n
  {
    DigitRoundTrip(n / 10);
    DigitRoundTrip(n % 10);
    var r := [DigitChar(n / 10), DigitChar(n % 10)];
    assert r[..1] == [DigitChar(n / 10)] && r[..1][..0] == [];
    assert DecimalValue(r[..1]) == n / 10;
    assert DecimalValue(r) == 10 * (n / 10) + n % 10;
    r
  }

  /** n as three decimal digits, with leading zeros (the "000" format). */
  function Pad3(n: nat): (s: string)
    requires n < 1000
    ensures |s| == 3 && AllDigits(s)
    ensures DecimalValue(s) == n
  {
    DigitRoundTrip(n / 100);
    DigitRoundTrip(n / 10 % 10);
    DigitRoundTrip(n % 10);
    var r := [DigitChar(n / 100), DigitChar(n / 10 % 10), DigitChar(n % 10)];
    assert r[..2] == [DigitChar(n / 100), DigitChar(n / 10 % 10)];
    assert r[..2][..1] == [DigitChar(n / 100)] && r[..2][..1][..0] == [];
    assert DecimalValue(r[..2][..1]) == n / 100;
    assert DecimalValue(r[..2]) == 10 * (n / 100) + n / 10 % 10;
    assert DecimalValue(r) == 10 * (10 * (n / 100) + n / 10 % 10) + n % 10;
    r
  }

  /** The time of day of `ms` as "HH:mm:ss.fff" (24-hour clock, milliseconds truncated):
      each field reads back as the hours, minutes, seconds and milliseconds of `ms`. */
  function FormatTimestamp(ms: nat): (s: string)
    ensures |s| == 12 && s[2] == ':' && s[5] == ':' && s[8] == '.'
    ensures AllDigits(s[0..2]) && DecimalValue(s[0..2]) == ms / 3600000 % 24
    ensures AllDigits(s[3..5]) && DecimalValue(s[3..5]) == ms / 60000 % 60
    ensures AllDigits(s[6..8]) && DecimalValue(s[6..8]) == ms / 1000 % 60
    ensures AllDigits(s[9..12]) && DecimalValue(s[9..12]) == ms % 1000
  {
    var h, m, sec, f := Pad2(ms / 3600000 % 24), Pad2(ms / 60000 % 60), Pad2(ms / 1000 % 60),
      Pad3(ms % 1000);
    var r := h + ":" + m + ":" + sec + "." + f;
    assert r[0..2] == h && r[3..5] == m && r[6..8] == sec && r[9..12] == f;
    r
  }

  /** The display form of an entry: its time of day, " | ", then its text. */
  function FormatEntry(e: LogEntry): (s: string)
    ensures |s| == 15 + |e.text| && s[15..] == e.text
    ensures s[..15] == FormatTimestamp(e.timestamp) + " | "
  {
    FormatTimestamp(e.timestamp) + " | " + e.text
  }
}
