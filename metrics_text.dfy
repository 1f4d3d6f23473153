/** `stringifyTextMetrics` and the metrics panel text: a measurement record,
    enumerated as an ordered list of (field name, value) pairs, becomes one
    `name: value` line per field. Number-to-text conversion is the parameter
    `show`. */
module MetricsText {
  import opened Measure

  /** One line of the report: `${key}: ${value}\n`. */
  function Line<V>(field: (string, V), show: V -> string): string {
    field.0 + ": " + show(field.1) + "\n"
  }

  /** The report of a record: the lines of its fields, in enumeration order. */
  function Report<V>(fields: seq<(string, V)>, show: V -> string): string {
    if fields == [] then "" else Line(fields[0], show) + Report(fields[1..], show)
  }

  /** The report of two records one after the other is the concatenation of
      their reports. */
  lemma {:induction false} ReportAppend<V>(a: seq<(string, V)>, b: seq<(string, V)>, show: V -> string)
    ensures Report(a + b, show) == Report(a, show) + Report(b, show)
    decreases |a|
  {
    if a == [] {
      assert a + b == b;
    } else {
      assert (a + b)[0] == a[0] && (a + b)[1..] == a[1..] + b;
      ReportAppend(a[1..], b, show);
    }
  }

  /** The `i`-th field's line stands between the lines of the fields before
      it and those of the fields after it. */
  lemma {:induction false} ReportSplit<V>(fields: seq<(string, V)>, i: nat, show: V -> string)
    requires i < |fields|
    ensures Report(fields, show) == Report(fields[..i], show) + Line(fields[i], show) + Report(fields[i + 1..], show)
  {
    var before, after := fields[..i + 1], fields[i + 1..];
    assert fields == before + after;
    assert before == fields[..i] + [fields[i]];
    ReportAppend(before, after, show);
    ReportAppend(fields[..i], [fields[i]], show);
    ReportSingle(fields[i], show);
  }

  lemma ReportSingle<V>(field: (string, V), show: V -> string)
    ensures Report([field], show) == Line(field, show)
  {
  }

  /** `stringifyTextMetrics(metrics)`: append one line per field to `results`. */
  method StringifyTextMetrics<V>(metrics: seq<(string, V)>, show: V -> string) returns (results: string)
    ensures results == Report(metrics, show)
  {
    results := "";
    for i := 0 to |metrics|
      invariant results == Report(metrics[..i], show)
    {
      var (key, value) := metrics[i];
      results := results + key + ": " + show(value) + "\n";
      ReportAppend(metrics[..i], [metrics[i]], show);
      assert metrics[..i + 1] == metrics[..i] + [metrics[i]];
    }
    assert metrics[..|metrics|] == metrics;
  }

  /** Line 69 of the component: the stringified metrics, then the ink-box and
      font-box heights. The two extra lines read exactly like two more fields. */
  method MetricsPanelText(fields: seq<(string, real)>, m: Metrics, show: real -> string) returns (text: string)
    ensures text == Report(fields + [("actualHeight", ActualHeight(m)), ("fontHeight", FontHeight(m))], show)
  {
    var stringified := StringifyTextMetrics(fields, show);
    text := stringified + "actualHeight: " + show(ActualHeight(m)) + "\n"
      + "fontHeight: " + show(FontHeight(m)) + "\n";
    var heights := [("actualHeight", ActualHeight(m)), ("fontHeight", FontHeight(m))];
    assert heights == [heights[0]] + [heights[1]];
    ReportAppend([heights[0]], [heights[1]], show);
    ReportSingle(heights[0], show);
    ReportSingle(heights[1], show);
    ReportAppend(fields, heights, show);
  }

  // ---------------------------------------------------------------------------
  // One line per field

  /** Number of occurrences of `c` in `s`. */
  function Count(s: string, c: char): nat {
    if s == [] then 0 else (if s[0] == c then 1 else 0) + Count(s[1..], c)
  }

  lemma {:induction false} CountAppend(a: string, b: string, c: char)
    ensures Count(a + b, c) == Count(a, c) + Count(b, c)
    decreases |a|
  {
    if a == [] {
      assert a + b == b;
    } else {
      assert (a + b)[0] == a[0] && (a + b)[1..] == a[1..] + b;
      CountAppend(a[1..], b, c);
    }
  }

  /** When no name and no printed value holds a newline, the report has
      exactly one line per field. */
  lemma {:induction false} ReportLineCount<V>(fields: seq<(string, V)>, show: V -> string)
    requires forall i | 0 <= i < |fields| :: '\n' !in fields[i].0 && '\n' !in show(fields[i].1)
    ensures Count(Report(fields, show), '\n') == |fields|
    decreases |fields|
  {
    if fields != [] {
      var f := fields[0];
      NoNewlineCount(f.0);
      NoNewlineCount(show(f.1));
      CountAppend(f.0, ": ", '\n');
      CountAppend(f.0 + ": ", show(f.1), '\n');
      CountAppend(f.0 + ": " + show(f.1), "\n", '\n');
      CountAppend(Line(f, show), Report(fields[1..], show), '\n');
      ReportLineCount(fields[1..], show);
    }
  }

  lemma {:induction false} NoNewlineCount(s: string)
    requires '\n' !in s
    ensures Count(s, '\n') == 0
    decreases |s|
  {
    if s != [] {
      assert s[0] in s;
      assert forall k | 0 <= k < |s[1..]| :: s[1..][k] == s[k + 1];
      NoNewlineCount(s[1..]);
    }
  }

  // ---------------------------------------------------------------------------
  // Integer values as decimal text

  function DigitChar(d: nat): (c: char)
    requires d < 10
  {
    (d + '0' as int) as char
  }

  /** Decimal digits of a natural number, most significant first. */
  function Digits(n: nat): (s: string)
    ensures |s| > 0 && forall i | 0 <= i < |s| :: '0' <= s[i] <= '9'
    decreases n
  {
    if n < 10 then [DigitChar(n)] else Digits(n / 10) + [DigitChar(n % 10)]
  }

  /** How an integer-valued number with |n| < 10^21 prints in a template literal. */
  function DecimalText(n: int): (s: string)
    ensures |s| > 0 && '\n' !in s
  {
    if n < 0 then "-" + Digits(-n) else Digits(n)
  }

  ghost predicate AllDigits(s: string) {
    forall i | 0 <= i < |s| :: '0' <= s[i] <= '9'
  }

  /** Value of a string of decimal digits. */
  ghost function DigitsValue(s: string): nat
    requires AllDigits(s)
  {
    if s == [] then 0 else DigitsValue(s[..|s| - 1]) * 10 + (s[|s| - 1] as int - '0' as int)
  }

  /** Value of an optionally signed decimal text. */
  ghost function ParseDecimal(s: string): int
    requires (|s| > 0 && s[0] == '-' && AllDigits(s[1..])) || AllDigits(s)
  {
    if |s| > 0 && s[0] == '-' then -(DigitsValue(s[1..]) as int) else DigitsValue(s)
  }

  lemma {:induction false} DigitsRoundTrip(n: nat)
    ensures AllDigits(Digits(n)) && DigitsValue(Digits(n)) == n
    decreases n
  {
    if n >= 10 {
      DigitsRoundTrip(n / 10);
      var s := Digits(n / 10) + [DigitChar(n % 10)];
      assert s[..|s| - 1] == Digits(n / 10);
    }
  }

  /** Printing an integer and reading it back gives the integer. */
  lemma DecimalRoundTrip(n: int)
    ensures var s := DecimalText(n); ((|s| > 0 && s[0] == '-' && AllDigits(s[1..])) || AllDigits(s)) && ParseDecimal(s) == n
  {
    if n < 0 {
      DigitsRoundTrip(-n);
      assert DecimalText(n)[1..] == Digits(-n);
    } else {
      DigitsRoundTrip(n);
    }
  }

  /** Worked example: the record {a: 1, b: 2} prints as "a: 1\nb: 2\n". */
  lemma ReportExample()
    ensures Report([("a", 1), ("b", 2)], DecimalText) == "a: 1\nb: 2\n"
  {
  }

  /** An empty record prints as the empty string. */
  lemma ReportEmpty<V>(show: V -> string)
    ensures Report([], show) == ""
  {
  }
}
