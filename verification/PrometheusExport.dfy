/** The exported text of one metric: comment lines and samples. */
module PrometheusExport {
  import opened Options
  import opened Decimal
  import opened OrderedMap
  import opened Percentiles
  import opened PrometheusText
  import opened PrometheusLaws
  import opened PrometheusRoundTrip

  /** How a number prints is a parameter. */
  type Show = real -> string

  datatype Kind = Counter(value: real) | Gauge(value: real)
    | Histogram(sum: real, count: nat, observations: seq<Observation>)

  datatype Metric = Metric(name: string, help: string, labels: Labels, timestamp: nat, kind: Kind)

  function TypeName(kind: Kind): string {
    match kind case Counter(_) => "counter" case Gauge(_) => "gauge" case Histogram(_, _, _) => "histogram"
  }

  function Comments(m: Metric): seq<string> {
    ["# HELP " + m.name + " " + m.help, "# TYPE " + m.name + " " + TypeName(m.kind)]
  }

  /** The window of the collector a histogram is replayed into. */
  const WINDOW := 10000

  function Samples(m: Metric, show: Show): seq<string>
    requires Valid(m.labels)
  {
    match m.kind
    case Counter(value) => [SampleText(m.name, m.labels, show(value), m.timestamp)]
    case Gauge(value) => [SampleText(m.name, m.labels, show(value), m.timestamp)]
    case Histogram(sum, count, observations) =>
      var window := ValuesOf(Last(observations, WINDOW));
      [SampleText(m.name + "_sum", m.labels, show(sum), m.timestamp),
       SampleText(m.name + "_count", m.labels, show(count as real), m.timestamp),
       SampleText(m.name + "_p50", m.labels, show(Percentile(window, 50)), m.timestamp),
       SampleText(m.name + "_p90", m.labels, show(Percentile(window, 90)), m.timestamp),
       SampleText(m.name + "_p95", m.labels, show(Percentile(window, 95)), m.timestamp),
       SampleText(m.name + "_p99", m.labels, show(Percentile(window, 99)), m.timestamp)]
  }

  /** `lines.join('\n')` */
  function JoinLines(lines: seq<string>): string {
    if lines == [] then "" else if |lines| == 1 then lines[0] else lines[0] + ("\n" + JoinLines(lines[1..]))
  }

  function MetricText(m: Metric, show: Show): string
    requires Valid(m.labels)
  {
    JoinLines(Comments(m) + Samples(m, show))
  }

  lemma SameValues(s: seq<Observation>, t: seq<Observation>)
    requires ValuesOf(s) == ValuesOf(t)
    ensures ValuesOf(Last(s, WINDOW)) == ValuesOf(Last(t, WINDOW))
  {
    assert |ValuesOf(s)| == |ValuesOf(t)|;
    var (a, b) := (Last(s, WINDOW), Last(t, WINDOW));
    var cut := if |s| <= WINDOW then 0 else |s| - WINDOW;
    assert a == s[cut..] && b == t[cut..];
    forall i | 0 <= i < |a| ensures ValuesOf(a)[i] == ValuesOf(b)[i] {
      assert a[i] == s[cut + i] && ValuesOf(s)[cut + i] == s[cut + i].value;
      assert b[i] == t[cut + i] && ValuesOf(t)[cut + i] == t[cut + i].value;
    }
  }

  lemma ValuesOfPush(s: seq<Observation>, x: Observation)
    ensures ValuesOf(s + [x]) == ValuesOf(s) + [x.value]
  {
  }

  /** The percentiles of a histogram come from a fresh collector that its observations are replayed into. */
  method Replayed(observations: seq<Observation>, now: int) returns (s: Summary)
    ensures var window := ValuesOf(Last(observations, WINDOW));
      s == Summary(Percentile(window, 50), Percentile(window, 90), Percentile(window, 95), Percentile(window, 99))
  {
    hide Percentile;
    var collector := new HistogramCollector(WINDOW, now);
    for i := 0 to |observations|
      invariant fresh(collector) && collector.Valid() && collector.maxObservations == WINDOW
      invariant ValuesOf(collector.log) == ValuesOf(observations[..i])
    {
      ValuesOfPush(collector.log, Observation(observations[i].value, now));
      ValuesOfPush(observations[..i], observations[i]);
      assert observations[..i + 1] == observations[..i] + [observations[i]];
      collector.Observe(observations[i].value, now);
    }
    assert observations[..|observations|] == observations;
    SameValues(collector.log, observations);
    s := collector.CalculatePercentiles();
  }

  method FormatMetric(m: Metric, show: Show, now: int) returns (text: string)
    requires Valid(m.labels)
    ensures text == MetricText(m, show)
  {
    hide JoinLines, SampleText, Percentile, Last, ValuesOf;
    var lines := [];
    lines := lines + ["# HELP " + m.name + " " + m.help];
    lines := lines + ["# TYPE " + m.name + " " + TypeName(m.kind)];
    match m.kind {
      case Counter(value) => lines := lines + [SampleText(m.name, m.labels, show(value), m.timestamp)];
      case Gauge(value) => lines := lines + [SampleText(m.name, m.labels, show(value), m.timestamp)];
      case Histogram(sum, count, observations) =>
        var s := Replayed(observations, now);
        lines := lines + [SampleText(m.name + "_sum", m.labels, show(sum), m.timestamp)];
        lines := lines + [SampleText(m.name + "_count", m.labels, show(count as real), m.timestamp)];
        lines := lines + [SampleText(m.name + "_p50", m.labels, show(s.p50), m.timestamp)];
        lines := lines + [SampleText(m.name + "_p90", m.labels, show(s.p90), m.timestamp)];
        lines := lines + [SampleText(m.name + "_p95", m.labels, show(s.p95), m.timestamp)];
        lines := lines + [SampleText(m.name + "_p99", m.labels, show(s.p99), m.timestamp)];
    }
    assert lines == Comments(m) + Samples(m, show);
    text := JoinLines(lines);
  }

  // ---------- the text read line by line ----------

  function SplitLines(s: string): (lines: seq<string>)
    ensures lines != []
  {
    if s == [] then [[]]
    else
      var rest := SplitLines(s[1..]);
      if s[0] == '\n' then [[]] + rest else [[s[0]] + rest[0]] + rest[1..]
  }

  lemma {:induction false} SplitFirst(line: string, rest: string)
    requires '\n' !in line
    ensures SplitLines(line + ("\n" + rest)) == [line] + SplitLines(rest) && SplitLines(line) == [line]
  {
    if line == [] {
      assert line + ("\n" + rest) == "\n" + rest && ("\n" + rest)[1..] == rest;
    } else {
      SplitFirst(line[1..], rest);
      assert (line + ("\n" + rest))[1..] == line[1..] + ("\n" + rest);
      assert line == [line[0]] + line[1..];
    }
  }

  lemma {:induction false} SplitJoined(lines: seq<string>)
    requires lines != [] && forall i :: 0 <= i < |lines| ==> '\n' !in lines[i]
    ensures SplitLines(JoinLines(lines)) == lines
  {
    if |lines| == 1 {
      SplitFirst(lines[0], "");
    } else {
      SplitJoined(lines[1..]);
      SplitFirst(lines[0], JoinLines(lines[1..]));
    }
  }

  ghost predicate SomeKeyHas(labels: Labels, i: nat, c: char)
    requires Valid(labels)
  {
    exists j :: i <= j < |labels.order| && c in labels.order[j]
  }

  lemma SomeKeySplit(labels: Labels, i: nat, c: char)
    requires Valid(labels) && i < |labels.order|
    ensures SomeKeyHas(labels, i, c) <==> c in labels.order[i] || SomeKeyHas(labels, i + 1, c)
    ensures i + 1 == |labels.order| ==> !SomeKeyHas(labels, i + 1, c)
  {
    if SomeKeyHas(labels, i, c) && c !in labels.order[i] {
      var j :| i <= j < |labels.order| && c in labels.order[j];
      assert j > i;
    }
  }

  lemma PairOnOneLine(key: string, value: string)
    ensures '\n' in Pair(key, value) <==> '\n' in key
  {
    hide Escape;
    EscapeFacts(value);
  }

  lemma {:induction false} JoinedOnOneLine(labels: Labels, i: nat)
    requires Valid(labels) && i < |labels.order|
    ensures '\n' in Joined(labels, i) <==> SomeKeyHas(labels, i, '\n')
    decreases |labels.order| - i
  {
    hide Pair, SomeKeyHas;
    PairOnOneLine(labels.order[i], labels.at[labels.order[i]]);
    SomeKeySplit(labels, i, '\n');
    if i + 1 < |labels.order| { JoinedOnOneLine(labels, i + 1); }
  }

  /** The label block of a line holds no newline, whatever the values hold, unless a label name does. */
  lemma LabelsOnOneLine(labels: Labels)
    requires Valid(labels)
    ensures '\n' in FormatLabels(labels) <==> SomeKeyHas(labels, 0, '\n')
  {
    hide Joined;
    if labels.order != [] { JoinedOnOneLine(labels, 0); }
  }

  lemma DigitsOnOneLine(n: nat)
    ensures '\n' !in PrintNat(n)
  {
    if '\n' in PrintNat(n) { assert false; }
  }

  lemma SampleOnOneLine(name: string, labels: Labels, number: string, timestamp: nat)
    requires Valid(labels) && '\n' !in number
    ensures '\n' in SampleText(name, labels, number, timestamp) <==> '\n' in name || SomeKeyHas(labels, 0, '\n')
  {
    LabelsOnOneLine(labels);
    DigitsOnOneLine(timestamp);
    hide FormatLabels, PrintNat, SomeKeyHas;
  }

  // ---------- a help text with newlines ----------

  function Newlines(s: string): nat {
    if s == [] then 0 else (if s[0] == '\n' then 1 else 0) + Newlines(s[1..])
  }

  lemma {:induction false} SplitCount(s: string)
    ensures |SplitLines(s)| == Newlines(s) + 1
  {
    if s != [] { SplitCount(s[1..]); }
  }

  lemma {:induction false} NewlinesConcat(s: string, t: string)
    ensures Newlines(s + t) == Newlines(s) + Newlines(t)
  {
    if s == [] {
      assert s + t == t;
    } else {
      assert (s + t)[1..] == s[1..] + t;
      NewlinesConcat(s[1..], t);
    }
  }

  lemma {:induction false} NewlinesNone(s: string)
    ensures Newlines(s) == 0 <==> '\n' !in s
  {
    if s != [] {
      NewlinesNone(s[1..]);
      assert s == [s[0]] + s[1..];
    }
  }

  lemma {:induction false} NewlinesJoined(lines: seq<string>)
    requires lines != []
    ensures Newlines(JoinLines(lines)) == |lines| - 1 <==> forall i :: 0 <= i < |lines| ==> '\n' !in lines[i]
    ensures Newlines(JoinLines(lines)) >= |lines| - 1
  {
    NewlinesNone(lines[0]);
    if |lines| > 1 {
      var rest := JoinLines(lines[1..]);
      NewlinesJoined(lines[1..]);
      NewlinesConcat(lines[0], "\n" + rest);
      NewlinesConcat("\n", rest);
      assert Newlines("\n") == 1;
      hide JoinLines, Newlines;
      assert forall i :: 0 < i < |lines| ==> lines[i] == lines[1..][i - 1];
    }
  }

  /** Numbers print as texts without blanks and newlines. */
  ghost predicate Prints(show: Show) { forall x: real :: IsPrinted(show(x)) && '\n' !in show(x) }

  /** The names of a metric's samples, and their numbers. */
  function Parts(m: Metric): seq<(string, real)> {
    match m.kind
    case Counter(value) => [(m.name, value)]
    case Gauge(value) => [(m.name, value)]
    case Histogram(sum, count, observations) =>
      var window := ValuesOf(Last(observations, WINDOW));
      [(m.name + "_sum", sum), (m.name + "_count", count as real),
       (m.name + "_p50", Percentile(window, 50)), (m.name + "_p90", Percentile(window, 90)),
       (m.name + "_p95", Percentile(window, 95)), (m.name + "_p99", Percentile(window, 99))]
  }

  lemma PartsOfSamples(m: Metric, show: Show, i: nat)
    requires Valid(m.labels) && i < |Parts(m)|
    ensures |Samples(m, show)| == |Parts(m)|
    ensures Samples(m, show)[i] == SampleText(Parts(m)[i].0, m.labels, show(Parts(m)[i].1), m.timestamp)
    ensures '\n' in Parts(m)[i].0 <==> '\n' in m.name
  {
    hide SampleText, Percentile, Last, ValuesOf;
    assert '\n' !in "_sum" && '\n' !in "_count";
    assert '\n' !in "_p50" && '\n' !in "_p90" && '\n' !in "_p95" && '\n' !in "_p99";
  }

  /** The texts that are printed as they are hold no newline. */
  ghost predicate OnOneLine(m: Metric)
    requires Valid(m.labels)
  {
    '\n' !in m.name && !SomeKeyHas(m.labels, 0, '\n')
  }

  lemma CommentLines(m: Metric)
    ensures var lines := Comments(m);
      && |lines| == 2 && lines[0] == "# HELP " + m.name + " " + m.help && lines[0][0] == '#' && lines[1][0] == '#'
      && ('\n' in lines[0] <==> '\n' in m.name || '\n' in m.help) && ('\n' in lines[1] <==> '\n' in m.name)
  {
    assert '\n' !in TypeName(m.kind) && '\n' !in "# HELP " && '\n' !in "# TYPE " && '\n' !in " ";
    hide TypeName;
  }

  lemma SampleHasNewline(m: Metric, show: Show, i: nat)
    requires Valid(m.labels) && Prints(show) && i < |Parts(m)|
    ensures |Samples(m, show)| == |Parts(m)| && ('\n' in Samples(m, show)[i] <==> !OnOneLine(m))
  {
    hide SampleText, Samples, Parts, SomeKeyHas;
    PartsOfSamples(m, show, i);
    var x := Parts(m)[i].1;
    assert '\n' !in show(x);
    SampleOnOneLine(Parts(m)[i].0, m.labels, show(x), m.timestamp);
  }

  lemma SomeParts(m: Metric)
    ensures |Parts(m)| > 0
  {
    hide Percentile, Last, ValuesOf;
  }

  lemma ExportedLines(m: Metric, show: Show)
    requires Valid(m.labels) && Prints(show)
    ensures var lines := Comments(m) + Samples(m, show);
      && |lines| == 2 + |Parts(m)|
      && ((forall i :: 0 <= i < |lines| ==> '\n' !in lines[i]) <==> '\n' !in m.help && OnOneLine(m))
  {
    hide Comments, Samples, Parts, Prints, SomeKeyHas;
    CommentLines(m);
    SomeParts(m);
    SampleHasNewline(m, show, 0);
    var lines := Comments(m) + Samples(m, show);
    assert lines[0] == Comments(m)[0] && lines[2] == Samples(m, show)[0];
    if '\n' !in m.help && OnOneLine(m) {
      forall i | 0 <= i < |lines| ensures '\n' !in lines[i] {
        if i >= 2 { SampleHasNewline(m, show, i - 2); }
      }
    }
  }

  /** What an exported text must hold for its lines to be those that were printed. */
  ghost predicate ReadsAsPrinted(m: Metric, show: Show, lines: seq<string>)
    requires Valid(m.labels) && |lines| == 2 + |Parts(m)|
  {
    && ParseLine(lines[0]) == None && ParseLine(lines[1]) == None
    && forall i :: 0 <= i < |Parts(m)| ==> SampleComesBackIff(m, show, Parts(m)[i], lines[i + 2])
  }

  /** A sample comes back as it was exactly when its name, its labels and its printed number do. */
  ghost predicate SampleComesBackIff(m: Metric, show: Show, part: (string, real), line: string)
    requires Valid(m.labels)
  {
    var number := show(part.1);
    ParseLine(line) == Some(Sample(part.0, m.labels, ParseFloat(number)))
    <==> LegalName(part.0) && ComesBack(m.labels) && IsNumberText(number)
  }

  /**
   The exported text of a metric has a line for each comment and each sample exactly when the help text, the name and
   the label names hold no newline. The comments are then skipped, and each sample comes back exactly when its parts do.
   */
  lemma ExportReadsBackIff(m: Metric, show: Show)
    requires Valid(m.labels) && Prints(show)
    ensures var lines := SplitLines(MetricText(m, show));
      && (|lines| == 2 + |Parts(m)| <==> '\n' !in m.help && OnOneLine(m))
      && (|lines| == 2 + |Parts(m)| ==> ReadsAsPrinted(m, show, lines))
  {
    hide SplitLines, JoinLines, Comments, Samples, Newlines, OnOneLine, ReadsAsPrinted, Parts;
    ExportedLines(m, show);
    var lines := Comments(m) + Samples(m, show);
    SplitCount(JoinLines(lines));
    NewlinesJoined(lines);
    if '\n' !in m.help && OnOneLine(m) {
      SplitJoined(lines);
      LinesReadBack(m, show);
    }
  }

  lemma LinesReadBack(m: Metric, show: Show)
    requires Valid(m.labels) && Prints(show) && |Comments(m) + Samples(m, show)| == 2 + |Parts(m)|
    ensures ReadsAsPrinted(m, show, Comments(m) + Samples(m, show))
  {
    CommentLines(m);
    var lines := Comments(m) + Samples(m, show);
    forall i | 0 <= i < |Parts(m)| ensures SampleComesBackIff(m, show, Parts(m)[i], lines[i + 2]) {
      hide Parts, Samples, ParseLine, SampleText, LegalName, ComesBack, IsNumberText, ParseFloat, IsPrinted, Valid;
      PartsOfSamples(m, show, i);
      assert lines[i + 2] == Samples(m, show)[i];
      RoundTripIff(Parts(m)[i].0, m.labels, show(Parts(m)[i].1), m.timestamp);
    }
    hide Samples, Parts, SampleComesBackIff;
  }

  /** The first two lines of an exported text are the help of the metric and its type. */
  lemma TypeIsTold(m: Metric, show: Show)
    requires Valid(m.labels) && Prints(show) && '\n' !in m.help && OnOneLine(m)
    ensures var lines := SplitLines(MetricText(m, show));
      && |lines| > 2 && lines[0] == "# HELP " + m.name + " " + m.help
      && (m.kind.Counter? ==> lines[1] == "# TYPE " + m.name + " counter")
      && (m.kind.Gauge? ==> lines[1] == "# TYPE " + m.name + " gauge")
      && (m.kind.Histogram? ==> lines[1] == "# TYPE " + m.name + " histogram")
  {
    hide SplitLines, JoinLines, Comments, Samples, Parts, Prints, OnOneLine;
    ExportedLines(m, show);
    SomeParts(m);
    var lines := Comments(m) + Samples(m, show);
    SplitJoined(lines);
    CommentLines(m);
    TypeLine(m);
    assert lines[0] == Comments(m)[0] && lines[1] == Comments(m)[1];
  }

  lemma TypeLine(m: Metric)
    ensures |Comments(m)| == 2
    ensures m.kind.Counter? ==> Comments(m)[1] == "# TYPE " + m.name + " counter"
    ensures m.kind.Gauge? ==> Comments(m)[1] == "# TYPE " + m.name + " gauge"
    ensures m.kind.Histogram? ==> Comments(m)[1] == "# TYPE " + m.name + " histogram"
  {
    var start := "# TYPE " + m.name;
    assert Comments(m)[1] == start + (" " + TypeName(m.kind));
  }

  /** Cutting the first of joined lines in two makes one line more. */
  lemma JoinSplit(first: string, second: string, rest: seq<string>)
    ensures JoinLines([first + ("\n" + second)] + rest) == JoinLines([first, second] + rest)
  {
    assert ([first, second] + rest)[1..] == [second] + rest;
    if rest != [] {
      assert ([second] + rest)[1..] == rest && ([first + ("\n" + second)] + rest)[1..] == rest;
    }
  }

  /** What stands behind a newline of the help text becomes a line of its own. */
  lemma HelpBecomesLine(m: Metric, show: Show, before: string, line: string)
    requires Valid(m.labels) && Prints(show) && OnOneLine(m)
    requires m.help == before + ("\n" + line) && '\n' !in before && '\n' !in line
    ensures var lines := SplitLines(MetricText(m, show)); |lines| == 3 + |Parts(m)| && lines[1] == line
  {
    var plain := m.(help := before);
    ExportedLines(plain, show);
    assert Samples(plain, show) == Samples(m, show) && Parts(plain) == Parts(m);
    CommentLines(m);
    CommentLines(plain);
    assert Comments(m)[1] == Comments(plain)[1];
    hide SplitLines, JoinLines, Comments, Samples, Parts, SomeKeyHas;
    var (lines, rest) := (Comments(m) + Samples(m, show), Comments(plain) + Samples(plain, show));
    var first := rest[0];
    assert lines[0] == first + ("\n" + line);
    assert lines[1..] == rest[1..];
    JoinSplit(first, line, rest[1..]);
    assert lines == [first + ("\n" + line)] + rest[1..];
    var all := [first, line] + rest[1..];
    assert forall i :: 2 <= i < |all| ==> all[i] == rest[i - 1];
    SplitJoined(all);
  }

  /** A help text can hold a sample of another metric. */
  lemma HelpBecomesSample(m: Metric, show: Show)
    requires Valid(m.labels) && Prints(show) && OnOneLine(m) && m.help == "x\nup 1"
    ensures var lines := SplitLines(MetricText(m, show));
      |lines| == 3 + |Parts(m)| && ParseLine(lines[1]) == Some(Sample("up", Empty(), Number(1, 0)))
  {
    hide OnOneLine, SplitLines, MetricText, Parts, Prints;
    assert m.help == "x" + ("\n" + "up 1");
    HelpBecomesLine(m, show, "x", "up 1");
    UpIsOne();
  }

  lemma TailOfOne()
    ensures TailNumber(" 1") == Some("1") && BlockLength(" 1") == 0
  {
    assert PrintInt(1) == "1";
    hide PrintInt;
    PrintedIsNumberText(1);
    assert " 1"[1..] == "1";
    hide NumberLength;
    assert " 1"[2..] == "" && " 1"[1..2] == "1";
  }

  lemma UpIsOne()
    ensures ParseLine("up 1") == Some(Sample("up", Empty(), Number(1, 0)))
  {
    assert LegalName("up") && PrintInt(1) == "1";
    hide PrintInt, ParseLine, TailNumber, BlockLength, ParseFloat, LegalName;
    ParseByParts("up", " 1");
    TailOfOne();
    ParseFloatPrinted(1);
    assert "up" + " 1" == "up 1" && " 1"[0..] == " 1";
  }
}
