/** The Prometheus exporter: label escaping, the printed sample line, and the line parser. */
module PrometheusText {
  import opened Options
  import opened Decimal
  import opened OrderedMap

  // ---------- escaping ----------

  /** `s.replace(/c/g, r)` */
  function ReplaceAll(s: string, c: char, r: string): string {
    if s == [] then [] else (if s[0] == c then r else [s[0]]) + ReplaceAll(s[1..], c, r)
  }

  /** Backslashes, then quotes, then newlines. */
  function Escape(value: string): string {
    ReplaceAll(ReplaceAll(ReplaceAll(value, '\\', "\\\\"), '"', "\\\""), '\n', "\\n")
  }

  /** What one character becomes. */
  function Escaped(c: char): string {
    if c == '\\' then "\\\\" else if c == '"' then "\\\"" else if c == '\n' then "\\n" else [c]
  }

  function EscapeOnce(value: string): string {
    if value == [] then [] else Escaped(value[0]) + EscapeOnce(value[1..])
  }

  lemma {:induction false} ReplaceAllConcat(s: string, t: string, c: char, r: string)
    ensures ReplaceAll(s + t, c, r) == ReplaceAll(s, c, r) + ReplaceAll(t, c, r)
  {
    if s == [] {
      assert s + t == t;
    } else {
      assert (s + t)[1..] == s[1..] + t;
      ReplaceAllConcat(s[1..], t, c, r);
    }
  }

  lemma ReplaceOne(a: char, c: char, r: string)
    ensures ReplaceAll([a], c, r) == if a == c then r else [a]
  {
    assert [a][1..] == [];
  }

  lemma ReplaceTwo(a: char, b: char, c: char, r: string)
    requires a != c
    ensures ReplaceAll([a, b], c, r) == [a] + if b == c then r else [b]
  {
    assert [a, b] == [a] + [b];
    ReplaceAllConcat([a], [b], c, r);
    ReplaceOne(a, c, r);
    ReplaceOne(b, c, r);
  }

  lemma EscapeOfOne(a: char)
    ensures Escape([a]) == Escaped(a)
  {
    hide ReplaceAll;
    ReplaceOne(a, '\\', "\\\\");
    ReplaceOne(a, '"', "\\\"");
    ReplaceOne(a, '\n', "\\n");
    assert "\\\\" == ['\\', '\\'] && "\\\"" == ['\\', '"'] && "\\n" == ['\\', 'n'];
    assert ['\\'] + ['\\'] == ['\\', '\\'] && ['\\'] + ['"'] == ['\\', '"'];
    ReplaceTwo('\\', '\\', '"', "\\\"");
    ReplaceTwo('\\', '\\', '\n', "\\n");
    ReplaceTwo('\\', '"', '\n', "\\n");
  }

  lemma EscapeConcat(s: string, t: string)
    ensures Escape(s + t) == Escape(s) + Escape(t)
  {
    hide ReplaceAll;
    var (s1, t1) := (ReplaceAll(s, '\\', "\\\\"), ReplaceAll(t, '\\', "\\\\"));
    var (s2, t2) := (ReplaceAll(s1, '"', "\\\""), ReplaceAll(t1, '"', "\\\""));
    ReplaceAllConcat(s, t, '\\', "\\\\");
    ReplaceAllConcat(s1, t1, '"', "\\\"");
    ReplaceAllConcat(s2, t2, '\n', "\\n");
  }

  /** The three passes are one: no replacement disturbs what an earlier one wrote. */
  lemma {:induction false} EscapeIsOnePass(value: string)
    ensures Escape(value) == EscapeOnce(value)
  {
    if value != [] {
      hide Escape;
      assert value == [value[0]] + value[1..];
      EscapeConcat([value[0]], value[1..]);
      EscapeOfOne(value[0]);
      EscapeIsOnePass(value[1..]);
    } else {
      assert Escape("") == "";
    }
  }

  // ---------- printing ----------

  /** The property names and values of a labels object, in property order. */
  type Labels = OMap<string>

  function Pair(key: string, value: string): string { key + ("=\"" + (Escape(value) + "\"")) }

  function PairAt(labels: Labels, i: nat): string
    requires Valid(labels) && i < |labels.order|
  {
    Pair(labels.order[i], labels.at[labels.order[i]])
  }

  /** The pairs from the i-th on, with commas between them. */
  function Joined(labels: Labels, i: nat): string
    requires Valid(labels) && i <= |labels.order|
    decreases |labels.order| - i
  {
    if i == |labels.order| then ""
    else if i + 1 == |labels.order| then PairAt(labels, i)
    else PairAt(labels, i) + ("," + Joined(labels, i + 1))
  }

  function FormatLabels(labels: Labels): string
    requires Valid(labels)
  {
    if labels.order == [] then "" else "{" + (Joined(labels, 0) + "}")
  }

  /** An integer below 10^21 in size, as JavaScript prints it. */
  function PrintInt(n: int): string { if n < 0 then "-" + PrintNat(-n) else PrintNat(n) }

  /** One sample, its number already printed. */
  function SampleText(name: string, labels: Labels, number: string, timestamp: nat): string
    requires Valid(labels)
  {
    name + (FormatLabels(labels) + (" " + (number + (" " + PrintNat(timestamp)))))
  }

  function SampleLine(name: string, labels: Labels, value: int, timestamp: nat): string
    requires Valid(labels)
  {
    SampleText(name, labels, PrintInt(value), timestamp)
  }

  // ---------- parsing ----------

  predicate IsNameStart(c: char) { 'a' <= c <= 'z' || 'A' <= c <= 'Z' || c == '_' }

  predicate IsNameChar(c: char) { IsNameStart(c) || IsDigit(c) }

  /** `[a-zA-Z_][a-zA-Z0-9_]*` */
  predicate LegalName(s: string) { s != [] && IsNameStart(s[0]) && forall i :: 0 <= i < |s| ==> IsNameChar(s[i]) }

  function NameCharRun(s: string): (n: nat)
    ensures n <= |s| && (forall i :: 0 <= i < n ==> IsNameChar(s[i])) && (n < |s| ==> !IsNameChar(s[n]))
  {
    if s == [] || !IsNameChar(s[0]) then 0
    else
      assert forall i :: 0 < i < 1 + NameCharRun(s[1..]) ==> s[i] == s[1..][i - 1];
      1 + NameCharRun(s[1..])
  }

  /** The length of the name a text starts with; 0 when it starts with none. */
  function NameLength(s: string): (n: nat)
    ensures n <= |s|
  {
    if s == [] || !IsNameStart(s[0]) then 0 else NameCharRun(s)
  }

  /** Where a character first occurs; the length of the text when it does not. */
  function IndexOf(s: string, c: char): (n: nat)
    ensures n <= |s| && (forall i :: 0 <= i < n ==> s[i] != c) && (n < |s| ==> s[n] == c)
  {
    if s == [] || s[0] == c then 0
    else
      assert forall i :: 0 < i < 1 + IndexOf(s[1..], c) ==> s[i] == s[1..][i - 1];
      1 + IndexOf(s[1..], c)
  }

  /** `(?:\{[^}]*\})?` : the length of the label block a text starts with. */
  function BlockLength(s: string): (n: nat)
    ensures n <= |s|
  {
    if s == [] || s[0] != '{' || IndexOf(s, '}') == |s| then 0 else IndexOf(s, '}') + 1
  }

  predicate IsNumberChar(c: char) { IsDigit(c) || c == '.' || c == 'e' || c == 'E' }

  function NumberCharRun(s: string): (n: nat)
    ensures n <= |s|
  {
    if s == [] || !IsNumberChar(s[0]) then 0 else 1 + NumberCharRun(s[1..])
  }

  /** `[+-]?[0-9.eE]+` : the length of the number a text starts with; 0 when it starts with none. */
  function NumberLength(s: string): (n: nat)
    ensures n <= |s|
  {
    var sign := if s != [] && (s[0] == '+' || s[0] == '-') then 1 else 0;
    var digits := NumberCharRun(s[sign..]);
    if digits == 0 then 0 else sign + digits
  }

  /** mantissa * 10^exponent, before rounding to a double. */
  datatype Number = NaN | Number(mantissa: int, exponent: int)

  /** The digits after a leading point, if there are any. */
  function Fraction(s: string): (digits: string)
    ensures AllDigits(digits)
  {
    if s != [] && s[0] == '.' then s[1..][..DigitRun(s[1..])] else ""
  }

  /** What follows a leading point and its digits. */
  function AfterFraction(s: string): string {
    if s != [] && s[0] == '.' then s[1..][DigitRun(s[1..])..] else s
  }

  /** The exponent a text starts with; 0 when it starts with none. */
  function Exponent(s: string): nat {
    if s != [] && (s[0] == 'e' || s[0] == 'E') then DigitsValue(s[1..][..DigitRun(s[1..])]) else 0
  }

  /** `parseFloat` on the texts the number pattern admits: a sign only in front. */
  function ParseFloat(s: string): Number {
    var signed := s != [] && (s[0] == '+' || s[0] == '-');
    var body := if signed then s[1..] else s;
    var whole := DigitRun(body);
    var rest := body[whole..];
    var fraction := Fraction(rest);
    if whole + |fraction| == 0 then NaN
    else
      var mantissa: int := DigitsValue(body[..whole] + fraction);
      Number(if signed && s[0] == '-' then -mantissa else mantissa, Exponent(AfterFraction(rest)) - |fraction|)
  }

  /** ` number`, then perhaps ` digits`, then the end: the number's text. */
  function TailNumber(s: string): Option<string> {
    if s == [] || s[0] != ' ' then None
    else
      var n := NumberLength(s[1..]);
      var rest := s[1 + n..];
      if n > 0 && (rest == [] || (|rest| > 1 && rest[0] == ' ' && DigitRun(rest[1..]) == |rest| - 1))
      then Some(s[1..1 + n])
      else None
  }

  /** `([a-zA-Z_][a-zA-Z0-9_]*)="([^"]*)"` at the start of a text: the length of the match, or 0. */
  function PairLength(s: string): (n: nat)
    ensures n <= |s|
  {
    var name := NameLength(s);
    if name == 0 || |s| < name + 2 || s[name] != '=' || s[name + 1] != '"' then 0
    else
      var close := IndexOf(s[name + 2..], '"');
      if close == |s| - (name + 2) then 0 else name + 2 + close + 1
  }

  /** All matches of the pair pattern, left to right. */
  function Pairs(s: string): seq<string>
    decreases |s|
  {
    if s == [] then []
    else
      var n := PairLength(s);
      if n == 0 then Pairs(s[1..]) else [s[..n]] + Pairs(s[n..])
  }

  /** `s.slice(1, -1)` */
  function Inner(s: string): string { if |s| < 2 then "" else s[1..|s| - 1] }

  /** The first two pieces of `pair.split('=')`; the second loses its first and last character. */
  function KeyOf(pair: string): string { pair[..IndexOf(pair, '=')] }

  function ValueOf(pair: string): string {
    var first := IndexOf(pair, '=');
    if first == |pair| then ""
    else
      var rest := pair[first + 1..];
      Inner(rest[..IndexOf(rest, '=')])
  }

  /** Assigning a text to `__proto__` leaves an object as it was. */
  function Assign(labels: Labels, key: string, value: string): Labels {
    if key == "__proto__" then labels else Put(labels, key, value)
  }

  function Collected(pairs: seq<string>): Labels {
    if pairs == [] then Empty()
    else
      var last := pairs[|pairs| - 1];
      Assign(Collected(pairs[..|pairs| - 1]), KeyOf(last), ValueOf(last))
  }

  datatype Sample = Sample(name: string, labels: Labels, value: Number)

  /** `s.trim() === ''` */
  predicate AllBlank(s: string) { forall i :: 0 <= i < |s| ==> IsBlank(s[i]) }

  function ParseLine(line: string): Option<Sample> {
    if line != [] && line[0] == '#' then None
    else if AllBlank(line) then None
    else
      var name := NameLength(line);
      if name == 0 then None
      else
        var block := BlockLength(line[name..]);
        match TailNumber(line[name + block..])
        case None => None
        case Some(number) =>
          var labels := if block > 2 then Collected(Pairs(Inner(line[name..name + block]))) else Empty();
          Some(Sample(line[..name], labels, ParseFloat(number)))
  }

  /** The loop that fills the labels object, a later value replacing an earlier one. */
  method CollectLabels(pairs: seq<string>) returns (labels: Labels)
    ensures labels == Collected(pairs)
  {
    hide KeyOf, ValueOf, Assign;
    labels := Empty();
    for i := 0 to |pairs|
      invariant labels == Collected(pairs[..i])
    {
      assert pairs[..i + 1][..i] == pairs[..i];
      labels := Assign(labels, KeyOf(pairs[i]), ValueOf(pairs[i]));
    }
    assert pairs[..|pairs|] == pairs;
  }

  method ParsePrometheusLine(line: string) returns (sample: Option<Sample>)
    ensures sample == ParseLine(line)
  {
    hide TailNumber, ParseFloat, AllBlank, NameLength, BlockLength, Inner, Pairs, Collected;
    if line != [] && line[0] == '#' { return None; }
    if AllBlank(line) { return None; }
    var name := NameLength(line);
    if name == 0 { return None; }
    var block := BlockLength(line[name..]);
    var number := TailNumber(line[name + block..]);
    if number == None { return None; }
    var labels := Empty();
    if block > 2 { labels := CollectLabels(Pairs(Inner(line[name..name + block]))); }
    sample := Some(Sample(line[..name], labels, ParseFloat(number.value)));
  }
}
