/** The line parser accepts exactly the lines its regular expression matches, and takes its pieces. */
module PrometheusPattern {
  import opened Options
  import opened Decimal
  import opened OrderedMap
  import opened Patterns
  import opened PrometheusText

  ghost function Digit(): Class { (c: char) => '0' <= c <= '9' }

  ghost function Start(): Class { (c: char) => 'a' <= c <= 'z' || 'A' <= c <= 'Z' || c == '_' }

  ghost function Word(): Class {
    (c: char) => 'a' <= c <= 'z' || 'A' <= c <= 'Z' || c == '_' || '0' <= c <= '9'
  }

  ghost function NumberChar(): Class { (c: char) => '0' <= c <= '9' || c == '.' || c == 'e' || c == 'E' }

  ghost function Char(x: char): Class { (c: char) => c == x }

  ghost function NotBrace(): Class { (c: char) => c != '}' }

  /** `[a-zA-Z_][a-zA-Z0-9_]*` */
  ghost function NamePattern(): Pattern { Then(One(Start()), Many(Word())) }

  /** `(?:\{[^}]*\})?` */
  ghost function BlockPattern(): Pattern { Maybe(Then(One(Char('{')), Then(Many(NotBrace()), One(Char('}'))))) }

  /** `[+-]?[0-9.eE]+` */
  ghost function NumberPattern(): Pattern { Then(Maybe(One(Sign())), Plus(NumberChar())) }

  /** `(?: ([0-9]+))?` */
  ghost function StampPattern(): Pattern { Maybe(Then(One(Char(' ')), Plus(Digit()))) }

  /** The line is a name, a label block, a blank, a number and a time stamp. */
  ghost predicate Pieces(line: string, name: string, block: string, number: string, stamp: string) {
    && line == name + (block + (" " + (number + stamp)))
    && Matches(NamePattern(), name) && Matches(BlockPattern(), block)
    && Matches(NumberPattern(), number) && Matches(StampPattern(), stamp)
  }

  // ---------- what the pieces are ----------

  lemma NameIs(s: string)
    ensures Matches(NamePattern(), s) <==> s != "" && Start()(s[0]) && AllOf(Word(), s)
  {
    OneThen(Start(), Many(Word()), s);
    if Matches(NamePattern(), s) {
      assert forall k :: 1 <= k < |s| ==> s[k] == s[1..][k - 1];
    }
  }

  lemma BlockIs(s: string)
    ensures Matches(BlockPattern(), s)
      <==> s == "" || (|s| >= 2 && s[0] == '{' && IndexOf(s, '}') == |s| - 1)
  {
    OneThen(Char('{'), Then(Many(NotBrace()), One(Char('}'))), s);
    if s != "" {
      ManyThenOne(NotBrace(), Char('}'), s[1..]);
      if s[0] == '{' { BraceEnds(s); }
    }
  }

  lemma BraceEnds(s: string)
    requires s != "" && s[0] == '{'
    ensures var t := s[1..];
      t != "" && AllOf(NotBrace(), t[..|t| - 1]) && t[|t| - 1] == '}' <==> |s| >= 2 && IndexOf(s, '}') == |s| - 1
  {
    var t := s[1..];
    assert forall k :: 0 <= k < |t| ==> t[k] == s[k + 1];
    assert forall k :: 0 < k < |s| ==> s[k] == t[k - 1];
  }

  ghost function Sign(): Class { (c: char) => c == '+' || c == '-' }

  /** A text without its sign. */
  function Unsigned(s: string): string { if s != [] && (s[0] == '+' || s[0] == '-') then s[1..] else s }

  lemma NumberIs(s: string)
    ensures Matches(NumberPattern(), s) <==> Unsigned(s) != "" && AllOf(NumberChar(), Unsigned(s))
  {
    var i := |s| - |Unsigned(s)|;
    PlusIs(NumberChar(), Unsigned(s));
    assert s[0..] == s;
    if Matches(Plus(NumberChar()), Unsigned(s)) {
      assert Matches(Maybe(One(Sign())), s[..i]) && Matches(Plus(NumberChar()), s[i..]);
    }
    if Matches(NumberPattern(), s) {
      var k :| 0 <= k <= |s| && Matches(Maybe(One(Sign())), s[..k]) && Matches(Plus(NumberChar()), s[k..]);
      PlusIs(NumberChar(), s[k..]);
      SignEnds(s, k);
    }
  }

  lemma SignEnds(s: string, k: nat)
    requires k < |s| && Matches(Maybe(One(Sign())), s[..k]) && NumberChar()(s[k])
    ensures s[k..] == Unsigned(s)
  {
    assert k <= 1;
    assert k == 1 ==> s[..k][0] == s[0];
  }

  lemma {:induction false} NumberRuns(s: string)
    ensures RunsFor(NumberChar(), s, NumberCharRun(s))
  {
    if s != [] && IsNumberChar(s[0]) {
      NumberRuns(s[1..]);
      var n := NumberCharRun(s);
      assert forall i :: 0 < i < n ==> s[..n][i] == s[1..][..n - 1][i - 1];
    }
  }

  lemma StampIs(s: string)
    ensures Matches(StampPattern(), s) <==> s == "" || (|s| > 1 && s[0] == ' ' && DigitRun(s[1..]) == |s| - 1)
  {
    OneThen(Char(' '), Plus(Digit()), s);
    if s != "" {
      PlusIs(Digit(), s[1..]);
      assert DigitRun(s[1..]) == |s| - 1 ==> s[1..][..|s| - 1] == s[1..];
    }
  }

  // ---------- the line ----------

  lemma NameRuns(s: string)
    ensures RunsFor(Word(), s, NameCharRun(s))
  {
  }

  lemma NameStops(name: string, rest: string)
    requires Matches(NamePattern(), name) && rest != "" && !Word()(rest[0])
    ensures NameLength(name + rest) == |name| > 0
  {
    NameIs(name);
    NameRuns(name + rest);
    assert IsNameStart((name + rest)[0]) && IsNameChar((name + rest)[0]);
    hide NameCharRun;
    RunStops(Word(), name, rest, NameCharRun(name + rest));
  }

  lemma BlockStops(block: string, rest: string)
    requires Matches(BlockPattern(), block) && rest != "" && rest[0] == ' '
    ensures BlockLength(block + rest) == |block|
  {
    BlockIs(block);
    var s := block + rest;
    if block == "" {
      assert s[0] == ' ';
    } else {
      var (n, at) := (IndexOf(block, '}'), IndexOf(s, '}'));
      assert s[n] == block[n] && forall i :: 0 <= i < n ==> s[i] == block[i];
    }
  }

  lemma NumberLengthIs(s: string)
    ensures var n := NumberCharRun(Unsigned(s));
      NumberLength(s) == if n == 0 then 0 else |s| - |Unsigned(s)| + n
  {
    hide NumberCharRun;
    assert s[0..] == s;
  }

  lemma UnsignedConcat(s: string, t: string)
    requires Unsigned(s) != ""
    ensures Unsigned(s + t) == Unsigned(s) + t
  {
    assert s + t != "" && (s + t)[0] == s[0];
    assert s != "" ==> (s + t)[1..] == s[1..] + t;
  }

  lemma NumberStops(number: string, stamp: string)
    requires Matches(NumberPattern(), number) && Matches(StampPattern(), stamp)
    ensures NumberLength(number + stamp) == |number|
  {
    NumberIs(number);
    StampIs(stamp);
    hide Matches, NumberCharRun, NumberLength, Unsigned;
    var t := Unsigned(number);
    UnsignedConcat(number, stamp);
    NumberLengthIs(number + stamp);
    NumberRuns(t + stamp);
    RunStops(NumberChar(), t, stamp, NumberCharRun(t + stamp));
  }

  lemma TailReads(number: string, stamp: string)
    requires Matches(NumberPattern(), number) && Matches(StampPattern(), stamp)
    ensures TailNumber(" " + (number + stamp)) == Some(number)
  {
    NumberIs(number);
    NumberStops(number, stamp);
    StampIs(stamp);
    hide Matches, NumberLength;
    var s := " " + (number + stamp);
    assert s[1..] == number + stamp && s[1 + |number|..] == stamp && s[1..1 + |number|] == number;
  }

  lemma ParsedIs(line: string, n: nat, b: nat, number: string)
    requires 0 < n == NameLength(line) && b == BlockLength(line[n..]) && TailNumber(line[n + b..]) == Some(number)
    ensures var labels := if b > 2 then Collected(Pairs(Inner(line[n..n + b]))) else Empty();
      ParseLine(line) == Some(Sample(line[..n], labels, ParseFloat(number)))
  {
    hide BlockLength, TailNumber, ParseFloat, Collected, Pairs, Inner, NameCharRun;
    assert !IsBlank(line[0]) && line[0] != '#';
  }

  /** However a line is cut into the pieces of the pattern, these are the pieces the parser takes. */
  lemma PiecesAreTaken(line: string, name: string, block: string, number: string, stamp: string)
    requires Pieces(line, name, block, number, stamp)
    ensures ParseLine(line) ==
      Some(Sample(name, if |block| > 2 then Collected(Pairs(Inner(block))) else Empty(), ParseFloat(number)))
  {
    hide Matches, NameLength, BlockLength, TailNumber, ParseFloat, Collected, Pairs, Inner, IndexOf, ParseLine;
    var tail := " " + (number + stamp);
    BlockIs(block);
    NameStops(name, block + tail);
    BlockStops(block, tail);
    TailReads(number, stamp);
    CutInThree(line, name, block, tail);
    ParsedIs(line, |name|, |block|, number);
  }

  lemma CutInThree(line: string, a: string, b: string, c: string)
    requires line == a + (b + c)
    ensures line[..|a|] == a && line[|a|..] == b + c && line[|a| + |b|..] == c && line[|a|..|a| + |b|] == b
  {
  }

  /** A line is parsed exactly when it can be cut into the pieces of the pattern. */
  lemma LineIsPattern(line: string)
    ensures ParseLine(line).Some? <==> exists name, block, number, stamp :: Pieces(line, name, block, number, stamp)
  {
    if ParseLine(line).Some? {
      ParsedHasPieces(line);
    }
    forall name, block, number, stamp | Pieces(line, name, block, number, stamp) ensures ParseLine(line).Some? {
      PiecesAreTaken(line, name, block, number, stamp);
    }
  }

  lemma ParsedHasPieces(line: string)
    requires ParseLine(line).Some?
    ensures exists name, block, number, stamp :: Pieces(line, name, block, number, stamp)
  {
    hide Matches, NameLength, BlockLength, TailNumber, ParseFloat, Collected, Pairs, Inner, IndexOf;
    var n := NameLength(line);
    var b := BlockLength(line[n..]);
    var tail := line[n + b..];
    NamePiece(line);
    BlockPiece(line[n..]);
    TailPieces(tail);
    var number := TailNumber(tail).value;
    hide ParseLine;
    assert line == line[..n] + (line[n..][..b] + tail);
    assert Pieces(line, line[..n], line[n..][..b], number, tail[1 + |number|..]);
  }

  lemma NamePiece(s: string)
    requires NameLength(s) > 0
    ensures Matches(NamePattern(), s[..NameLength(s)])
  {
    NameIs(s[..NameLength(s)]);
  }

  lemma BlockPiece(s: string)
    ensures Matches(BlockPattern(), s[..BlockLength(s)])
  {
    var block := s[..BlockLength(s)];
    BlockIs(block);
    if block != "" { assert block[|block| - 1] == '}'; }
  }

  lemma NumberPiece(t: string)
    requires NumberLength(t) > 0
    ensures Matches(NumberPattern(), t[..NumberLength(t)])
  {
    var (number, rest) := (t[..NumberLength(t)], t[NumberLength(t)..]);
    NumberIs(number);
    NumberLengthIs(t);
    NumberRuns(Unsigned(t));
    hide Matches, NumberCharRun, NumberLength;
    assert Unsigned(number) == Unsigned(t)[..NumberCharRun(Unsigned(t))];
  }

  lemma TailPieces(tail: string)
    requires TailNumber(tail).Some?
    ensures var number := TailNumber(tail).value;
      && |tail| > |number| && tail == " " + (number + tail[1 + |number|..])
      && Matches(NumberPattern(), number) && Matches(StampPattern(), tail[1 + |number|..])
  {
    hide Matches, NumberLength, DigitRun;
    NumberPiece(tail[1..]);
    StampIs(tail[1 + NumberLength(tail[1..])..]);
  }
}
