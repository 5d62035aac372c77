/** Which texts are cron expressions, and of what, told from how the text is put together. */
module CronParsing {
  import opened Options
  import opened Decimal
  import opened Cron

  // ---------- words ----------

  ghost predicate Blank(s: string) { forall i :: 0 <= i < |s| ==> IsBlank(s[i]) }

  /** The words with the gaps around and between them. */
  function Glue(words: seq<string>, gaps: seq<string>): string
    requires |gaps| == |words| + 1
  {
    if words == [] then gaps[0] else gaps[0] + (words[0] + Glue(words[1..], gaps[1..]))
  }

  ghost predicate Gaps(words: seq<string>, gaps: seq<string>) {
    && |gaps| == |words| + 1
    && (forall i :: 0 <= i < |words| ==> IsWord(words[i]))
    && (forall i :: 0 <= i < |gaps| ==> Blank(gaps[i]))
    && (forall i :: 0 < i < |words| ==> gaps[i] != "")
  }

  ghost predicate IsCut(s: string, words: seq<string>, gaps: seq<string>) {
    Gaps(words, gaps) && s == Glue(words, gaps)
  }

  lemma {:induction false} WordsSkipBlanks(gap: string, s: string)
    requires Blank(gap)
    ensures Words(gap + s) == Words(s)
  {
    if gap == "" {
      assert gap + s == s;
    } else {
      assert (gap + s)[1..] == gap[1..] + s;
      WordsSkipBlanks(gap[1..], s);
    }
  }

  lemma {:induction false} WordsTakeWord(word: string, s: string)
    requires IsWord(word) && (s != "" ==> IsBlank(s[0]))
    ensures Words(word + s) == [word] + Words(s)
  {
    var all := word + s;
    assert all[0] == word[0] && all[1..] == word[1..] + s;
    if |word| == 1 {
      assert word[1..] + s == s && [word[0]] == word;
      assert s != "" ==> all[1] == s[0];
    } else {
      assert all[1] == word[1];
      WordsTakeWord(word[1..], s);
      assert [word[0]] + word[1..] == word;
    }
  }

  /** However a text is cut into words and gaps, those are its words. */
  lemma {:induction false} WordsOfGlue(words: seq<string>, gaps: seq<string>)
    requires Gaps(words, gaps)
    ensures Words(Glue(words, gaps)) == words
    decreases |words|
  {
    hide Words;
    if words == [] {
      WordsSkipBlanks(gaps[0], "");
      assert gaps[0] + "" == gaps[0] && Words("") == [] by { NoWords(); }
    } else {
      var rest := Glue(words[1..], gaps[1..]);
      WordsOfGlue(words[1..], gaps[1..]);
      WordsSkipBlanks(gaps[0], words[0] + rest);
      GlueStarts(words[1..], gaps[1..]);
      if rest != "" && gaps[1] != "" { assert rest[0] == gaps[1][0]; }
      WordsTakeWord(words[0], rest);
    }
  }

  lemma NoWords()
    ensures Words("") == []
  {
  }

  lemma GlueStarts(words: seq<string>, gaps: seq<string>)
    requires |gaps| == |words| + 1
    ensures gaps[0] <= Glue(words, gaps)
    ensures words == [] ==> Glue(words, gaps) == gaps[0]
  {
  }

  /** Every text is cut somehow. */
  lemma {:induction false} SomeCut(s: string) returns (gaps: seq<string>)
    ensures IsCut(s, Words(s), gaps)
  {
    hide Gaps;
    if s == "" {
      gaps := [""];
      assert Gaps([], gaps) by { NoGaps(); }
    } else {
      var rest := SomeCut(s[1..]);
      hide IsCut;
      if IsBlank(s[0]) {
        gaps := CutBlank(s, Words(s[1..]), rest);
      } else if |s| == 1 || IsBlank(s[1]) {
        gaps := CutLetter(s, Words(s[1..]), rest);
      } else {
        CutInWord(s, Words(s[1..]), rest);
        gaps := rest;
      }
    }
  }

  lemma NoGaps()
    ensures Gaps([], [""])
  {
  }

  lemma CutBlank(s: string, words: seq<string>, rest: seq<string>) returns (gaps: seq<string>)
    requires s != "" && IsBlank(s[0]) && IsCut(s[1..], words, rest)
    ensures IsCut(s, words, gaps)
  {
    gaps := [[s[0]] + rest[0]] + rest[1..];
    GlueLonger(words, rest, gaps, [s[0]]);
    hide Glue;
    assert s == [s[0]] + s[1..];
  }

  lemma CutLetter(s: string, words: seq<string>, rest: seq<string>) returns (gaps: seq<string>)
    requires s != "" && !IsBlank(s[0]) && IsCut(s[1..], words, rest)
    requires (|s| == 1 && words == []) || (|s| > 1 && IsBlank(s[1]))
    ensures IsCut(s, [[s[0]]] + words, gaps)
  {
    gaps := [""] + rest;
    var more := [[s[0]]] + words;
    if words != [] { FirstGap(s[1..], words, rest); }
    assert gaps[1..] == rest && more[1..] == words;
    assert s == "" + ([s[0]] + s[1..]);
    assert Glue(more, gaps) == "" + ([s[0]] + Glue(words, rest));
    hide Glue;
    assert forall i :: 0 < i < |gaps| ==> gaps[i] == rest[i - 1];
  }

  lemma CutInWord(s: string, words: seq<string>, gaps: seq<string>)
    requires |s| > 1 && !IsBlank(s[0]) && !IsBlank(s[1]) && IsCut(s[1..], words, gaps)
    ensures words != [] && IsCut(s, [[s[0]] + words[0]] + words[1..], gaps)
  {
    FirstWord(s[1..], words, gaps);
    var more := [[s[0]] + words[0]] + words[1..];
    assert more[1..] == words[1..];
    assert Glue(more, gaps) == "" + (([s[0]] + words[0]) + Glue(words[1..], gaps[1..]));
    hide Glue;
    assert s == [s[0]] + s[1..];
  }

  lemma GlueLonger(words: seq<string>, gaps: seq<string>, longer: seq<string>, c: string)
    requires |gaps| == |words| + 1 && longer == [c + gaps[0]] + gaps[1..]
    ensures Glue(words, longer) == c + Glue(words, gaps)
  {
    assert longer[1..] == gaps[1..];
  }

  /** A text that starts with a blank starts with a gap. */
  lemma FirstGap(s: string, words: seq<string>, gaps: seq<string>)
    requires IsCut(s, words, gaps) && words != [] && s != "" && IsBlank(s[0])
    ensures gaps[0] != ""
  {
    var t := words[0] + Glue(words[1..], gaps[1..]);
    assert t[0] == words[0][0] && s == gaps[0] + t;
    assert gaps[0] == "" ==> s == t;
  }

  lemma GapStarts(s: string, words: seq<string>, gaps: seq<string>)
    requires IsCut(s, words, gaps) && gaps[0] != ""
    ensures s != "" && IsBlank(s[0])
  {
    GlueStarts(words, gaps);
    assert s[0] == gaps[0][0];
  }

  /** A text that starts with no blank starts with a word. */
  lemma FirstWord(s: string, words: seq<string>, gaps: seq<string>)
    requires IsCut(s, words, gaps) && s != "" && !IsBlank(s[0])
    ensures words != [] && gaps[0] == "" && s == words[0] + Glue(words[1..], gaps[1..])
  {
    if gaps[0] != "" { GapStarts(s, words, gaps); }
  }

  // ---------- fields ----------

  /** The text starts with a number, perhaps with a sign; what follows the digits does not matter. */
  ghost predicate StartsWith(s: string, n: int) {
    exists sign, digits, rest :: IsNumber(s, sign, digits, rest) && n == Signed(sign, digits)
  }

  ghost predicate IsNumber(s: string, sign: string, digits: string, rest: string) {
    && s == sign + (digits + rest) && (sign == "" || sign == "+" || sign == "-")
    && digits != "" && AllDigits(digits) && (rest != "" ==> !('0' <= rest[0] <= '9'))
  }

  ghost function Signed(sign: string, digits: string): int
    requires AllDigits(digits)
  {
    if sign == "-" then -(DigitsValue(digits) as int) else DigitsValue(digits)
  }

  lemma ParsesNumber(s: string, sign: string, digits: string, rest: string)
    requires IsNumber(s, sign, digits, rest)
    ensures ParseInt(s) == Some(Signed(sign, digits))
  {
    var body := digits + rest;
    DigitRunStops(digits, rest);
    assert body[..|digits|] == digits && body[0] == digits[0];
    assert if sign == "" then s == body else s[1..] == body && s[0] == sign[0];
    hide DigitsValue, DigitRun;
  }

  lemma ParsedIsNumber(s: string)
    requires ParseInt(s).Some?
    ensures StartsWith(s, ParseInt(s).value)
  {
    var signed := s != [] && (s[0] == '-' || s[0] == '+');
    var body := if signed then s[1..] else s;
    var sign := if signed then [s[0]] else "";
    var k := DigitRun(body);
    var (digits, rest) := (body[..k], body[k..]);
    assert ParseInt(s).value == Signed(sign, digits);
    hide DigitsValue, DigitRun, ParseInt;
    assert body == digits + rest && s == sign + body;
    assert rest != "" ==> rest[0] == body[k];
    assert IsNumber(s, sign, digits, rest);
  }

  lemma ParseIntIff(s: string, n: int)
    ensures ParseInt(s) == Some(n) <==> StartsWith(s, n)
  {
    if ParseInt(s) == Some(n) { ParsedIsNumber(s); }
    if StartsWith(s, n) {
      var sign, digits, rest :| IsNumber(s, sign, digits, rest) && n == Signed(sign, digits);
      ParsesNumber(s, sign, digits, rest);
    }
  }

  /** A star, a star and an interval, or a value in the range of the field. */
  ghost predicate Says(token: string, min: int, max: int, f: Field) {
    match f
    case Wildcard => token == "*"
    case Every(n) => token != "*" && "*/" <= token && StartsWith(token[2..], n) && n > 0
    case Exactly(v) => StartsWith(token, v) && min <= v <= max
  }

  lemma NumberIsNoStar(s: string, n: int)
    requires StartsWith(s, n)
    ensures s != "" && s[0] != '*'
  {
    var sign, digits, rest :| IsNumber(s, sign, digits, rest) && n == Signed(sign, digits);
    assert s[0] == if sign == "" then digits[0] else sign[0];
  }

  lemma FieldIff(token: string, min: int, max: int, f: Field)
    ensures ParseField(token, min, max) == Some(f) <==> Says(token, min, max, f)
  {
    hide ParseInt, StartsWith;
    match f {
      case Wildcard =>
      case Every(n) => if |token| >= 2 { ParseIntIff(token[2..], n); }
      case Exactly(v) =>
        ParseIntIff(token, v);
        if StartsWith(token, v) { NumberIsNoStar(token, v); }
    }
  }

  // ---------- expressions ----------

  ghost predicate SaysAll(words: seq<string>, c: Parsed) {
    && |words| == 5
    && Says(words[0], 0, 59, c.minute) && Says(words[1], 0, 23, c.hour) && Says(words[2], 1, 31, c.dayOfMonth)
    && Says(words[3], 1, 12, c.month) && Says(words[4], 0, 6, c.dayOfWeek)
  }

  lemma WordsSay(s: string, c: Parsed)
    ensures ParseCron(s) == Some(c) <==> SaysAll(Words(s), c)
  {
    hide ParseField, Words, Says;
    var words := Words(s);
    if |words| == 5 {
      FieldIff(words[0], 0, 59, c.minute);
      FieldIff(words[1], 0, 23, c.hour);
      FieldIff(words[2], 1, 31, c.dayOfMonth);
      FieldIff(words[3], 1, 12, c.month);
      FieldIff(words[4], 0, 6, c.dayOfWeek);
    }
  }

  /** A text is the expression of these fields exactly when it can be cut at blanks into five words that say them. */
  lemma ParseCronIff(s: string, c: Parsed)
    ensures ParseCron(s) == Some(c) <==> exists words, gaps :: IsCut(s, words, gaps) && SaysAll(words, c)
  {
    WordsSay(s, c);
    hide Words, SaysAll, ParseCron, Gaps, Glue;
    var gaps := SomeCut(s);
    assert IsCut(s, Words(s), gaps);
    forall words, others | IsCut(s, words, others) ensures words == Words(s) { WordsOfGlue(words, others); }
  }
}
