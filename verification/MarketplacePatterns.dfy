/** The validator's readers of ids, versions and ranges accept exactly the texts its regular expressions match. */
module MarketplacePatterns {
  import opened Options
  import opened Decimal
  import opened Patterns
  import opened Versions
  import opened Marketplace

  ghost function Digit(): Class { (c: char) => '0' <= c <= '9' }

  ghost function Char(x: char): Class { (c: char) => c == x }

  ghost function IdChar(): Class { (c: char) => 'a' <= c <= 'z' || '0' <= c <= '9' }

  ghost function IdInner(): Class { (c: char) => 'a' <= c <= 'z' || '0' <= c <= '9' || c == '-' }

  ghost function TagChar(): Class {
    (c: char) => 'a' <= c <= 'z' || 'A' <= c <= 'Z' || '0' <= c <= '9' || c == '.'
  }

  ghost function OperatorChar(): Class { (c: char) => c in "^~>=<" }

  /** `[a-z0-9][a-z0-9-]*[a-z0-9]` */
  ghost function IdPattern(): Pattern { Then(One(IdChar()), Then(Many(IdInner()), One(IdChar()))) }

  /** `(-[a-zA-Z0-9.]+)?`, or with a plus sign. */
  ghost function TagPattern(lead: char): Pattern { Maybe(Then(One(Char(lead)), Plus(TagChar()))) }

  /** `\d+\.\d+\.\d+` and what follows. */
  ghost function NumbersThen(p: Pattern): Pattern { NumberDotThen(NumberDotThen(Then(Plus(Digit()), p))) }

  ghost function NumberDotThen(p: Pattern): Pattern { Then(Plus(Digit()), Then(One(Char('.')), p)) }

  ghost function VersionPattern(): Pattern { NumbersThen(Then(TagPattern('-'), TagPattern('+'))) }

  ghost function RangePattern(): Pattern { Then(Many(OperatorChar()), NumbersThen(TagPattern('-'))) }

  // ---------- ids ----------

  lemma IdIsPattern(s: string)
    ensures ValidId(s) <==> Matches(IdPattern(), s)
  {
    OneThen(IdChar(), Then(Many(IdInner()), One(IdChar())), s);
    if s != "" { ManyThenOne(IdInner(), IdChar(), s[1..]); }
    hide Matches;
    assert forall k :: 0 < k < |s| ==> s[k] == s[1..][k - 1];
  }

  // ---------- numbers and tags ----------

  lemma DigitsRun(s: string)
    ensures RunsFor(Digit(), s, DigitRun(s))
  {
  }

  lemma {:induction false} TagsRun(s: string)
    ensures RunsFor(TagChar(), s, TagRun(s))
  {
    if s != [] && IsTagChar(s[0]) {
      TagsRun(s[1..]);
      var n := TagRun(s);
      assert forall i :: 0 < i < n ==> s[..n][i] == s[1..][..n - 1][i - 1];
    }
  }

  lemma {:induction false} OperatorsRun(s: string)
    ensures RunsFor(OperatorChar(), s, OperatorRun(s))
  {
    if s != [] && OperatorChar()(s[0]) {
      OperatorsRun(s[1..]);
      var n := OperatorRun(s);
      assert forall i :: 0 < i < n ==> s[..n][i] == s[1..][..n - 1][i - 1];
    }
  }

  lemma NumberThen(p: Pattern, s: string)
    requires StartsOutside(p, Digit())
    ensures Matches(Then(Plus(Digit()), p), s) <==> TakeNumber(s).Some? && Matches(p, TakeNumber(s).value.1)
  {
    hide Matches, StartsOutside, DigitsValue;
    DigitsRun(s);
    RunThen(Digit(), p, s, DigitRun(s));
  }

  lemma DotStarts(p: Pattern)
    ensures StartsOutside(Then(One(Char('.')), p), Digit())
  {
    forall s | Matches(Then(One(Char('.')), p), s) && s != "" ensures !Digit()(s[0]) { OneThen(Char('.'), p, s); }
  }

  lemma NumberDot(p: Pattern, s: string)
    ensures Matches(NumberDotThen(p), s) <==>
      (TakeNumber(s).Some? && TakeDot(TakeNumber(s).value.1).Some? &&
         Matches(p, TakeDot(TakeNumber(s).value.1).value))
  {
    DotStarts(p);
    NumberThen(Then(One(Char('.')), p), s);
    if TakeNumber(s).Some? { OneThen(Char('.'), p, TakeNumber(s).value.1); }
    hide Matches, StartsOutside, TakeNumber;
  }

  lemma ThreeNumbers(p: Pattern, s: string)
    requires StartsOutside(p, Digit())
    ensures Matches(NumbersThen(p), s) <==> TakeVersion(s).Some? && Matches(p, TakeVersion(s).value.1)
  {
    var last := Then(Plus(Digit()), p);
    NumberDot(NumberDotThen(last), s);
    hide Matches, StartsOutside, TakeNumber, TakeDot, NumberDotThen;
    if TakeNumber(s).Some? && TakeDot(TakeNumber(s).value.1).Some? {
      var t := TakeDot(TakeNumber(s).value.1).value;
      NumberDot(last, t);
      if TakeNumber(t).Some? && TakeDot(TakeNumber(t).value.1).Some? {
        NumberThen(p, TakeDot(TakeNumber(t).value.1).value);
      }
    }
  }

  /** What follows an optional tag cannot prolong it, nor start with its lead. */
  ghost predicate StartsBehindTag(p: Pattern, lead: char) {
    StartsOutside(p, TagChar()) && StartsOutside(p, Char(lead))
  }

  lemma TagIs(lead: char, s: string)
    ensures Matches(TagPattern(lead), s) <==> s == "" || (s[0] == lead && |s| > 1 && AllOf(TagChar(), s[1..]))
  {
    OneThen(Char(lead), Plus(TagChar()), s);
    if s != "" { PlusIs(TagChar(), s[1..]); }
  }

  lemma TagThen(lead: char, p: Pattern, s: string)
    requires StartsBehindTag(p, lead)
    ensures Matches(Then(TagPattern(lead), p), s) <==> Matches(p, SkipTag(s, lead))
  {
    hide TagPattern, SkipTag, StartsBehindTag;
    if Matches(p, SkipTag(s, lead)) { SkippedIsTag(lead, s); }
    if Matches(Then(TagPattern(lead), p), s) {
      var i :| 0 <= i <= |s| && Matches(TagPattern(lead), s[..i]) && Matches(p, s[i..]);
      TagTaken(lead, p, s, i);
    }
  }

  lemma TagTaken(lead: char, p: Pattern, s: string, i: nat)
    requires StartsBehindTag(p, lead) && i <= |s| && Matches(TagPattern(lead), s[..i]) && Matches(p, s[i..])
    ensures s[i..] == SkipTag(s, lead)
  {
    TagIs(lead, s[..i]);
    hide Matches, TagPattern, TagRun;
    if i == 0 {
      assert s[0..] == s;
    } else {
      TagsRun(s[1..]);
      assert s[..i][1..] == s[1..][..i - 1] && s[i..] == s[1..][i - 1..];
      RunEnds(TagChar(), p, s[1..], TagRun(s[1..]), i - 1);
    }
  }

  lemma SkippedIsTag(lead: char, s: string)
    ensures var n := |s| - |SkipTag(s, lead)|;
      0 <= n <= |s| && Matches(TagPattern(lead), s[..n]) && s[n..] == SkipTag(s, lead)
  {
    if SkipTag(s, lead) == s {
      assert s[..0] == "" && s[0..] == s;
      TagIs(lead, "");
    } else {
      TagsRun(s[1..]);
      var n := 1 + TagRun(s[1..]);
      assert s[..n][1..] == s[1..][..n - 1];
      TagIs(lead, s[..n]);
    }
  }

  lemma TagStarts(lead: char, of: Class)
    requires !of(lead)
    ensures StartsOutside(TagPattern(lead), of)
  {
    forall s | Matches(TagPattern(lead), s) && s != "" ensures !of(s[0]) { TagIs(lead, s); }
  }

  lemma TagsStart()
    ensures StartsOutside(Then(TagPattern('-'), TagPattern('+')), Digit())
  {
    forall s | Matches(Then(TagPattern('-'), TagPattern('+')), s) && s != "" ensures !Digit()(s[0]) {
      var i :| 0 <= i <= |s| && Matches(TagPattern('-'), s[..i]) && Matches(TagPattern('+'), s[i..]);
      TagIs('-', s[..i]);
      TagIs('+', s[i..]);
    }
  }

  lemma TagEnds(lead: char, s: string)
    ensures Matches(TagPattern(lead), s) <==> SkipTag(s, lead) == ""
  {
    TagIs(lead, s);
    if s != "" { TagsRun(s[1..]); }
    hide Matches;
  }

  // ---------- versions and ranges ----------

  lemma VersionIsPattern(s: string)
    ensures ValidVersion(s) <==> Matches(VersionPattern(), s)
  {
    hide TakeVersion, SkipTag, Matches, TagPattern, NumbersThen, StartsOutside;
    TagsStart();
    ThreeNumbers(Then(TagPattern('-'), TagPattern('+')), s);
    if TakeVersion(s).Some? {
      var rest := TakeVersion(s).value.1;
      TagStarts('+', TagChar());
      TagStarts('+', Char('-'));
      TagThen('-', TagPattern('+'), rest);
      TagEnds('+', SkipTag(rest, '-'));
    }
  }

  lemma NumbersStart(p: Pattern)
    ensures StartsOutside(NumbersThen(p), OperatorChar())
  {
    forall s | Matches(NumbersThen(p), s) && s != "" ensures !OperatorChar()(s[0]) {
      var i :| 0 <= i <= |s| && Matches(Plus(Digit()), s[..i]);
      PlusIs(Digit(), s[..i]);
      assert s[..i][0] == s[0];
    }
  }

  lemma RangeIsPattern(s: string)
    ensures ValidRange(s) <==> Matches(RangePattern(), s)
  {
    hide TakeVersion, SkipTag, Matches, TagPattern, NumbersThen, StartsOutside;
    OperatorsRun(s);
    NumbersStart(TagPattern('-'));
    RunThen(OperatorChar(), NumbersThen(TagPattern('-')), s, OperatorRun(s));
    var rest := s[OperatorRun(s)..];
    TagStarts('-', Digit());
    ThreeNumbers(TagPattern('-'), rest);
    if TakeVersion(rest).Some? { TagEnds('-', TakeVersion(rest).value.1); }
  }
}
