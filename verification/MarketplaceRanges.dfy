/** The texts the manifest validator lets through, and which of its ranges any version can satisfy. */
module MarketplaceRanges {
  import opened Options
  import opened Decimal
  import opened Versions
  import opened Marketplace

  /** A printed version and whatever follows it, up to a character that would prolong its last number. */
  lemma TakeVersionPrinted(v: Version, rest: string)
    requires rest != [] ==> !IsDigit(rest[0])
    ensures TakeVersion(PrintVersion(v) + rest) == Some((v, rest))
  {
    hide TakeNumber, TakeDot, PrintNat, IsDigit;
    var t2 := PrintNat(v.patch) + rest;
    var t1 := PrintNat(v.minor) + ("." + t2);
    TakeDotPrinted(t2);
    TakeDotPrinted(t1);
    TakeNumberPrinted(v.major, "." + t1);
    TakeNumberPrinted(v.minor, "." + t2);
    TakeNumberPrinted(v.patch, rest);
    assert PrintVersion(v) + rest == PrintNat(v.major) + ("." + t1);
  }

  lemma SkipsTag(tag: string, lead: char)
    requires IsTag(tag) && (lead == '-' || lead == '+')
    ensures SkipTag([lead] + tag, lead) == "" && SkipTag("", lead) == ""
        && SkipTag([lead] + tag, if lead == '-' then '+' else '-') == [lead] + tag
  {
    TagRunWhole(tag);
    assert ([lead] + tag)[1..] == tag && ([lead] + tag)[1 + |tag|..] == "";
  }

  /** Every printed version is a valid version, also with a pre-release or build tag. */
  lemma PrintedVersionIsValid(v: Version, tag: string, lead: char)
    requires IsTag(tag) && (lead == '-' || lead == '+')
    ensures ValidVersion(PrintVersion(v)) && ValidVersion(PrintVersion(v) + ([lead] + tag))
  {
    hide TakeVersion, PrintVersion, SkipTag, IsTag;
    TakeVersionPrinted(v, "");
    TakeVersionPrinted(v, [lead] + tag);
    assert PrintVersion(v) + "" == PrintVersion(v);
    SkipsTag(tag, lead);
    assert SkipTag("", '-') == "" && SkipTag("", '+') == "" by { SkipsNothing(); }
  }

  lemma SkipsNothing()
    ensures SkipTag("", '-') == "" && SkipTag("", '+') == ""
  {
  }

  lemma {:induction false} TagRunWhole(tag: string)
    requires forall i :: 0 <= i < |tag| ==> IsTagChar(tag[i])
    ensures TagRun(tag) == |tag|
  {
    if tag != [] { TagRunWhole(tag[1..]); }
  }

  predicate IsOperatorChar(c: char) { c == '^' || c == '~' || c == '>' || c == '=' || c == '<' }

  lemma {:induction false} OperatorRunStops(operators: string, rest: string)
    requires (forall i :: 0 <= i < |operators| ==> IsOperatorChar(operators[i]))
        && (rest != [] ==> !IsOperatorChar(rest[0]))
    ensures OperatorRun(operators + rest) == |operators|
  {
    if operators == [] {
      assert operators + rest == rest;
    } else {
      assert (operators + rest)[1..] == operators[1..] + rest;
      OperatorRunStops(operators[1..], rest);
    }
  }

  /** Any run of operator characters in front of a version makes a valid range. */
  lemma PrintedRangeIsValid(operators: string, v: Version)
    requires forall i :: 0 <= i < |operators| ==> IsOperatorChar(operators[i])
    ensures ValidRange(operators + PrintVersion(v)) && OperatorRun(operators + PrintVersion(v)) == |operators|
  {
    StartsWithDigit(v);
    OperatorRunStops(operators, PrintVersion(v));
    TakeVersionPrinted(v, "");
    hide TakeVersion, PrintVersion;
    assert PrintVersion(v) + "" == PrintVersion(v);
    assert (operators + PrintVersion(v))[|operators|..] == PrintVersion(v);
  }

  lemma {:induction false} OperatorRunFacts(s: string)
    ensures forall i :: 0 <= i < OperatorRun(s) ==> IsOperatorChar(s[i])
    ensures OperatorRun(s) < |s| ==> !IsOperatorChar(s[OperatorRun(s)])
  {
    if s != [] && IsOperatorChar(s[0]) {
      OperatorRunFacts(s[1..]);
      assert forall i :: 0 < i < OperatorRun(s) ==> s[i] == s[1..][i - 1];
    }
  }

  /** What remains of a range behind its recognized operator. */
  function Behind(range: string): string { SplitRange(range).1 }

  lemma NoNumberBehindOperator(s: string)
    requires s != [] && IsOperatorChar(s[0])
    ensures ParseSemver(s) == None
  {
    assert DigitRun(s) == 0;
  }

  /** The operators in front of a range are none, or one the comparison knows. */
  predicate KnownOperator(range: string) {
    var n := OperatorRun(range);
    n == 0 || (n == 1 && (range[0] == '^' || range[0] == '~')) || (n == 2 && range[..2] == ">=")
  }

  lemma SplitsAtOperator(range: string)
    requires ValidRange(range) && KnownOperator(range)
    ensures Behind(range) == range[OperatorRun(range)..] && TakeVersion(Behind(range)).Some?
  {
    OperatorRunFacts(range);
    hide TakeVersion, OperatorRun;
    assert range[0..] == range;
  }

  lemma RangeHoldsMore(range: string)
    requires ValidRange(range)
    ensures OperatorRun(range) < |range|
  {
    assert TakeVersion("") == None;
    hide TakeVersion;
    if OperatorRun(range) >= |range| { assert false; }
  }

  lemma LeavesOperator(range: string)
    requires ValidRange(range) && !KnownOperator(range)
    ensures Behind(range) != [] && IsOperatorChar(Behind(range)[0])
  {
    OperatorRunFacts(range);
    hide TakeVersion, OperatorRun;
    RangeHoldsMore(range);
  }

  /** The version a range is written with satisfies it, if the operator is a known one. */
  lemma OwnVersionSatisfies(op: Operator, req: Version)
    ensures Satisfies(req, op, req)
  {
  }

  /**
   The validator accepts ranges no version satisfies. Of the valid ranges exactly those can be satisfied whose
   operator is none, `^`, `~` or `>=`; `<`, `>`, `=`, `<=` and longer runs never are.
   */
  lemma SatisfiableIff(range: string)
    requires ValidRange(range)
    ensures (exists version :: SatisfiesRange(version, range)) <==> KnownOperator(range)
  {
    hide ValidRange, KnownOperator, ParseSemver, Satisfies, PrintVersion;
    if KnownOperator(range) {
      SplitsAtOperator(range);
      assert ParseSemver(Behind(range)).Some? by { ParsesWhenTaken(Behind(range)); }
      var (op, req) := (SplitRange(range).0, ParseSemver(Behind(range)).value);
      hide SplitRange;
      ParseSemverPrinted(req);
      OwnVersionSatisfies(op, req);
      assert SatisfiesRange(PrintVersion(req), range);
    } else {
      LeavesOperator(range);
      NoNumberBehindOperator(Behind(range));
    }
  }

  lemma ParsesWhenTaken(s: string)
    requires TakeVersion(s).Some?
    ensures ParseSemver(s).Some?
  {
  }
}
