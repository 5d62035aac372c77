/**
 The two version checkers of the repository, on texts and on numbers: the marketplace's, which folds a version
 into one weighted number, and the federation package's, which compares component by component.
 */
module Versions {
  import opened Options
  import opened Decimal

  datatype Version = Version(major: nat, minor: nat, patch: nat)

  /** A number at the start of a text and what follows it. */
  function TakeNumber(s: string): Option<(nat, string)> {
    var n := DigitRun(s);
    if n == 0 then None else Some((DigitsValue(s[..n]), s[n..]))
  }

  function TakeDot(s: string): Option<string> {
    if s != [] && s[0] == '.' then Some(s[1..]) else None
  }

  /** Three numbers with dots between them at the start of a text, and what follows them. */
  function TakeVersion(s: string): Option<(Version, string)> {
    match TakeNumber(s) case None => None case Some((major, s1)) =>
    match TakeDot(s1) case None => None case Some(s2) =>
    match TakeNumber(s2) case None => None case Some((minor, s3)) =>
    match TakeDot(s3) case None => None case Some(s4) =>
    match TakeNumber(s4) case None => None case Some((patch, s5)) =>
    Some((Version(major, minor, patch), s5))
  }

  /** The marketplace's `parseSemver`: whatever follows the three numbers is ignored. */
  function ParseSemver(s: string): Option<Version> {
    match TakeVersion(s) case None => None case Some((v, _)) => Some(v)
  }

  datatype Operator = AtLeast | Caret | Tilde | Exact

  /** The operator a range starts with, and the rest. */
  function SplitRange(range: string): (Operator, string) {
    if |range| >= 2 && range[..2] == ">=" then (AtLeast, range[2..])
    else if range != [] && range[0] == '^' then (Caret, range[1..])
    else if range != [] && range[0] == '~' then (Tilde, range[1..])
    else (Exact, range)
  }

  function Weight(v: Version): nat { v.major * 1000000 + v.minor * 1000 + v.patch }

  /** The marketplace's comparison. */
  predicate Satisfies(v: Version, op: Operator, req: Version) {
    match op
    case AtLeast => Weight(v) >= Weight(req)
    case Caret =>
      if req.major == 0 then v.major == req.major && v.minor == req.minor && v.patch >= req.patch
      else v.major == req.major && Weight(v) >= Weight(req)
    case Tilde => v.major == req.major && v.minor == req.minor && v.patch >= req.patch
    case Exact => Weight(v) == Weight(req)
  }

  predicate SatisfiesRange(version: string, range: string) {
    var (op, rest) := SplitRange(range);
    match ParseSemver(version) case None => false case Some(v) =>
    match ParseSemver(rest) case None => false case Some(req) =>
    Satisfies(v, op, req)
  }

  // ---------- the federation package's checker ----------

  /** The pieces of a text between dots. */
  function SplitDots(s: string): (parts: seq<string>)
    ensures parts != []
  {
    if s == [] then [[]]
    else
      var rest := SplitDots(s[1..]);
      if s[0] == '.' then [[]] + rest else [[s[0]] + rest[0]] + rest[1..]
  }

  /** `Number(part)` of a plain number or an empty text; signs, exponents and hexadecimals are not covered. */
  function NumberOf(part: string): Option<nat> {
    if AllDigits(part) then Some(DigitsValue(part)) else None
  }

  function ParseVersion(s: string): Option<Version> {
    var parts := SplitDots(s);
    if |parts| < 3 then None
    else
      match NumberOf(parts[0]) case None => None case Some(major) =>
      match NumberOf(parts[1]) case None => None case Some(minor) =>
      match NumberOf(parts[2]) case None => None case Some(patch) =>
      Some(Version(major, minor, patch))
  }

  predicate Compatible(a: Version, op: Operator, r: Version)
    requires op != AtLeast
  {
    match op
    case Caret =>
      a.major == r.major &&
      if a.major == 0 then a.minor == r.minor && a.patch >= r.patch
      else a.minor >= r.minor && !(a.minor == r.minor && a.patch < r.patch)
    case Tilde => a.major == r.major && a.minor == r.minor && a.patch >= r.patch
    case Exact => a == r
  }

  predicate IsVersionCompatible(actual: string, required: string) {
    match ParseVersion(actual) case None => false case Some(a) =>
    var (op, rest) :=
      if required != [] && required[0] == '^' then (Caret, required[1..])
      else if required != [] && required[0] == '~' then (Tilde, required[1..])
      else (Exact, required);
    match ParseVersion(rest) case None => false case Some(r) =>
    Compatible(a, op, r)
  }

  // ---------- version precedence ----------

  /** Precedence of release versions (section 11 of Semantic Versioning 2.0.0): left to right, as numbers. */
  predicate Precedes(a: Version, b: Version) {
    a.major < b.major || (a.major == b.major && (a.minor < b.minor || (a.minor == b.minor && a.patch < b.patch)))
  }

  /** The weights of the encoding leave room for three digits. */
  predicate Small(v: Version) { v.minor <= 999 && v.patch <= 999 }

  lemma WeightOrder(a: Version, b: Version)
    requires Small(a) && Small(b)
    ensures Weight(a) < Weight(b) <==> Precedes(a, b)
    ensures Weight(a) == Weight(b) <==> a == b
  {
  }

  /** `>=` answers by precedence. */
  predicate Exactly(v: Version, req: Version) { Satisfies(v, AtLeast, req) <==> !Precedes(v, req) }

  /** Against all requirements `>=` is exact for hardly any version: a larger component of one may outweigh another. */
  lemma AtLeastIsAlwaysExactIff(v: Version)
    ensures (forall req :: Exactly(v, req)) <==> v.major == 0 && v.minor == 0 && v.patch <= 999
  {
    if v.major > 0 {
      assert !Exactly(v, Version(v.major - 1, v.minor + 1000, v.patch + 1));
    } else if v.minor > 0 {
      assert !Exactly(v, Version(0, v.minor - 1, v.patch + 1001));
    } else if v.patch > 999 {
      assert !Exactly(v, Version(0, 1, 0));
    }
  }

  /** The same for requirements: all versions are judged by precedence against hardly any of them. */
  lemma RequirementIsAlwaysExactIff(req: Version)
    ensures (forall v :: Exactly(v, req)) <==> req.major == 0 && req.minor == 0 && req.patch <= 1000
  {
    if req.major > 0 {
      assert !Exactly(Version(req.major - 1, req.minor + 1000, req.patch), req);
    } else if req.minor > 0 {
      assert !Exactly(Version(0, req.minor - 1, req.patch + 1000), req);
    } else if req.patch > 1000 {
      assert !Exactly(Version(0, 1, 0), req);
    }
  }

  /** `>=` is exact for a version, against every requirement of small components, just when its own are small. */
  lemma AtLeastIsExactIff(v: Version)
    ensures (forall req :: Small(req) ==> Exactly(v, req)) <==> Small(v)
  {
    if Small(v) {
      forall req | Small(req) ensures Exactly(v, req) { WeightOrder(v, req); }
    } else {
      var req := if v.minor < 999 then Version(v.major, v.minor + 1, 0) else Version(v.major + 1, 0, 0);
      assert Small(req) && !Exactly(v, req);
    }
  }

  /** On small components the two checkers agree on caret, tilde and exact ranges. */
  lemma CheckersAgree(v: Version, op: Operator, req: Version)
    requires Small(v) && Small(req) && op != AtLeast
    ensures Satisfies(v, op, req) == Compatible(v, op, req)
  {
    WeightOrder(v, req);
    WeightOrder(req, v);
  }

  /** A version on which they agree against all such ranges is one of small components, and the other way round. */
  lemma CheckersAgreeIff(v: Version)
    ensures (forall op, req :: Small(req) && op != AtLeast ==> Satisfies(v, op, req) == Compatible(v, op, req))
      <==> Small(v)
  {
    if Small(v) {
      forall op, req | Small(req) && op != AtLeast ensures Satisfies(v, op, req) == Compatible(v, op, req) {
        CheckersAgree(v, op, req);
      }
    } else {
      var req := SmallTwin(Weight(v));
      assert Satisfies(v, Exact, req) != Compatible(v, Exact, req) by { hide Weight; }
    }
  }

  lemma SmallTwin(w: nat) returns (v: Version)
    ensures Small(v) && Weight(v) == w
  {
    var thousands := w / 1000;
    v := Version(thousands / 1000, thousands % 1000, w % 1000);
    assert w == 1000 * thousands + w % 1000;
    assert thousands == 1000 * (thousands / 1000) + thousands % 1000;
  }

  /** The first version behind a caret or tilde range: the next minor, or under a caret from 1.0.0 on the next major. */
  function FirstBehind(caret: bool, req: Version): Version {
    if caret && req.major > 0 then Version(req.major + 1, 0, 0) else Version(req.major, req.minor + 1, 0)
  }

  /**
   Caret and tilde ranges hold the versions from their own up to the first behind them, by precedence. For the
   marketplace's caret from 1.0.0 on this takes small components.
   */
  lemma RangesAreIntervals(v: Version, caret: bool, req: Version)
    ensures var op := if caret then Caret else Tilde;
      && (Compatible(v, op, req) <==> !Precedes(v, req) && Precedes(v, FirstBehind(caret, req)))
      && (!caret || req.major == 0 || (Small(v) && Small(req)) ==> Satisfies(v, op, req) == Compatible(v, op, req))
    ensures Compatible(v, Exact, req) <==> !Precedes(v, req) && !Precedes(req, v)
  {
    if Small(v) && Small(req) { WeightOrder(v, req); }
  }

  // ---------- the same on texts ----------

  function PrintVersion(v: Version): string {
    PrintNat(v.major) + ("." + (PrintNat(v.minor) + ("." + PrintNat(v.patch))))
  }

  function PrintRange(op: Operator, v: Version): string {
    (match op case AtLeast => ">=" case Caret => "^" case Tilde => "~" case Exact => "") + PrintVersion(v)
  }

  lemma TakeNumberPrinted(n: nat, rest: string)
    requires rest != [] ==> !IsDigit(rest[0])
    ensures TakeNumber(PrintNat(n) + rest) == Some((n, rest))
  {
    DigitRunStops(PrintNat(n), rest);
    PrintNatValue(n);
    assert (PrintNat(n) + rest)[..|PrintNat(n)|] == PrintNat(n);
    assert (PrintNat(n) + rest)[|PrintNat(n)|..] == rest;
  }

  lemma TakeDotPrinted(rest: string)
    ensures TakeDot("." + rest) == Some(rest) && !IsDigit(("." + rest)[0])
  {
    assert ("." + rest)[1..] == rest;
  }

  lemma ParseSemverPrinted(v: Version)
    ensures ParseSemver(PrintVersion(v)) == Some(v)
  {
    hide TakeNumber, TakeDot, PrintNat, IsDigit;
    var t2 := PrintNat(v.patch);
    var t1 := PrintNat(v.minor) + ("." + t2);
    TakeDotPrinted(t2);
    TakeDotPrinted(t1);
    TakeNumberPrinted(v.major, "." + t1);
    TakeNumberPrinted(v.minor, "." + t2);
    TakeNumberPrinted(v.patch, []);
    assert t2 + [] == t2;
  }

  lemma {:induction false} SplitDotsPlain(s: string)
    requires forall i :: 0 <= i < |s| ==> s[i] != '.'
    ensures SplitDots(s) == [s]
  {
    if s != [] {
      SplitDotsPlain(s[1..]);
      assert s == [s[0]] + s[1..];
    }
  }

  lemma {:induction false} SplitDotsFirst(s: string, rest: string)
    requires forall i :: 0 <= i < |s| ==> s[i] != '.'
    ensures SplitDots(s + ("." + rest)) == [s] + SplitDots(rest)
  {
    if s == [] {
      assert s + ("." + rest) == "." + rest && ("." + rest)[1..] == rest;
    } else {
      SplitDotsFirst(s[1..], rest);
      assert (s + ("." + rest))[1..] == s[1..] + ("." + rest);
      assert s == [s[0]] + s[1..];
    }
  }

  lemma NumberOfPrinted(n: nat)
    ensures NumberOf(PrintNat(n)) == Some(n) && forall i :: 0 <= i < |PrintNat(n)| ==> PrintNat(n)[i] != '.'
  {
    PrintNatValue(n);
  }

  lemma ParseVersionPrinted(v: Version)
    ensures ParseVersion(PrintVersion(v)) == Some(v)
  {
    hide PrintNat, SplitDots, NumberOf;
    var (a, b, c) := (PrintNat(v.major), PrintNat(v.minor), PrintNat(v.patch));
    NumberOfPrinted(v.major);
    NumberOfPrinted(v.minor);
    NumberOfPrinted(v.patch);
    SplitDotsPlain(c);
    SplitDotsFirst(b, c);
    SplitDotsFirst(a, b + ("." + c));
    assert SplitDots(PrintVersion(v)) == [a, b, c];
  }

  ghost predicate IsNumeral(s: string, n: nat) { s != "" && AllDigits(s) && DigitsValue(s) == n }

  /** Three numerals with dots between them, and what follows, which does not prolong the last. */
  ghost predicate Numerals(s: string, v: Version, a: string, b: string, c: string, more: string) {
    && IsNumeral(a, v.major) && IsNumeral(b, v.minor) && IsNumeral(c, v.patch) && (more != "" ==> !IsDigit(more[0]))
    && s == a + ("." + (b + ("." + (c + more))))
  }

  lemma TakeNumeral(a: string, n: nat, more: string)
    requires IsNumeral(a, n) && (more != "" ==> !IsDigit(more[0]))
    ensures TakeNumber(a + more) == Some((n, more))
  {
    DigitRunStops(a, more);
    assert (a + more)[..|a|] == a && (a + more)[|a|..] == more;
  }

  lemma TakenNumeral(s: string)
    requires TakeNumber(s).Some?
    ensures var (n, more) := TakeNumber(s).value;
      IsNumeral(s[..DigitRun(s)], n) && s == s[..DigitRun(s)] + more && (more != "" ==> !IsDigit(more[0]))
  {
  }

  lemma TakenDot(s: string)
    requires TakeDot(s).Some?
    ensures s == "." + TakeDot(s).value
  {
  }

  /** The marketplace's reader wants three numerals in front, and ignores what follows. */
  lemma ParseSemverIff(s: string, v: Version)
    ensures ParseSemver(s) == Some(v) <==> exists a, b, c, more :: Numerals(s, v, a, b, c, more)
  {
    if ParseSemver(s) == Some(v) { SomeNumerals(s, v); }
    forall a, b, c, more | Numerals(s, v, a, b, c, more) ensures ParseSemver(s) == Some(v) {
      NumeralsTaken(s, v, a, b, c, more);
    }
  }

  lemma NumeralsTaken(s: string, v: Version, a: string, b: string, c: string, more: string)
    requires Numerals(s, v, a, b, c, more)
    ensures ParseSemver(s) == Some(v)
  {
    hide TakeNumber, TakeDot, IsNumeral;
    TakeNumeral(c, v.patch, more);
    TakeDotPrinted(c + more);
    TakeNumeral(b, v.minor, "." + (c + more));
    TakeDotPrinted(b + ("." + (c + more)));
    TakeNumeral(a, v.major, "." + (b + ("." + (c + more))));
  }

  lemma SomeNumerals(s: string, v: Version)
    requires ParseSemver(s) == Some(v)
    ensures exists a, b, c, more :: Numerals(s, v, a, b, c, more)
  {
    hide TakeNumber, TakeDot, IsNumeral, DigitRun;
    TakenNumeral(s);
    var s1 := TakeNumber(s).value.1;
    TakenDot(s1);
    var s2 := TakeDot(s1).value;
    TakenNumeral(s2);
    var s3 := TakeNumber(s2).value.1;
    TakenDot(s3);
    var s4 := TakeDot(s3).value;
    TakenNumeral(s4);
    assert Numerals(s, v, s[..DigitRun(s)], s2[..DigitRun(s2)], s4[..DigitRun(s4)], TakeNumber(s4).value.1);
  }

  ghost predicate NoDot(s: string) { forall i :: 0 <= i < |s| ==> s[i] != '.' }

  /** Three pieces and what follows a third dot, which does not matter. */
  ghost predicate InPieces(s: string, a: string, b: string, c: string, more: string) {
    NoDot(a) && NoDot(b) && NoDot(c) && (more != "" ==> more[0] == '.') && s == a + ("." + (b + ("." + (c + more))))
  }

  lemma SplitDotsPieces(s: string, a: string, b: string, c: string, more: string)
    requires InPieces(s, a, b, c, more)
    ensures var parts := SplitDots(s); |parts| >= 3 && parts[0] == a && parts[1] == b && parts[2] == c
  {
    hide SplitDots;
    SplitDotsFirst(a, b + ("." + (c + more)));
    SplitDotsFirst(b, c + more);
    if more == "" {
      assert c + more == c;
      SplitDotsPlain(c);
    } else {
      assert more == "." + more[1..];
      SplitDotsFirst(c, more[1..]);
    }
  }

  /** The first piece and what the others are the pieces of. */
  lemma FirstPiece(s: string) returns (a: string, rest: string)
    requires |SplitDots(s)| > 1
    ensures NoDot(a) && s == a + ("." + rest) && SplitDots(s) == [a] + SplitDots(rest)
  {
    if s[0] == '.' {
      a, rest := "", s[1..];
      assert s == "" + ("." + rest);
    } else {
      var tail;
      tail, rest := FirstPiece(s[1..]);
      a := [s[0]] + tail;
      assert s == [s[0]] + s[1..];
    }
  }

  lemma SomePieces(s: string) returns (a: string, b: string, c: string, more: string)
    requires |SplitDots(s)| >= 3
    ensures InPieces(s, a, b, c, more)
  {
    var rest, last;
    hide SplitDots;
    a, rest := FirstPiece(s);
    b, last := FirstPiece(rest);
    if |SplitDots(last)| > 1 {
      var others;
      c, others := FirstPiece(last);
      more := "." + others;
    } else {
      c, more := last, "";
      OnlyPiece(last);
      assert last + "" == last;
    }
  }

  lemma {:induction false} OnlyPiece(s: string)
    requires |SplitDots(s)| == 1
    ensures NoDot(s)
  {
    if s != [] { OnlyPiece(s[1..]); }
  }

  /** The federation's reader wants three pieces between dots, of digits or empty, and ignores those that follow. */
  lemma ParseVersionIff(s: string, v: Version)
    ensures ParseVersion(s) == Some(v) <==> exists a, b, c, more ::
      InPieces(s, a, b, c, more) && NumberOf(a) == Some(v.major) && NumberOf(b) == Some(v.minor)
        && NumberOf(c) == Some(v.patch)
  {
    hide SplitDots, NumberOf, InPieces;
    if |SplitDots(s)| >= 3 {
      var a, b, c, more := SomePieces(s);
      SplitDotsPieces(s, a, b, c, more);
    }
    forall a, b, c, more | InPieces(s, a, b, c, more)
      ensures |SplitDots(s)| >= 3 && SplitDots(s)[0] == a && SplitDots(s)[1] == b && SplitDots(s)[2] == c
    {
      SplitDotsPieces(s, a, b, c, more);
    }
  }

  lemma StartsWithDigit(v: Version)
    ensures PrintVersion(v) != [] && IsDigit(PrintVersion(v)[0])
  {
    assert PrintVersion(v)[0] == PrintNat(v.major)[0];
  }

  lemma SplitRangePrinted(op: Operator, v: Version)
    ensures SplitRange(PrintRange(op, v)) == (op, PrintVersion(v))
  {
    hide PrintVersion;
    var s := PrintVersion(v);
    StartsWithDigit(v);
    assert (">=" + s)[2..] == s && ("^" + s)[1..] == s && ("~" + s)[1..] == s && "" + s == s;
  }

  /** The other checker's view of a printed range. */
  lemma CompatibleRange(v: Version, op: Operator, req: Version)
    requires op != AtLeast
    ensures IsVersionCompatible(PrintVersion(v), PrintRange(op, req)) == Compatible(v, op, req)
  {
    hide PrintVersion, ParseVersion, Compatible;
    ParseVersionPrinted(v);
    ParseVersionPrinted(req);
    StartsWithDigit(req);
    var s := PrintVersion(req);
    assert ("^" + s)[1..] == s && ("~" + s)[1..] == s && "" + s == s;
  }

  /** For printed versions and ranges of small components both checkers give the same verdict. */
  lemma TextCheckersAgree(v: Version, op: Operator, req: Version)
    requires Small(v) && Small(req) && op != AtLeast
    ensures SatisfiesRange(PrintVersion(v), PrintRange(op, req))
        == IsVersionCompatible(PrintVersion(v), PrintRange(op, req))
  {
    CheckersAgree(v, op, req);
    hide PrintVersion, ParseSemver, ParseVersion, Satisfies, Compatible, SplitRange, IsVersionCompatible, PrintRange;
    ParseSemverPrinted(v);
    ParseSemverPrinted(req);
    SplitRangePrinted(op, req);
    CompatibleRange(v, op, req);
  }

  lemma SplitDotsHead(s: string)
    requires s != [] && s[0] == '>'
    ensures NumberOf(SplitDots(s)[0]) == None
  {
    assert SplitDots(s)[0] == [s[0]] + SplitDots(s[1..])[0];
    assert !IsDigit(SplitDots(s)[0][0]);
  }

  /** Only the marketplace knows `>=`: the other checker refuses every such range. */
  lemma AtLeastIsRefused(v: Version, req: Version)
    ensures !IsVersionCompatible(PrintVersion(v), PrintRange(AtLeast, req))
    ensures SatisfiesRange(PrintVersion(v), PrintRange(AtLeast, req)) == (Weight(v) >= Weight(req))
  {
    hide PrintVersion, ParseSemver, SplitRange, SplitDots, NumberOf, Weight;
    ParseSemverPrinted(v);
    ParseSemverPrinted(req);
    SplitRangePrinted(AtLeast, req);
    SplitDotsHead(PrintRange(AtLeast, req));
  }
}
