/** Exactly when a printed sample line is parsed back as it was. */
module PrometheusRoundTrip {
  import opened Options
  import opened Decimal
  import opened OrderedMap
  import opened PrometheusText
  import opened PrometheusLaws

  // ---------- the end of the line ----------

  /** The number pattern matches the whole text. */
  predicate IsNumberText(t: string) { t != "" && NumberLength(t) == |t| }

  lemma {:induction false} NumberCharRunSame(t: string, rest: string)
    requires rest != [] && !IsNumberChar(rest[0])
    ensures NumberCharRun(t + rest) == NumberCharRun(t)
  {
    if t == [] {
      assert t + rest == rest;
    } else {
      assert (t + rest)[1..] == t[1..] + rest;
      NumberCharRunSame(t[1..], rest);
    }
  }

  lemma NumberLengthSame(t: string, rest: string)
    requires t != "" && rest != [] && !IsNumberChar(rest[0])
    ensures NumberLength(t + rest) == NumberLength(t)
  {
    assert (t + rest)[0] == t[0];
    var sign := if t[0] == '+' || t[0] == '-' then 1 else 0;
    assert (t + rest)[sign..] == t[sign..] + rest;
    NumberCharRunSame(t[sign..], rest);
  }

  lemma {:induction false} NumberCharRunWhole(s: string)
    ensures NumberCharRun(s) == |s| <==> forall i :: 0 <= i < |s| ==> IsNumberChar(s[i])
  {
    if s != [] {
      NumberCharRunWhole(s[1..]);
      assert s == [s[0]] + s[1..];
    }
  }

  /** Digits, points and the letter of the exponent, with a sign only in front. */
  lemma NumberTextIff(t: string)
    requires t != ""
    ensures var sign := if t[0] == '+' || t[0] == '-' then 1 else 0;
      IsNumberText(t) <==> |t| > sign && forall i :: sign <= i < |t| ==> IsNumberChar(t[i])
  {
    var sign := if t[0] == '+' || t[0] == '-' then 1 else 0;
    NumberCharRunWhole(t[sign..]);
    assert forall i :: sign <= i < |t| ==> t[i] == t[sign..][i - sign];
    assert forall i :: 0 <= i < |t| - sign ==> t[sign..][i] == t[sign + i];
  }

  lemma WrongCharIsNone(t: string, i: nat)
    requires i < |t| && !IsNumberChar(t[i]) && (i > 0 || (t[0] != '+' && t[0] != '-'))
    ensures !IsNumberText(t)
  {
    hide IsNumberText, IsNumberChar;
    NumberTextIff(t);
  }

  /** A sign further in, as in the exponents JavaScript prints, is not matched. */
  lemma SignedExponentIsNone(whole: string, sign: char, power: string)
    requires whole != "" && (sign == '+' || sign == '-')
    ensures !IsNumberText(whole + ("e" + ([sign] + power)))
  {
    WrongCharIsNone(whole + ("e" + ([sign] + power)), |whole| + 1);
  }

  lemma WordsAreNone()
    ensures !IsNumberText("NaN") && !IsNumberText("Infinity") && !IsNumberText("-Infinity")
  {
    hide IsNumberText;
    WrongCharIsNone("NaN", 0);
    WrongCharIsNone("Infinity", 0);
    WrongCharIsNone("-Infinity", 1);
  }

  lemma PrintedIsNumberText(value: int)
    ensures IsNumberText(PrintInt(value))
  {
    hide PrintNat;
    var body := PrintNat(if value < 0 then -value else value);
    assert IsDigit(body[0]);
    assert value < 0 ==> forall i :: 1 <= i < |PrintInt(value)| ==> PrintInt(value)[i] == body[i - 1];
    NumberTextIff(PrintInt(value));
  }

  lemma ParseFloatPrinted(value: int)
    ensures ParseFloat(PrintInt(value)) == Number(value, 0)
  {
    hide PrintNat;
    var n := if value < 0 then -value else value;
    var body := PrintNat(n);
    DigitRunStops(body, "");
    assert body + "" == body && body[..|body|] == body && body[|body|..] == "";
    PrintNatValue(n);
    assert body[..|body|] + "" == body;
    if value < 0 {
      assert PrintInt(value)[1..] == body;
    } else {
      assert body[0] == PrintInt(value)[0] && IsDigit(body[0]);
    }
  }

  lemma DigitsThen(digits: string, rest: string)
    requires AllDigits(digits) && (rest != [] ==> !IsDigit(rest[0]))
    ensures var n := DigitRun(digits + rest); (digits + rest)[..n] == digits && (digits + rest)[n..] == rest
  {
    DigitRunStops(digits, rest);
  }

  lemma FractionReads(fraction: string, tail: string)
    requires AllDigits(fraction) && (tail != [] ==> !IsDigit(tail[0]))
    ensures Fraction("." + (fraction + tail)) == fraction && AfterFraction("." + (fraction + tail)) == tail
  {
    DigitsThen(fraction, tail);
    assert ("." + (fraction + tail))[1..] == fraction + tail;
  }

  lemma ExponentReads(power: string)
    requires AllDigits(power)
    ensures Exponent("e" + power) == DigitsValue(power)
  {
    DigitsThen(power, "");
    assert power + "" == power && ("e" + power)[1..] == power;
  }

  lemma StartsUnsigned(whole: string, rest: string)
    requires AllDigits(whole) && rest != [] && rest[0] == '.'
    ensures (whole + rest)[0] != '+' && (whole + rest)[0] != '-'
  {
    if whole != [] { assert (whole + rest)[0] == whole[0] && IsDigit(whole[0]); }
  }

  function Signed(negative: bool, body: string): string { if negative then "-" + body else body }

  /** Digits with a point and an exponent are read as the number they stand for. */
  lemma DecimalReads(negative: bool, whole: string, fraction: string, power: string)
    requires AllDigits(whole) && AllDigits(fraction) && AllDigits(power) && |whole| + |fraction| > 0
    ensures ParseFloat(Signed(negative, whole + ("." + (fraction + ("e" + power)))))
         == Number(if negative then -(DigitsValue(whole + fraction) as int)
             else DigitsValue(whole + fraction), DigitsValue(power) - |fraction|)
  {
    hide Fraction, AfterFraction, Exponent, DigitRun, DigitsValue, AllDigits;
    var tail := "e" + power;
    var rest := "." + (fraction + tail);
    DigitsThen(whole, rest);
    FractionReads(fraction, tail);
    ExponentReads(power);
    StartsUnsigned(whole, rest);
    var body := whole + rest;
    assert DigitRun(body) == |whole| by { DigitRunStops(whole, rest); }
    if negative { assert ("-" + body)[1..] == body; }
  }

  function Tail(number: string, timestamp: nat): string { " " + (number + (" " + PrintNat(timestamp))) }

  /** How a number prints: a text without blanks. */
  predicate IsPrinted(number: string) { number != "" && ' ' !in number }

  lemma TailPrinted(number: string, timestamp: nat)
    requires IsPrinted(number)
    ensures TailNumber(Tail(number, timestamp)) == if IsNumberText(number) then Some(number) else None
  {
    hide PrintNat;
    var stamp := " " + PrintNat(timestamp);
    NumberLengthSame(number, stamp);
    DigitRunStops(PrintNat(timestamp), "");
    assert PrintNat(timestamp) + "" == PrintNat(timestamp);
    hide NumberLength;
    var s := Tail(number, timestamp);
    assert s[1..] == number + stamp;
    var n := NumberLength(number);
    if n == |number| {
      assert s[1 + n..] == stamp && stamp[1..] == PrintNat(timestamp);
      assert s[1..1 + n] == number;
    } else {
      assert s[1 + n..][0] == number[n];
      assert number[n] in number;
    }
  }

  lemma {:induction false} NumberCharsOnly(s: string)
    ensures forall i :: 0 <= i < NumberCharRun(s) ==> IsNumberChar(s[i])
  {
    if s != [] && IsNumberChar(s[0]) {
      NumberCharsOnly(s[1..]);
      assert forall i :: 0 < i < 1 + NumberCharRun(s[1..]) ==> s[i] == s[1..][i - 1];
    }
  }

  lemma NumberPartHasNoQuote(t: string)
    ensures '"' !in t[..NumberLength(t)]
  {
    var sign := if t != [] && (t[0] == '+' || t[0] == '-') then 1 else 0;
    NumberCharsOnly(t[sign..]);
    assert forall i :: sign <= i < NumberLength(t) ==> t[i] == t[sign..][i - sign];
  }

  lemma DigitsHaveNoQuote(s: string)
    requires AllDigits(s)
    ensures '"' !in s
  {
  }

  /** Nothing that holds a quote can end a line. */
  lemma TailHasNoQuote(s: string)
    requires TailNumber(s).Some?
    ensures '"' !in s
  {
    var t := s[1..];
    var n := NumberLength(t);
    NumberPartHasNoQuote(t);
    var rest := s[1 + n..];
    hide NumberLength, NumberCharRun, DigitRun, AllDigits;
    if rest == [] {
      assert s == [s[0]] + t[..n];
    } else {
      var stamp := rest[1..];
      assert stamp[..DigitRun(stamp)] == stamp;
      DigitsHaveNoQuote(stamp);
      assert s == [s[0]] + (t[..n] + ([' '] + stamp));
    }
  }

  // ---------- the label block ----------

  lemma PairFacts(key: string, value: string)
    requires LegalName(key)
    ensures var p := Pair(key, value);
      && '\n' !in p && ('}' in p <==> '}' in value) && |p| >= 3 && p[|p| - 1] == '"'
  {
    LegalHasNo(key, '\n');
    LegalHasNo(key, '}');
    hide LegalName, Escape;
    EscapeFacts(value);
  }

  ghost predicate SomeValueHas(labels: Labels, i: nat, c: char)
    requires Valid(labels)
  {
    exists j :: i <= j < |labels.order| && c in labels.at[labels.order[j]]
  }

  lemma {:induction false} JoinedFacts(labels: Labels, i: nat)
    requires LegalKeys(labels) && i < |labels.order|
    ensures var s := Joined(labels, i);
      && '\n' !in s && |s| >= 3 && s[|s| - 1] == '"' && ('}' in s <==> SomeValueHas(labels, i, '}'))
    decreases |labels.order| - i
  {
    hide Pair, SomeValueHas;
    PairFacts(labels.order[i], labels.at[labels.order[i]]);
    SomeValueSplit(labels, i, '}');
    if i + 1 < |labels.order| {
      JoinedFacts(labels, i + 1);
      CommaFacts(PairAt(labels, i), Joined(labels, i + 1));
    }
  }

  lemma SomeValueSplit(labels: Labels, i: nat, c: char)
    requires Valid(labels) && i < |labels.order|
    ensures SomeValueHas(labels, i, c) <==> c in labels.at[labels.order[i]] || SomeValueHas(labels, i + 1, c)
    ensures i + 1 == |labels.order| ==> !SomeValueHas(labels, i + 1, c)
  {
    if SomeValueHas(labels, i, c) && c !in labels.at[labels.order[i]] {
      var j :| i <= j < |labels.order| && c in labels.at[labels.order[j]];
      assert j > i;
    }
  }

  lemma CommaFacts(p: string, s: string)
    requires s != []
    ensures var t := p + ("," + s);
      && t[|t| - 1] == s[|s| - 1] && ('\n' in t <==> '\n' in p || '\n' in s) && ('}' in t <==> '}' in p || '}' in s)
  {
  }

  lemma BlockWhole(joined: string, tail: string)
    requires '}' !in joined
    ensures var s := "{" + (joined + ("}" + tail));
      && BlockLength(s) == |joined| + 2 && s[..|joined| + 2] == "{" + (joined + "}") && s[|joined| + 2..] == tail
      && Inner(s[..|joined| + 2]) == joined
  {
    var s := "{" + (joined + ("}" + tail));
    assert s == ("{" + joined) + ("}" + tail);
    IndexOfStops("{" + joined, '}', "}" + tail);
    assert IndexOf("}" + tail, '}') == 0;
  }

  /** A closing brace inside a value ends the block early, and the rest of the line is no number. */
  lemma BlockCut(joined: string, tail: string)
    requires '}' in joined && joined[|joined| - 1] == '"'
    ensures var s := "{" + (joined + ("}" + tail)); TailNumber(s[BlockLength(s)..]) == None
  {
    var s := "{" + (joined + ("}" + tail));
    hide TailNumber, IndexOf;
    var k := IndexOf(joined, '}');
    var i :| 0 <= i < |joined| && joined[i] == '}';
    assert k <= i;
    assert s == ("{" + joined[..k]) + (joined[k..] + ("}" + tail));
    IndexOfStops("{" + joined[..k], '}', joined[k..] + ("}" + tail));
    assert (joined[k..] + ("}" + tail))[0] == '}';
    assert IndexOf(joined[k..] + ("}" + tail), '}') == 0;
    assert BlockLength(s) == k + 2;
    var rest := s[k + 2..];
    assert rest[|joined| - 2 - k] == '"';
    if TailNumber(rest).Some? { TailHasNoQuote(rest); }
  }

  // ---------- the pairs found in a block ----------

  lemma PairsFirst(key: string, q: string, rest: string)
    requires LegalName(key) && '"' !in q
    ensures Pairs(Raw(key, q) + rest) == [Raw(key, q)] + Pairs(rest)
  {
    PairMatches(key, q, rest);
    var s := Raw(key, q) + rest;
    assert s[..|Raw(key, q)|] == Raw(key, q) && s[|Raw(key, q)|..] == rest;
  }

  lemma PairsAfterComma(rest: string)
    ensures Pairs("," + rest) == Pairs(rest)
  {
    assert ("," + rest)[1..] == rest;
  }

  function PairTexts(labels: Labels, i: nat): seq<string>
    requires Valid(labels) && i <= |labels.order|
  {
    seq(|labels.order| - i, j requires 0 <= j < |labels.order| - i => PairAt(labels, i + j))
  }

  lemma {:induction false} PairsOfJoined(labels: Labels, i: nat)
    requires LegalKeys(labels) && i < |labels.order|
    requires !SomeValueHas(labels, i, '"')
    ensures Pairs(Joined(labels, i)) == PairTexts(labels, i)
    decreases |labels.order| - i
  {
    hide Pairs, Escape;
    var (key, value) := (labels.order[i], labels.at[labels.order[i]]);
    EscapeFacts(value);
    assert PairAt(labels, i) == Raw(key, Escape(value));
    hide Raw, Pair;
    if i + 1 == |labels.order| {
      PairsFirst(key, Escape(value), "");
      assert Raw(key, Escape(value)) + "" == Raw(key, Escape(value));
      assert Pairs("") == [] by { NoPairs(); }
    } else {
      PairsFirst(key, Escape(value), "," + Joined(labels, i + 1));
      PairsAfterComma(Joined(labels, i + 1));
      PairsOfJoined(labels, i + 1);
      assert PairTexts(labels, i) == [PairAt(labels, i)] + PairTexts(labels, i + 1);
    }
  }

  lemma NoPairs()
    ensures Pairs("") == []
  {
  }

  function EscapedLabels(labels: Labels): Labels { OMap(labels.order, map k | k in labels.at :: Escape(labels.at[k])) }

  lemma CollectOne(labels: Labels, n: nat)
    requires LegalKeys(labels) && "__proto__" !in labels.order && n < |labels.order|
    requires !SomeValueHas(labels, 0, '=')
    ensures var (key, text) := (labels.order[n], PairTexts(labels, 0)[n]);
      key in labels.at && key != "__proto__" && KeyOf(text) == key && ValueOf(text) == Escape(labels.at[key])
  {
    hide LegalName, Escape, KeyOf, ValueOf;
    var (key, value) := (labels.order[n], labels.at[labels.order[n]]);
    assert key in labels.order;
    assert PairTexts(labels, 0)[n] == Raw(key, Escape(value));
    EscapeFacts(value);
    ValueOfRaw(key, Escape(value));
  }

  /** The parser keeps every value as it was escaped. */
  lemma {:induction false} CollectsEscaped(labels: Labels, n: nat)
    requires LegalKeys(labels) && "__proto__" !in labels.order && n <= |labels.order|
    requires !SomeValueHas(labels, 0, '=')
    ensures Collected(PairTexts(labels, 0)[..n]) == Prefix(EscapedLabels(labels), n)
  {
    hide Prefix, Escape, LegalKeys, SomeValueHas, KeyOf, ValueOf, Put;
    var e := EscapedLabels(labels);
    assert Valid(labels) by { KeysAreValid(labels); }
    if n == 0 {
      PrefixAll(e);
    } else {
      CollectsEscaped(labels, n - 1);
      PrefixPut(e, n - 1);
      CollectOne(labels, n - 1);
      var texts := PairTexts(labels, 0);
      hide PairTexts;
      assert texts[..n][..n - 1] == texts[..n - 1];
    }
  }

  lemma KeysAreValid(labels: Labels)
    requires LegalKeys(labels)
    ensures Valid(labels)
  {
  }

  /** A match of the pair pattern on one line. */
  ghost predicate Shaped(p: string) {
    exists key, q :: LegalName(key) && '"' !in q && '\n' !in q && p == Raw(key, q)
  }

  lemma {:induction false} PairsShaped(s: string)
    requires '\n' !in s
    ensures forall p :: p in Pairs(s) ==> Shaped(p)
    decreases |s|
  {
    if s != [] {
      var n := PairLength(s);
      hide PairLength;
      if n == 0 {
        PairsShaped(s[1..]);
      } else {
        var key, q := PairShape(s);
        assert forall c :: c in q ==> c in Raw(key, q);
        assert forall c :: c in s[..n] ==> c in s;
        assert Shaped(s[..n]);
        PairsShaped(s[n..]);
      }
    }
  }

  ghost predicate Tame(v: string) { '"' !in v && '=' !in v && '\n' !in v }

  /** No value read from a line holds a quote, an `=` or a newline. */
  lemma {:induction false} CollectedTame(pairs: seq<string>)
    requires forall p :: p in pairs ==> Shaped(p)
    ensures forall k :: k in Collected(pairs).at ==> Tame(Collected(pairs).at[k])
  {
    if pairs != [] {
      var n := |pairs| - 1;
      CollectedTame(pairs[..n]);
      assert Shaped(pairs[n]);
      var key, q :| LegalName(key) && '"' !in q && '\n' !in q && pairs[n] == Raw(key, q);
      hide LegalName, Raw, KeyOf, ValueOf;
      ValueOfRaw(key, q);
      assert Tame(ValueOf(pairs[n]));
    }
  }

  // ---------- the line ----------

  lemma LineStart(name: string, rest: string)
    requires LegalName(name) && rest != [] && (rest[0] == '{' || rest[0] == ' ')
    ensures var line := name + rest;
      name != [] && line[0] != '#' && !AllBlank(line) && NameLength(line) == |name| && line[..|name|] == name
  {
    var line := name + rest;
    assert line[0] == name[0] && !IsBlank(line[0]);
    NameLengthStops(name, rest);
  }

  lemma ParseByParts(name: string, rest: string)
    requires LegalName(name) && rest != [] && (rest[0] == '{' || rest[0] == ' ')
    ensures ParseLine(name + rest)
         == match TailNumber(rest[BlockLength(rest)..])
            case None => None
            case Some(number) =>
              var n := BlockLength(rest);
              Some(Sample(
                name, if n > 2 then Collected(Pairs(Inner(rest[..n]))) else Empty(), ParseFloat(number)))
  {
    hide LegalName, NameLength, TailNumber, ParseFloat, Pairs, Collected, BlockLength, Inner, AllBlank;
    LineStart(name, rest);
    var line := name + rest;
    var n, b := |name|, BlockLength(rest);
    assert line[n..] == rest && line[n + b..] == rest[b..] && line[n..n + b] == rest[..b];
  }

  lemma LineSplits(name: string, labels: Labels, number: string, timestamp: nat)
    requires Valid(labels)
    ensures SampleText(name, labels, number, timestamp) == name + (FormatLabels(labels) + Tail(number, timestamp))
  {
    hide FormatLabels, PrintNat;
  }

  /** The label block and the labels found in it, for a line that is not refused. */
  lemma BlockOf(labels: Labels, tail: string)
    requires LegalKeys(labels) && !SomeValueHas(labels, 0, '}') && tail != [] && tail[0] == ' '
    ensures var s := FormatLabels(labels) + tail; var b := BlockLength(s);
      && s[b..] == tail && (s[0] == '{' || s[0] == ' ')
      && (labels.order == [] ==> b == 0) && (labels.order != [] ==> b > 2 && Inner(s[..b]) == Joined(labels, 0))
  {
    hide LegalName, Joined, Inner, SomeValueHas, IndexOf;
    if labels.order == [] {
      assert FormatLabels(labels) + tail == tail;
    } else {
      JoinedFacts(labels, 0);
      hide BlockLength;
      BlockWhole(Joined(labels, 0), tail);
      assert FormatLabels(labels) + tail == "{" + (Joined(labels, 0) + ("}" + tail));
    }
  }

  /** When no value holds a closing brace and the number is matched, the line parses, to the pairs in the braces. */
  lemma LineParses(name: string, labels: Labels, number: string, timestamp: nat)
    requires LegalName(name) && LegalKeys(labels) && !SomeValueHas(labels, 0, '}') && IsPrinted(number)
    ensures ParseLine(SampleText(name, labels, number, timestamp))
         == if !IsNumberText(number) then None
            else Some(Sample(
                   name, Collected(Pairs(if labels.order == [] then "" else Joined(labels, 0))), ParseFloat(number)))
  {
    hide SampleText, IsNumberText, LegalName, TailNumber, ParseFloat, Pairs, Collected, ParseLine, Joined;
    hide PrintNat, Inner, SomeValueHas, BlockLength, FormatLabels;
    var tail := Tail(number, timestamp);
    assert tail[0] == ' ';
    hide Tail;
    TailPrinted(number, timestamp);
    LineSplits(name, labels, number, timestamp);
    BlockOf(labels, tail);
    ParseByParts(name, FormatLabels(labels) + tail);
    NoPairs();
    NothingCollected();
  }

  lemma NothingCollected()
    ensures Collected([]) == Empty()
  {
  }

  lemma LineRefused(name: string, labels: Labels, number: string, timestamp: nat)
    requires LegalName(name) && LegalKeys(labels) && SomeValueHas(labels, 0, '}')
    ensures ParseLine(SampleText(name, labels, number, timestamp)) == None
  {
    hide SampleText, Tail, LegalName, NameLength, TailNumber, ParseFloat, Pairs, Collected, ParseLine, Joined;
    hide BlockLength, Inner;
    var tail := Tail(number, timestamp);
    LineSplits(name, labels, number, timestamp);
    ParseByParts(name, FormatLabels(labels) + tail);
    JoinedFacts(labels, 0);
    BlockCut(Joined(labels, 0), tail);
    assert FormatLabels(labels) + tail == "{" + (Joined(labels, 0) + ("}" + tail));
  }

  // ---------- what any line can parse to ----------

  lemma {:induction false} PairsKeyed(s: string)
    ensures forall p :: p in Pairs(s) ==> LegalName(KeyOf(p))
    decreases |s|
  {
    if s != [] {
      var n := PairLength(s);
      hide PairLength, LegalName, KeyOf;
      if n == 0 {
        PairsKeyed(s[1..]);
      } else {
        var key, q := PairShape(s);
        ValueOfRaw(key, q);
        PairsKeyed(s[n..]);
      }
    }
  }

  lemma AssignLegal(labels: Labels, key: string, value: string)
    requires LegalKeys(labels) && "__proto__" !in labels.order && LegalName(key)
    ensures LegalKeys(Assign(labels, key, value)) && "__proto__" !in Assign(labels, key, value).order
  {
    hide LegalName;
    PutValid(labels, key, value);
  }

  lemma {:induction false} CollectedLegal(pairs: seq<string>)
    requires forall p :: p in pairs ==> LegalName(KeyOf(p))
    ensures LegalKeys(Collected(pairs)) && "__proto__" !in Collected(pairs).order
  {
    if pairs != [] {
      hide LegalName, LegalKeys, KeyOf, ValueOf, Assign;
      var (n, last) := (|pairs| - 1, pairs[|pairs| - 1]);
      assert forall p :: p in pairs[..n] ==> p in pairs;
      CollectedLegal(pairs[..n]);
      assert last in pairs;
      AssignLegal(Collected(pairs[..n]), KeyOf(last), ValueOf(last));
    }
  }

  lemma NamePart(line: string)
    requires NameLength(line) > 0
    ensures LegalName(line[..NameLength(line)])
  {
  }

  /** Whatever parses has legal names, and never the label `__proto__`. */
  lemma ParsedIsLegal(line: string)
    requires ParseLine(line).Some?
    ensures var sample := ParseLine(line).value;
      LegalName(sample.name) && LegalKeys(sample.labels) && "__proto__" !in sample.labels.order
  {
    hide LegalName, NameLength, TailNumber, ParseFloat, Pairs, Collected, BlockLength, Inner, AllBlank, LegalKeys;
    var name := NameLength(line);
    NamePart(line);
    var block := BlockLength(line[name..]);
    var inner := Inner(line[name..name + block]);
    PairsKeyed(inner);
    CollectedLegal(Pairs(inner));
    CollectedLegal([]);
    NothingCollected();
  }

  // ---------- the round trip ----------

  /** Free of the three characters that are escaped, and of `=` and `}`. */
  ghost predicate Clean(v: string) { Plain(v) && '=' !in v && '}' !in v }

  lemma CleanComesBack(labels: Labels)
    requires LegalKeys(labels) && "__proto__" !in labels.order && labels.order != []
    requires forall k :: k in labels.at ==> Clean(labels.at[k])
    ensures Collected(Pairs(Joined(labels, 0))) == labels
  {
    hide Joined, Pairs, Collected, Escape, LegalName;
    PairsOfJoined(labels, 0);
    CollectsEscaped(labels, |labels.order|);
    var texts := PairTexts(labels, 0);
    assert texts[..|labels.order|] == texts;
    PrefixAll(EscapedLabels(labels));
    forall k | k in labels.at ensures Escape(labels.at[k]) == labels.at[k] { EscapeFacts(labels.at[k]); }
    assert EscapedLabels(labels).at == labels.at;
  }

  lemma DirtyDoesNot(labels: Labels, k: string)
    requires LegalKeys(labels) && "__proto__" !in labels.order
    requires k in labels.at && !Clean(labels.at[k]) && !SomeValueHas(labels, 0, '}')
    ensures Collected(Pairs(Joined(labels, 0))) != labels
  {
    hide Joined, Pairs, Collected, Escape, LegalName, Prefix;
    JoinedFacts(labels, 0);
    var found := Collected(Pairs(Joined(labels, 0)));
    PairsShaped(Joined(labels, 0));
    CollectedTame(Pairs(Joined(labels, 0)));
    if found == labels {
      assert forall j :: 0 <= j < |labels.order| ==> Tame(found.at[labels.order[j]]);
      PairsOfJoined(labels, 0);
      CollectsEscaped(labels, |labels.order|);
      var texts := PairTexts(labels, 0);
      assert texts[..|labels.order|] == texts;
      PrefixAll(EscapedLabels(labels));
      EscapeFacts(labels.at[k]);
    }
  }

  /** Label names are legal, none is `__proto__`, and the values are free of the characters that do not come back. */
  ghost predicate ComesBack(labels: Labels)
    requires Valid(labels)
  {
    LegalKeys(labels) && "__proto__" !in labels.order && forall k :: k in labels.at ==> Clean(labels.at[k])
  }

  lemma LegalRoundTrip(name: string, labels: Labels, number: string, timestamp: nat)
    requires LegalName(name) && LegalKeys(labels) && "__proto__" !in labels.order && IsPrinted(number)
    ensures ParseLine(SampleText(name, labels, number, timestamp)) == Some(Sample(name, labels, ParseFloat(number)))
      <==> IsNumberText(number) && forall k :: k in labels.at ==> Clean(labels.at[k])
  {
    hide ParseLine, SampleText, LegalName, Clean, Collected, Pairs, Joined, ParseFloat, IsNumberText;
    if SomeValueHas(labels, 0, '}') {
      LineRefused(name, labels, number, timestamp);
      var j :| 0 <= j < |labels.order| && '}' in labels.at[labels.order[j]];
      assert !Clean(labels.at[labels.order[j]]) by { BraceIsNotClean(labels.at[labels.order[j]]); }
      assert labels.order[j] in labels.at;
    } else {
      LineParses(name, labels, number, timestamp);
      if labels.order == [] {
        NoPairs();
        NothingCollected();
        assert labels == Empty();
      } else if forall k :: k in labels.at ==> Clean(labels.at[k]) {
        CleanComesBack(labels);
      } else {
        var k :| k in labels.at && !Clean(labels.at[k]);
        DirtyDoesNot(labels, k);
      }
    }
  }

  /**
   A printed sample line is parsed back as it was exactly when the name and all label names are legal, no label is
   called `__proto__`, every label value is free of quotes, backslashes, newlines, `=` and `}`, and the number pattern
   matches the printed number.
   */
  lemma RoundTripIff(name: string, labels: Labels, number: string, timestamp: nat)
    requires Valid(labels) && IsPrinted(number)
    ensures ParseLine(SampleText(name, labels, number, timestamp)) == Some(Sample(name, labels, ParseFloat(number)))
      <==> LegalName(name) && ComesBack(labels) && IsNumberText(number)
  {
    hide ParseLine, SampleText, LegalName, LegalKeys, Clean, ParseFloat, IsNumberText, IsPrinted, Valid;
    var line := SampleText(name, labels, number, timestamp);
    if ParseLine(line) == Some(Sample(name, labels, ParseFloat(number))) {
      ParsedIsLegal(line);
    }
    if LegalName(name) && LegalKeys(labels) && "__proto__" !in labels.order {
      LegalRoundTrip(name, labels, number, timestamp);
    }
  }

  /** For integers, which print in plain digits, the number is always matched and read as it is. */
  lemma IntegerRoundTripIff(name: string, labels: Labels, value: int, timestamp: nat)
    requires Valid(labels)
    ensures ParseLine(SampleLine(name, labels, value, timestamp)) == Some(Sample(name, labels, Number(value, 0)))
      <==> LegalName(name) && ComesBack(labels)
  {
    hide ParseLine, SampleText, LegalName, ComesBack, ParseFloat, IsNumberText, Valid;
    PrintedIsNumberText(value);
    ParseFloatPrinted(value);
    PrintIntHasNoBlank(value);
    RoundTripIff(name, labels, PrintInt(value), timestamp);
  }

  lemma PrintIntHasNoBlank(value: int)
    ensures IsPrinted(PrintInt(value))
  {
    hide PrintNat;
    var body := PrintNat(if value < 0 then -value else value);
    assert forall i :: 0 <= i < |body| ==> IsDigit(body[i]);
  }

  lemma BraceIsNotClean(v: string)
    requires '}' in v
    ensures !Clean(v)
  {
  }
}
