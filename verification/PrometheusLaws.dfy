/** What printed labels mean to a reader of the format, and exactly when the repository's own parser reads them back. */
module PrometheusLaws {
  import opened Options
  import opened Lists
  import opened OrderedMap
  import opened PrometheusText

  ghost predicate LegalKeys(labels: Labels) {
    Valid(labels) && forall i :: 0 <= i < |labels.order| ==> LegalName(labels.order[i])
  }

  // ---------- a reader of the text format ----------

  /** The value up to its closing quote with the three escapes undone, and the text after the quote. */
  function ReadValue(s: string): Option<(string, string)> {
    if s == [] || s[0] == '\n' then None
    else if s[0] == '"' then Some(("", s[1..]))
    else if s[0] == '\\' then
      if |s| < 2 || (s[1] != '\\' && s[1] != '"' && s[1] != 'n') then None
      else match ReadValue(s[2..])
           case None => None
           case Some((value, rest)) => Some(([if s[1] == 'n' then '\n' else s[1]] + value, rest))
    else match ReadValue(s[1..])
         case None => None
         case Some((value, rest)) => Some(([s[0]] + value, rest))
  }

  /** The pairs up to the closing brace, put into an object on top of those read so far. */
  function ReadPairs(s: string, read: Labels): Option<(Labels, string)>
    decreases |s|
  {
    var n := NameLength(s);
    if n == 0 || |s| < n + 2 || s[n..n + 2] != "=\"" then None
    else match ReadValue(s[n + 2..])
         case None => None
         case Some((value, rest)) =>
           var read' := Put(read, s[..n], value);
           if rest != [] && rest[0] == '}' then Some((read', rest[1..]))
           else if rest != [] && rest[0] == ',' && |rest| < |s| then ReadPairs(rest[1..], read')
           else None
  }

  function ReadLabels(s: string): Option<(Labels, string)> {
    if s != [] && s[0] == '{' then ReadPairs(s[1..], Empty()) else Some((Empty(), s))
  }

  lemma ReadEscaped(c: char, t: string)
    requires ReadValue(t).Some?
    ensures ReadValue(Escaped(c) + t) == Some(([c] + ReadValue(t).value.0, ReadValue(t).value.1))
  {
    var s := Escaped(c) + t;
    assert s[|Escaped(c)|..] == t;
  }

  lemma {:induction false} EscapedReadsBack(value: string, rest: string)
    ensures ReadValue(EscapeOnce(value) + ("\"" + rest)) == Some((value, rest))
  {
    var tail := "\"" + rest;
    if value == [] {
      assert EscapeOnce(value) + tail == tail && tail[1..] == rest;
    } else {
      hide ReadValue, Escaped;
      EscapedReadsBack(value[1..], rest);
      ReadEscaped(value[0], EscapeOnce(value[1..]) + tail);
      ConcatAssoc(Escaped(value[0]), EscapeOnce(value[1..]), tail);
      assert value == [value[0]] + value[1..];
    }
  }

  lemma {:induction false} NameCharRunStops(name: string, rest: string)
    requires (forall i :: 0 <= i < |name| ==> IsNameChar(name[i])) && (rest != [] ==> !IsNameChar(rest[0]))
    ensures NameCharRun(name + rest) == |name|
  {
    if name == [] {
      assert name + rest == rest;
    } else {
      assert (name + rest)[1..] == name[1..] + rest;
      NameCharRunStops(name[1..], rest);
    }
  }

  lemma NameLengthStops(name: string, rest: string)
    requires LegalName(name) && (rest != [] ==> !IsNameChar(rest[0]))
    ensures NameLength(name + rest) == |name| && (name + rest)[..|name|] == name && (name + rest)[|name|..] == rest
  {
    NameCharRunStops(name, rest);
  }

  lemma PairSplits(key: string, q: string, rest: string)
    ensures (key + ("=\"" + (q + "\""))) + rest == key + ("=\"" + (q + ("\"" + rest)))
  {
  }

  lemma ReadOnePair(key: string, value: string, rest: string, read: Labels)
    requires LegalName(key) && rest != []
    ensures var s := Pair(key, value) + rest;
      var read' := Put(read, key, value);
      && (rest[0] == '}' ==> ReadPairs(s, read) == Some((read', rest[1..])))
      && (rest[0] == ',' ==> ReadPairs(s, read) == ReadPairs(rest[1..], read'))
  {
    hide ReadValue, Escape, EscapeOnce;
    EscapeIsOnePass(value);
    var s := Pair(key, value) + rest;
    var after := "=\"" + (Escape(value) + ("\"" + rest));
    PairSplits(key, Escape(value), rest);
    NameLengthStops(key, after);
    assert after[..2] == "=\"" && after[2..] == Escape(value) + ("\"" + rest);
    var n := |key|;
    assert s[n..n + 2] == after[..2] && s[n + 2..] == after[2..];
    EscapedReadsBack(value, rest);
  }

  /** The first n labels. */
  function Prefix(labels: Labels, n: nat): Labels
    requires Valid(labels) && n <= |labels.order|
  {
    OMap(labels.order[..n], map k | k in labels.order[..n] :: labels.at[k])
  }

  lemma PrefixPut(labels: Labels, n: nat)
    requires Valid(labels) && n < |labels.order|
    ensures Put(Prefix(labels, n), labels.order[n], labels.at[labels.order[n]]) == Prefix(labels, n + 1)
  {
    var k := labels.order[n];
    assert labels.order[..n + 1] == labels.order[..n] + [k];
    assert Prefix(labels, n).at[k := labels.at[k]] == Prefix(labels, n + 1).at;
  }

  lemma PrefixAll(labels: Labels)
    requires Valid(labels)
    ensures Prefix(labels, |labels.order|) == labels && Prefix(labels, 0) == Empty()
  {
    assert labels.order[..|labels.order|] == labels.order;
    assert Prefix(labels, |labels.order|).at == labels.at;
  }

  lemma {:induction false} JoinedReadsBack(labels: Labels, i: nat, rest: string)
    requires LegalKeys(labels) && i < |labels.order|
    ensures ReadPairs(Joined(labels, i) + ("}" + rest), Prefix(labels, i)) == Some((labels, rest))
    decreases |labels.order| - i
  {
    hide ReadPairs, Prefix, Pair;
    var (key, value) := (labels.order[i], labels.at[labels.order[i]]);
    var tail := "}" + rest;
    PrefixPut(labels, i);
    assert tail[1..] == rest;
    if i + 1 == |labels.order| {
      ReadOnePair(key, value, tail, Prefix(labels, i));
      PrefixAll(labels);
    } else {
      var more := "," + (Joined(labels, i + 1) + tail);
      assert Joined(labels, i) + tail == Pair(key, value) + more;
      assert more[1..] == Joined(labels, i + 1) + tail;
      ReadOnePair(key, value, more, Prefix(labels, i));
      JoinedReadsBack(labels, i + 1, rest);
    }
  }

  /** Whatever the label values hold, a reader of the format gets them all back, and the text after them. */
  lemma FormatReadsBack(labels: Labels, rest: string)
    requires LegalKeys(labels) && (rest != [] ==> rest[0] != '{')
    ensures ReadLabels(FormatLabels(labels) + rest) == Some((labels, rest))
  {
    hide ReadPairs, Joined;
    PrefixAll(labels);
    if labels.order == [] {
      assert labels == Empty();
      assert FormatLabels(labels) + rest == rest;
    } else {
      var s := FormatLabels(labels) + rest;
      assert s[1..] == Joined(labels, 0) + ("}" + rest);
      JoinedReadsBack(labels, 0, rest);
    }
  }

  // ---------- escaped texts ----------

  predicate Special(c: char) { c == '\\' || c == '"' || c == '\n' }

  lemma EscapedFacts(c: char)
    ensures '\n' !in Escaped(c) && ('"' in Escaped(c) <==> c == '"')
    ensures ('=' in Escaped(c) <==> c == '=') && ('}' in Escaped(c) <==> c == '}')
    ensures if Special(c) then |Escaped(c)| == 2 else Escaped(c) == [c]
  {
    assert "\\\\" == ['\\', '\\'] && "\\\"" == ['\\', '"'] && "\\n" == ['\\', 'n'];
  }

  ghost predicate Plain(v: string) { '\\' !in v && '"' !in v && '\n' !in v }

  lemma {:induction false} EscapeFacts(v: string)
    ensures '\n' !in Escape(v) && ('"' in Escape(v) <==> '"' in v)
    ensures ('=' in Escape(v) <==> '=' in v) && ('}' in Escape(v) <==> '}' in v)
    ensures |v| <= |Escape(v)|
    ensures Plain(v) ==> Escape(v) == v
    ensures !Plain(v) ==> |v| < |Escape(v)|
  {
    EscapeIsOnePass(v);
    hide Escape;
    if v != [] {
      EscapeFacts(v[1..]);
      EscapeIsOnePass(v[1..]);
      EscapedFacts(v[0]);
      assert v == [v[0]] + v[1..];
      assert EscapeOnce(v) == Escaped(v[0]) + EscapeOnce(v[1..]);
      hide EscapeOnce, Escaped;
    }
  }

  lemma {:induction false} IndexOfStops(s: string, c: char, rest: string)
    requires c !in s
    ensures IndexOf(s + rest, c) == |s| + IndexOf(rest, c)
  {
    if s == [] {
      assert s + rest == rest;
    } else {
      assert (s + rest)[1..] == s[1..] + rest;
      IndexOfStops(s[1..], c, rest);
    }
  }

  // ---------- the pair pattern ----------

  function Raw(key: string, q: string): string { key + ("=\"" + (q + "\"")) }

  lemma LegalHasNo(key: string, c: char)
    requires LegalName(key) && !IsNameChar(c)
    ensures c !in key
  {
    if c in key { assert false; }
  }

  /** A legal name and a text without quotes are matched whole, wherever they are followed by more. */
  lemma PairMatches(key: string, q: string, rest: string)
    requires LegalName(key) && '"' !in q
    ensures PairLength(Raw(key, q) + rest) == |Raw(key, q)|
  {
    assert key != [];
    assert IndexOf("\"" + rest, '"') == 0;
    hide LegalName;
    var after := "=\"" + (q + ("\"" + rest));
    var s := Raw(key, q) + rest;
    PairSplits(key, q, rest);
    NameLengthStops(key, after);
    IndexOfStops(q, '"', "\"" + rest);
    var name := |key|;
    assert s[name..] == after;
    assert s[name] == after[0] && s[name + 1] == after[1];
    assert s[name + 2..] == after[2..] == q + ("\"" + rest);
  }

  /** Every match has that shape. */
  lemma PairShape(s: string) returns (key: string, q: string)
    requires PairLength(s) > 0
    ensures LegalName(key) && '"' !in q && s[..PairLength(s)] == Raw(key, q)
  {
    var name := NameLength(s);
    var close := IndexOf(s[name + 2..], '"');
    key, q := s[..name], s[name + 2..][..close];
    assert s[..PairLength(s)] == Raw(key, q);
  }

  lemma FirstAssign(key: string, q: string)
    requires LegalName(key)
    ensures var p := Raw(key, q);
      IndexOf(p, '=') == |key| && p[..|key|] == key && p[|key| + 1..] == "\"" + (q + "\"")
  {
    LegalHasNo(key, '=');
    hide LegalName;
    var after := "=\"" + (q + "\"");
    assert after[1..] == "\"" + (q + "\"") && IndexOf(after, '=') == 0;
    hide IndexOf;
    IndexOfStops(key, '=', after);
  }

  lemma QuotedWhole(q: string)
    requires '=' !in q
    ensures var rest := "\"" + (q + "\""); Inner(rest[..IndexOf(rest, '=')]) == q
  {
    hide IndexOf;
    var rest := "\"" + (q + "\"");
    IndexOfStops(rest, '=', "");
    assert rest + "" == rest;
  }

  /** The quoted value is cut at the first `=` it holds, and the last character before it is lost as well. */
  lemma QuotedCut(q: string)
    requires '=' in q
    ensures var rest := "\"" + (q + "\"");
      Inner(rest[..IndexOf(rest, '=')]) == if IndexOf(q, '=') == 0 then "" else q[..IndexOf(q, '=') - 1]
  {
    hide IndexOf;
    var cut := IndexOf(q, '=');
    assert cut < |q|;
    var before := "\"" + q[..cut];
    var after := q[cut..] + "\"";
    assert "\"" + (q + "\"") == before + after;
    assert after[0] == '=';
    IndexOfStops(before, '=', after);
    assert (before + after)[..cut + 1] == before;
  }

  lemma ValueOfRaw(key: string, q: string)
    requires LegalName(key)
    ensures KeyOf(Raw(key, q)) == key
    ensures '=' !in q ==> ValueOf(Raw(key, q)) == q
    ensures '=' !in ValueOf(Raw(key, q)) && forall c :: c in ValueOf(Raw(key, q)) ==> c in q
  {
    FirstAssign(key, q);
    hide IndexOf, LegalName, Raw;
    if '=' in q { QuotedCut(q); } else { QuotedWhole(q); }
  }
}
