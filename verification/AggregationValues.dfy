/**
 What tests, expressions and aggregates do with single values, told from how a value reads as a number and prints as
 a text.
 */
module AggregationValues {
  import opened Options
  import opened Lists
  import opened Aggregation
  import opened AggregationLaws
  import opened AggregationSort

  // ---------- values ----------

  /** Null reads as zero, texts and lists as their text does; a missing value and NaN read as no number. */
  ghost predicate Reads(co: Coercions, v: Value, x: real) {
    || v == Num(x)
    || (v.Null? && x == 0.0)
    || exists s :: PrintsAs(co, v, s) && co.num(s) == Some(x)
  }

  ghost predicate PrintsAs(co: Coercions, v: Value, s: string) { v == Str(s) || (v.Arr? && s == co.text(v)) }

  ghost predicate NoNumber(co: Coercions, v: Value) { forall x: real :: !Reads(co, v, x) }

  /** Two texts compare as texts, anything else as numbers. */
  ghost predicate Under(co: Coercions, v: Value, w: Value) {
    || (exists s, t :: PrintsAs(co, v, s) && PrintsAs(co, w, t) && TextBefore(s, t))
    || (OneIsNoText(v, w) && exists x, y :: Reads(co, v, x) && Reads(co, w, y) && x < y)
  }

  ghost predicate Level(co: Coercions, v: Value, w: Value) {
    || (exists s :: PrintsAs(co, v, s) && PrintsAs(co, w, s))
    || (OneIsNoText(v, w) && exists x :: Reads(co, v, x) && Reads(co, w, x))
  }

  ghost predicate OneIsNoText(v: Value, w: Value) { !(v.Str? || v.Arr?) || !(w.Str? || w.Arr?) }

  /** Equal values of one kind; NaN equals nothing, and a list of a stage is no list of a record. */
  ghost predicate Identical(v: Value, w: Value) {
    match v
    case Undefined => w == Undefined
    case Null => w == Null
    case Num(x) => w == Num(x)
    case Str(s) => w == Str(s)
    case _ => false
  }

  lemma ReadIsToNum(co: Coercions, v: Value, x: real)
    ensures Reads(co, v, x) <==> ToNum(co, v) == Some(x)
  {
    if v.Str? { assert PrintsAs(co, v, v.s); }
    if v.Arr? { assert PrintsAs(co, v, co.text(v)); }
  }

  lemma ReadsOnce(co: Coercions, v: Value)
    ensures NoNumber(co, v) <==> ToNum(co, v).None?
    ensures ToNum(co, v).Some? ==> Reads(co, v, ToNum(co, v).value)
    ensures forall x: real :: Reads(co, v, x) ==> ToNum(co, v) == Some(x)
  {
    hide Reads, ToNum;
    forall x: real ensures Reads(co, v, x) <==> ToNum(co, v) == Some(x) { ReadIsToNum(co, v, x); }
    if ToNum(co, v).Some? { assert Reads(co, v, ToNum(co, v).value); }
  }

  // ---------- tests ----------

  lemma TextsCompare(co: Coercions, v: Value, w: Value)
    requires !OneIsNoText(v, w)
    ensures Less(co, v, w) <==> Under(co, v, w)
    ensures LessEq(co, v, w) <==> Under(co, v, w) || Level(co, v, w)
  {
    var (s, t) := (AsText(co, v), AsText(co, w));
    assert PrintsAs(co, v, s) && PrintsAs(co, w, t);
    assert forall u :: (PrintsAs(co, v, u) ==> u == s) && (PrintsAs(co, w, u) ==> u == t);
    TextOrder(s, t);
    TextOrder(t, s);
    StrLessOrder(s, t, s);
    hide StrLess, TextBefore, PrintsAs, AsText, Reads;
  }

  lemma NumbersCompare(co: Coercions, v: Value, w: Value)
    requires OneIsNoText(v, w)
    ensures Less(co, v, w) <==> Under(co, v, w)
    ensures LessEq(co, v, w) <==> Under(co, v, w) || Level(co, v, w)
  {
    ReadsOnce(co, v);
    ReadsOnce(co, w);
    assert forall s, t :: !(PrintsAs(co, v, s) && PrintsAs(co, w, t));
    hide Reads, ToNum, PrintsAs, AsText, NoNumber;
  }

  /** What each test of a match asks of a value. */
  lemma TestMeaning(co: Coercions, v: Value, w: Value)
    ensures Passes(co, v, Lt(w)) <==> Under(co, v, w)
    ensures Passes(co, v, Gt(w)) <==> Under(co, w, v)
    ensures Passes(co, v, Lte(w)) <==> Under(co, v, w) || Level(co, v, w)
    ensures Passes(co, v, Gte(w)) <==> Under(co, w, v) || Level(co, v, w)
    ensures Meets(co, v, Is(w)) <==> Identical(v, w)
    ensures Passes(co, v, Ne(w)) <==> !Identical(v, w)
    ensures !Passes(co, v, Unknown)
  {
    hide Less, LessEq, Under, Level;
    if OneIsNoText(v, w) {
      NumbersCompare(co, v, w);
      NumbersCompare(co, w, v);
    } else {
      TextsCompare(co, v, w);
      TextsCompare(co, w, v);
    }
    LevelSwaps(co, v, w);
  }

  lemma LevelSwaps(co: Coercions, v: Value, w: Value)
    ensures Level(co, v, w) == Level(co, w, v)
  {
  }

  /** A list of values is asked for one that is the same; here, unlike with a single value, NaN finds itself. */
  lemma InMeaning(co: Coercions, v: Value, ws: seq<Value>)
    ensures Passes(co, v, In(ws)) <==> exists i :: 0 <= i < |ws| && (Identical(v, ws[i]) || (v.NaN? && ws[i].NaN?))
  {
  }

  /** A field a row does not have is not null and compares with nothing; one it has is the value it holds. */
  lemma MissingField(co: Coercions, r: Row, f: string, w: Value)
    ensures f !in r ==>
      && !Meets(co, Field(r, f), Is(Null)) && Passes(co, Field(r, f), Ne(Null))
      && !Passes(co, Field(r, f), Lt(w)) && !Passes(co, Field(r, f), Gt(w))
      && !Passes(co, Field(r, f), Lte(w)) && !Passes(co, Field(r, f), Gte(w))
    ensures f in r ==> (Meets(co, Field(r, f), Is(w)) <==> Identical(r[f], w))
  {
    hide StrLess;
  }

  /** A match on two lists of conditions is a match on one of them, and then on the other. */
  lemma {:induction false} MatchTwice(co: Coercions, a: MatchBody, b: MatchBody, data: seq<Row>)
    ensures ApplyMatch(co, a + b, data) == ApplyMatch(co, b, ApplyMatch(co, a, data))
  {
    if data != [] {
      MatchTwice(co, a, b, data[1..]);
      BothMatch(co, a, b, data[0]);
      hide Matches;
    }
  }

  lemma BothMatch(co: Coercions, a: MatchBody, b: MatchBody, r: Row)
    ensures Matches(co, a + b, r) <==> Matches(co, a, r) && Matches(co, b, r)
  {
    hide Meets;
    var c := a + b;
    assert forall i :: 0 <= i < |a| ==> c[i] == a[i];
    assert forall i :: 0 <= i < |b| ==> c[|a| + i] == b[i];
    if Matches(co, c, r) {
      forall i | 0 <= i < |a| ensures Meets(co, Field(r, a[i].0), a[i].1) { assert c[i] == a[i]; }
      forall i | 0 <= i < |b| ensures Meets(co, Field(r, b[i].0), b[i].1) { assert c[|a| + i] == b[i]; }
    }
  }

  /** Several tests of one field are tests of it one by one. */
  lemma TestsOneByOne(co: Coercions, field: string, ts: seq<Test>, us: seq<Test>, data: seq<Row>)
    ensures ApplyMatch(co, [(field, Tests(ts + us))], data)
         == ApplyMatch(co, [(field, Tests(us))], ApplyMatch(co, [(field, Tests(ts))], data))
    ensures ApplyMatch(co, [(field, Tests([]))], data) == data
  {
    var (a, b, c) := ([(field, Tests(ts))], [(field, Tests(us))], [(field, Tests(ts + us))]);
    MatchTwice(co, a, b, data);
    assert a + b == [(field, Tests(ts)), (field, Tests(us))];
    forall r | r in data ensures Matcher(co, a + b)(r) == Matcher(co, c)(r) { BothTests(co, field, ts, us, r); }
    FilterSame(data, Matcher(co, a + b), Matcher(co, c));
    NoTests(co, field, data);
  }

  lemma {:induction false} NoTests(co: Coercions, field: string, data: seq<Row>)
    ensures ApplyMatch(co, [(field, Tests([]))], data) == data
  {
    if data != [] { NoTests(co, field, data[1..]); }
  }

  lemma BothTests(co: Coercions, field: string, ts: seq<Test>, us: seq<Test>, r: Row)
    ensures Matches(co, [(field, Tests(ts)), (field, Tests(us))], r) == Matches(co, [(field, Tests(ts + us))], r)
  {
    var v := Field(r, field);
    var (one, two) := ([(field, Tests(ts + us))], [(field, Tests(ts)), (field, Tests(us))]);
    assert Matches(co, one, r) <==> Meets(co, v, one[0].1);
    assert Matches(co, two, r) <==> Meets(co, v, two[0].1) && Meets(co, v, two[1].1);
    hide Passes, Field, Matches;
    assert forall t :: t in ts + us <==> t in ts || t in us;
  }

  // ---------- expressions ----------

  /** What a value adds to a sum or multiplies a product by: the number it reads as, or zero. */
  ghost predicate CountsAs(co: Coercions, v: Value, x: real) { Reads(co, v, x) || (NoNumber(co, v) && x == 0.0) }

  lemma CountsOnce(co: Coercions, v: Value, x: real)
    ensures CountsAs(co, v, x) <==> NumOrZero(co, v) == x
  {
    ReadsOnce(co, v);
    hide Reads, ToNum, NoNumber;
  }

  lemma {:induction false} LastArgument(co: Coercions, r: Row, args: seq<Operand>, a: Operand)
    ensures Total(co, r, args + [a]) == Total(co, r, args) + NumOrZero(co, Operate(r, a))
    ensures Product(co, r, args + [a]) == Product(co, r, args) * NumOrZero(co, Operate(r, a))
  {
    var all := args + [a];
    hide NumOrZero, Operate;
    if args == [] {
      assert all[1..] == [];
      assert Total(co, r, all[1..]) == 0.0 && Product(co, r, all[1..]) == 1.0;
    } else {
      assert all[1..] == args[1..] + [a] && all[0] == args[0];
      LastArgument(co, r, args[1..], a);
      Associates(NumOrZero(co, Operate(r, args[0])), Product(co, r, args[1..]), NumOrZero(co, Operate(r, a)));
    }
  }

  lemma Associates(x: real, p: real, y: real)
    ensures x * (p * y) == (x * p) * y
  {
  }

  /** `$add` starts at zero and `$multiply` at one; each argument is added, or multiplied by, as the number it is. */
  lemma ArithmeticMeaning(co: Coercions, r: Row, args: seq<Operand>, a: Operand, x: real)
    requires CountsAs(co, Operate(r, a), x)
    ensures Evaluate(co, r, Add([])) == Num(0.0) && Evaluate(co, r, Multiply([])) == Num(1.0)
    ensures var (sum, more) := (Evaluate(co, r, Add(args)), Evaluate(co, r, Add(args + [a])));
      sum.Num? && more == Num(sum.x + x)
    ensures var (product, more) := (Evaluate(co, r, Multiply(args)), Evaluate(co, r, Multiply(args + [a])));
      product.Num? && more == Num(product.x * x)
  {
    CountsOnce(co, Operate(r, a), x);
    LastArgument(co, r, args, a);
    hide NumOrZero, Operate, CountsAs;
  }

  /** A `$concat` of one argument is its text; of a null or missing one it is empty. */
  lemma ConcatOne(co: Coercions, r: Row, a: Operand)
    ensures var v := Operate(r, a);
      Evaluate(co, r, Concat([a])) == if v == Null || v == Undefined then Str("") else Str(co.text(v))
  {
    assert [a][1..] == [] && Joined(co, r, [a][1..]) == "";
  }

  /** A stage that adds one field sets it and leaves the others, row by row. */
  lemma AddedFieldOnly(co: Coercions, f: string, e: Expr, r: Row, g: string)
    ensures var row := AddFieldsRow(co, [(f, e)], r);
      && (g != f ==> Field(row, g) == Field(r, g))
      && (e.Const? ==> Field(row, f) == e.v) && (e.FieldOf? ==> Field(row, f) == Field(r, e.field))
      && (e.UnknownExpr? ==> Field(row, f) == Null)
  {
    assert [(f, e)][..0] == [];
  }

  lemma {:induction false} AddFieldsKeepsRows(co: Coercions, fields: FieldsBody, data: seq<Row>, i: nat)
    requires i < |data|
    ensures |AddFields(co, fields, data)| == |data|
    ensures AddFields(co, fields, data)[i] == AddFieldsRow(co, fields, data[i])
    decreases |data|
  {
    hide AddFieldsRow;
    var n := |data| - 1;
    if n > 0 { AddFieldsKeepsRows(co, fields, data[..n], if i < n then i else 0); }
  }

  // ---------- unwind ----------

  lemma {:induction false} ItemRows(field: string, r: Row, items: seq<Value>, i: nat)
    ensures |UnwindItems(field, r, items)| == |items|
    ensures i < |items| ==> UnwindItems(field, r, items)[i] == r[field := items[i]]
    decreases |items|
  {
    var n := |items| - 1;
    if items != [] { ItemRows(field, r, items[..n], if i < n then i else 0); }
  }

  lemma OneRowUnwound(field: string, r: Row)
    ensures UnwindAll(field, [r]) == UnwindRow(field, r)
  {
    hide UnwindRow;
    assert [r][..0] == [] && UnwindAll(field, [r][..0]) == [];
  }

  /** A row whose field is a list becomes a row for each item, in the list's order; any other row stays. */
  lemma UnwindMeaning(field: string, r: Row, rest: seq<Row>, i: nat)
    requires field != ""
    ensures var (rows, v) := (Unwind(Some(field), [r]), Field(r, field));
      if v.Arr? then |rows| == |v.items| && (i < |rows| ==> rows[i] == r[field := v.items[i]]) else rows == [r]
    ensures Unwind(Some(field), rest + [r]) == Unwind(Some(field), rest) + Unwind(Some(field), [r])
    ensures Unwind(None, rest) == rest && Unwind(Some(field), []) == []
  {
    if Field(r, field).Arr? { ItemRows(field, r, Field(r, field).items, i); }
    hide UnwindItems;
    OneRowUnwound(field, r);
    hide UnwindRow;
    assert (rest + [r])[..|rest|] == rest;
  }

  // ---------- aggregates ----------

  ghost predicate Present(f: string, rs: seq<Row>, i: nat)
    requires i < |rs|
  {
    Field(rs[i], f) != Null && Field(rs[i], f) != Undefined
  }

  ghost predicate Unreadable(co: Coercions, f: string, rs: seq<Row>, i: nat)
    requires i < |rs|
  {
    Present(f, rs, i) && NoNumber(co, Field(rs[i], f))
  }

  ghost predicate HasNumber(co: Coercions, f: string, rs: seq<Row>, i: nat, x: real)
    requires i < |rs|
  {
    Present(f, rs, i) && Reads(co, Field(rs[i], f), x)
  }

  ghost predicate Holds(co: Coercions, f: string, rs: seq<Row>, x: real) {
    exists i :: 0 <= i < |rs| && HasNumber(co, f, rs, i, x)
  }

  lemma {:induction false} NumbersHeld(co: Coercions, f: string, rs: seq<Row>)
    ensures Numbers(co, f, rs).None? <==> exists i :: 0 <= i < |rs| && Unreadable(co, f, rs, i)
    ensures Numbers(co, f, rs) == Some([]) <==> forall i :: 0 <= i < |rs| ==> !Present(f, rs, i)
    ensures Numbers(co, f, rs).Some? ==>
      forall x: real :: x in Numbers(co, f, rs).value <==> Holds(co, f, rs, x)
  {
    if rs != [] {
      NumbersHeld(co, f, rs[1..]);
      ReadsOnce(co, Field(rs[0], f));
      HeadOrTail(co, f, rs);
      hide Reads, NoNumber, ToNum, Holds;
      forall x: real ensures Holds(co, f, rs, x) <==> HasNumber(co, f, rs, 0, x) || Holds(co, f, rs[1..], x) {
        HoldsHead(co, f, rs, x);
      }
    }
  }

  lemma HeadOrTail(co: Coercions, f: string, rs: seq<Row>)
    requires rs != []
    ensures (exists i :: 0 <= i < |rs| && Unreadable(co, f, rs, i))
       <==> Unreadable(co, f, rs, 0) || exists i :: 0 <= i < |rs| - 1 && Unreadable(co, f, rs[1..], i)
    ensures (exists i :: 0 <= i < |rs| && Present(f, rs, i))
       <==> Present(f, rs, 0) || exists i :: 0 <= i < |rs| - 1 && Present(f, rs[1..], i)
  {
    hide NoNumber;
    assert forall i :: 0 <= i < |rs| - 1 ==> rs[1..][i] == rs[i + 1];
    forall i | 0 < i < |rs|
      ensures Unreadable(co, f, rs, i) <==> Unreadable(co, f, rs[1..], i - 1)
      ensures Present(f, rs, i) <==> Present(f, rs[1..], i - 1) {}
    forall i | 0 <= i < |rs| - 1
      ensures Unreadable(co, f, rs, i + 1) <==> Unreadable(co, f, rs[1..], i)
      ensures Present(f, rs, i + 1) <==> Present(f, rs[1..], i) {}
  }

  lemma HoldsHead(co: Coercions, f: string, rs: seq<Row>, x: real)
    requires rs != []
    ensures Holds(co, f, rs, x) <==> HasNumber(co, f, rs, 0, x) || Holds(co, f, rs[1..], x)
  {
    hide Reads;
    forall i | 0 < i < |rs| ensures HasNumber(co, f, rs, i, x) <==> HasNumber(co, f, rs[1..], i - 1, x) {}
    forall i | 0 <= i < |rs| - 1 ensures HasNumber(co, f, rs, i + 1, x) <==> HasNumber(co, f, rs[1..], i, x) {}
  }

  ghost predicate Extreme(co: Coercions, f: string, rs: seq<Row>, v: Value, least: bool) {
    if exists i :: 0 <= i < |rs| && Unreadable(co, f, rs, i) then v == NaN
    else if forall i :: 0 <= i < |rs| ==> !Present(f, rs, i) then v == Null
    else v.Num? && Holds(co, f, rs, v.x) && forall x: real :: Holds(co, f, rs, x) ==>
      if least then v.x <= x else x <= v.x
  }

  /**
   The minimum and the maximum leave null and missing values out: of the others they are the number that is reached
   and bounds them all, NaN if one of them is no number, and null if there are none.
   */
  lemma ExtremeMeaning(co: Coercions, f: string, rs: seq<Row>)
    ensures Extreme(co, f, rs, AggregateOf(co, MinOf(f), rs), true)
    ensures Extreme(co, f, rs, AggregateOf(co, MaxOf(f), rs), false)
  {
    hide Numbers, Holds, Unreadable, Present;
    NumbersHeld(co, f, rs);
  }

  lemma SumEmpty(co: Coercions, f: string)
    ensures SumField(co, f, []) == 0.0
  {
  }

  /** A sum starts at zero and takes each row's number; the average is the sum's share of each row. */
  lemma SumMeaning(co: Coercions, f: string, rs: seq<Row>, r: Row, x: real)
    requires CountsAs(co, Field(r, f), x)
    ensures AggregateOf(co, SumOf(f), []) == Num(0.0) && AggregateOf(co, AvgOf(f), []) == Num(0.0)
    ensures var (sum, more) := (AggregateOf(co, SumOf(f), rs), AggregateOf(co, SumOf(f), rs + [r]));
      sum.Num? && more == Num(sum.x + x)
    ensures var (sum, avg) := (AggregateOf(co, SumOf(f), rs), AggregateOf(co, AvgOf(f), rs));
      avg.Num? && sum.x == avg.x * |rs| as real
  {
    CountsOnce(co, Field(r, f), x);
    SumEmpty(co, f);
    hide NumOrZero, CountsAs;
    assert (rs + [r])[..|rs|] == rs;
  }

  /** Counts grow by one with each row, sums of a number by the number. */
  lemma CountMeaning(co: Coercions, n: real, rs: seq<Row>, r: Row)
    ensures AggregateOf(co, Count, []) == Num(0.0) && AggregateOf(co, SumConst(n), []) == Num(0.0)
    ensures var (count, more) := (AggregateOf(co, Count, rs), AggregateOf(co, Count, rs + [r]));
      count.Num? && more == Num(count.x + 1.0)
    ensures var (sum, more) := (AggregateOf(co, SumConst(n), rs), AggregateOf(co, SumConst(n), rs + [r]));
      sum.Num? && more == Num(sum.x + n)
    ensures AggregateOf(co, UnknownAggregate, rs) == Null
  {
    assert |rs + [r]| as real == |rs| as real + 1.0;
    OneMore(|rs| as real, n);
  }

  lemma OneMore(k: real, n: real)
    ensures (k + 1.0) * n == k * n + n
  {
  }
}
