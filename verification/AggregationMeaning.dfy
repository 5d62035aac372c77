/** What the single stages mean, in terms a user of the pipeline would use. */
module AggregationMeaning {
  import opened Options
  import opened Lists
  import opened Aggregation
  import opened AggregationLaws

  // ---------- limit and skip ----------

  /** Whatever the number, limit and skip cut the rows in two; a negative number counts from the end. */
  lemma LimitAndSkipPartition(n: int, data: seq<Row>)
    ensures ApplyLimit(n, data) + ApplySkip(n, data) == data
    ensures n >= 0 ==> |ApplyLimit(n, data)| == if n < |data| then n else |data|
    ensures n < 0 ==> |ApplySkip(n, data)| == if -n < |data| then -n else |data|
  {
  }

  /** A skip and then a limit give the piece of the rows that starts there, as far as there are rows. */
  lemma PageOfPipeline(co: Coercions, from: nat, size: nat, data: seq<Row>)
    ensures Execute(co, [SkipStage(from), LimitStage(size)], data)
      == if from + size <= |data| then data[from..from + size] else if from <= |data| then data[from..] else []
  {
    hide ApplyMatch, ApplyGroup, ApplySort, Unwind, AddFields;
    var stages := [SkipStage(from), LimitStage(size)];
    assert stages[1..] == [LimitStage(size)] && [LimitStage(size)][1..] == [];
    assert Execute(co, [], ApplyStage(co, LimitStage(size), ApplyStage(co, SkipStage(from), data)))
      == ApplyStage(co, LimitStage(size), ApplyStage(co, SkipStage(from), data));
  }

  /** Each kind of stage is the operation that the laws about it name. */
  lemma OneStage(co: Coercions, stage: Stage, data: seq<Row>)
    ensures Execute(co, [stage], data) == ApplyStage(co, stage, data)
    ensures stage.MatchStage? ==> ApplyStage(co, stage, data) == ApplyMatch(co, stage.body, data)
    ensures stage.GroupStage? ==> ApplyStage(co, stage, data) == ApplyGroup(co, stage.group, data)
    ensures stage.SortStage? ==> ApplyStage(co, stage, data) == ApplySort(co, stage.keys, data)
    ensures stage.LimitStage? ==> ApplyStage(co, stage, data) == ApplyLimit(stage.limit, data)
    ensures stage.SkipStage? ==> ApplyStage(co, stage, data) == ApplySkip(stage.skip, data)
    ensures stage.UnwindStage? ==> ApplyStage(co, stage, data) == Unwind(stage.path, data)
    ensures stage.AddFieldsStage? ==> ApplyStage(co, stage, data) == AddFields(co, stage.fields, data)
  {
    assert [stage][1..] == [] && Execute(co, [], ApplyStage(co, stage, data)) == ApplyStage(co, stage, data);
  }

  /** A pipeline runs its stages in turn, each on what the ones before it gave. */
  lemma {:induction false} StagesInTurn(co: Coercions, first: seq<Stage>, last: Stage, data: seq<Row>)
    ensures Execute(co, [], data) == data
    ensures Execute(co, first + [last], data) == ApplyStage(co, last, Execute(co, first, data))
  {
    hide ApplyStage;
    if first == [] {
      assert ([] + [last])[1..] == [];
    } else {
      assert (first + [last])[1..] == first[1..] + [last];
      StagesInTurn(co, first[1..], last, ApplyStage(co, first[0], data));
    }
  }

  /** The rows of the first `k` pages of a size, one page after another. */
  function FirstPages(size: nat, k: nat, data: seq<Row>): seq<Row> {
    if k == 0 then [] else FirstPages(size, k - 1, data) + ApplyLimit(size, ApplySkip((k - 1) * size, data))
  }

  lemma NextPage(k: nat, size: nat, data: seq<Row>)
    requires k > 0
    ensures ApplyLimit((k - 1) * size, data) + ApplyLimit(size, ApplySkip((k - 1) * size, data))
        == ApplyLimit(k * size, data)
  {
    var n := (k - 1) * size;
    assert n + size == k * size;
  }

  /** Pages are consecutive and disjoint: together the first k are the first k times size rows, in the end all. */
  lemma {:induction false} PagesAreAll(size: nat, k: nat, data: seq<Row>)
    ensures FirstPages(size, k, data) == ApplyLimit(k * size, data)
    ensures k * size >= |data| ==> FirstPages(size, k, data) == data
  {
    LimitAndSkipPartition(k * size, data);
    hide ApplyLimit, ApplySkip;
    if k > 0 {
      PagesAreAll(size, k - 1, data);
      NextPage(k, size, data);
    }
  }

  // ---------- sort ----------

  /** The sorted rows are the rows, in the comparator's order, and rows that compare equal keep theirs. */
  lemma SortMeaning(co: Coercions, keys: seq<SortKey>, data: seq<Row>)
    requires Sortable(co, keys, data)
    ensures Sorted(ApplySort(co, keys, data), AtMost(co, keys))
    ensures SameClasses(ApplySort(co, keys, data), data, AtMost(co, keys))
  {
    var le := AtMost(co, keys);
    var dom := set r | r in data;
    SortSorted(data, le, dom);
    SortMultiset(data, le);
    forall z | z in data ensures Filter(Sort(data, le), Like(le, z)) == Filter(data, Like(le, z)) {
      SortClass(data, le, dom, z);
    }
  }

  function NumberAt(r: Row, field: string): real { match Field(r, field) case Num(x) => x case _ => 0.0 }

  /** A sort by one column of numbers puts them in ascending or, with direction -1, descending order. */
  lemma NumberColumnSorted(co: Coercions, field: string, descending: bool, data: seq<Row>, i: nat, j: nat)
    requires (forall r :: r in data ==> Field(r, field).Num?) && i < j < |data|
    ensures var rows := ApplySort(co, [SortKey(field, descending)], data);
      |rows| == |data| &&
      if descending then NumberAt(rows[i], field) >= NumberAt(rows[j], field)
      else NumberAt(rows[i], field) <= NumberAt(rows[j], field)
  {
    var keys := [SortKey(field, descending)];
    HomogeneousIsSortable(co, keys, data);
    SortMeaning(co, keys, data);
    SortMultiset(data, AtMost(co, keys));
    var rows := ApplySort(co, keys, data);
    hide Sort, Sortable, SameClasses, Homogeneous;
    assert AtMost(co, keys)(rows[i], rows[j]);
    assert rows[i] in rows && rows[j] in rows;
    OneColumn(co, field, descending, rows[i], rows[j]);
  }

  lemma OneColumn(co: Coercions, field: string, descending: bool, a: Row, b: Row)
    requires Field(a, field).Num? && Field(b, field).Num? && Compare(co, [SortKey(field, descending)], a, b) <= 0
    ensures if descending then NumberAt(a, field) >= NumberAt(b, field) else NumberAt(a, field) <= NumberAt(b, field)
  {
    assert [SortKey(field, descending)][1..] == [];
  }

  // ---------- match ----------

  function NumberIn(field: string, low: real, high: real): Row -> bool { r => low <= NumberAt(r, field) < high }

  function RangeBody(field: string, low: real, high: real): MatchBody {
    [(field, Tests([Gte(Num(low)), Lt(Num(high))]))]
  }

  /** On a column of numbers a match with a lower and an upper bound selects the rows of that half-open range. */
  lemma RangeMatchSelects(co: Coercions, field: string, low: real, high: real, data: seq<Row>)
    requires NumberColumn(field, data)
    ensures ApplyMatch(co, RangeBody(field, low, high), data) == Filter(data, NumberIn(field, low, high))
  {
    var body := RangeBody(field, low, high);
    forall r | r in data ensures Matcher(co, body)(r) == NumberIn(field, low, high)(r) {
      RangeMatches(co, field, low, high, r);
    }
    FilterSame(data, Matcher(co, body), NumberIn(field, low, high));
  }

  lemma RangeMatches(co: Coercions, field: string, low: real, high: real, r: Row)
    requires Field(r, field).Num?
    ensures Matches(co, RangeBody(field, low, high), r) <==> low <= NumberAt(r, field) < high
  {
    var body := RangeBody(field, low, high);
    var tests := [Gte(Num(low)), Lt(Num(high))];
    var v := Field(r, field);
    assert Matches(co, body, r) <==> Meets(co, v, body[0].1);
    assert tests[0] in tests && tests[1] in tests;
    assert forall t :: t in tests ==> t == tests[0] || t == tests[1];
    assert Passes(co, v, tests[0]) <==> low <= v.x;
    assert Passes(co, v, tests[1]) <==> v.x < high;
  }

  /** Ranges that meet at a number share no row and lose none. */
  lemma RangesSplit(co: Coercions, field: string, low: real, middle: real, high: real, data: seq<Row>)
    requires NumberColumn(field, data) && low <= middle <= high
    ensures var (a, b) :=
        (ApplyMatch(co, RangeBody(field, low, middle), data), ApplyMatch(co, RangeBody(field, middle, high), data));
      multiset(a) + multiset(b) == multiset(ApplyMatch(co, RangeBody(field, low, high), data))
  {
    hide ApplyMatch;
    RangeMatchSelects(co, field, low, middle, data);
    RangeMatchSelects(co, field, middle, high, data);
    RangeMatchSelects(co, field, low, high, data);
    RangeMultisets(field, low, middle, high, data);
  }

  lemma {:induction false} RangeMultisets(field: string, low: real, middle: real, high: real, data: seq<Row>)
    requires low <= middle <= high
    ensures multiset(Filter(data, NumberIn(field, low, middle))) + multiset(Filter(data, NumberIn(field, middle, high)))
         == multiset(Filter(data, NumberIn(field, low, high)))
  {
    if data != [] {
      hide NumberAt;
      RangeMultisets(field, low, middle, high, data[1..]);
      var (a, b, c) := (NumberIn(field, low, middle), NumberIn(field, middle, high), NumberIn(field, low, high));
      FilterHead(data, a);
      FilterHead(data, b);
      FilterHead(data, c);
      hide Filter;
    }
  }

  lemma FilterHead(data: seq<Row>, keep: Row -> bool)
    requires data != []
    ensures multiset(Filter(data, keep))
         == multiset(Filter(data[1..], keep)) + if keep(data[0]) then multiset{data[0]} else multiset{}
  {
  }

  /** On texts `$gt` and `$lte` are complements, and `$gte` and `$lt`. */
  lemma TextTests(co: Coercions, a: string, b: string)
    ensures Passes(co, Str(a), Gt(Str(b))) <==> !Passes(co, Str(a), Lte(Str(b)))
    ensures Passes(co, Str(a), Lt(Str(b))) <==> !Passes(co, Str(a), Gte(Str(b)))
    ensures Passes(co, Str(a), Lte(Str(b))) && Passes(co, Str(a), Gte(Str(b))) <==> a == b
  {
    StrLessOrder(a, b, a);
  }

  // ---------- addFields ----------

  /** An added field holds what its expression gives on the original record; of two for one name the later counts. */
  lemma {:induction false} AddedFieldValue(co: Coercions, fields: FieldsBody, r: Row, i: nat)
    requires i < |fields| && forall j :: i < j < |fields| ==> fields[j].0 != fields[i].0
    ensures Field(AddFieldsRow(co, fields, r), fields[i].0) == Evaluate(co, r, fields[i].1)
  {
    var n := |fields| - 1;
    if i < n { AddedFieldValue(co, fields[..n], r, i); }
  }

  lemma TwoArguments(co: Coercions, r: Row, a: Operand, b: Operand, rest: seq<Operand>)
    ensures var (x, y) := (NumOrZero(co, Operate(r, a)), NumOrZero(co, Operate(r, b)));
      && Total(co, r, [a, b] + rest) == x + (y + Total(co, r, rest))
      && Product(co, r, [a, b] + rest) == x * (y * Product(co, r, rest))
  {
    hide NumOrZero, Operate;
    var s := [a, b] + rest;
    assert s[0] == a && s[1..] == [b] + rest && s[1..][1..] == rest;
  }

  lemma MulSwap(x: real, y: real, p: real)
    ensures x * (y * p) == y * (x * p)
  {
  }

  /** The order of the arguments of `$add` and `$multiply` does not matter. */
  lemma ArgumentsSwap(co: Coercions, r: Row, a: Operand, b: Operand, rest: seq<Operand>)
    ensures Evaluate(co, r, Add([a, b] + rest)) == Evaluate(co, r, Add([b, a] + rest))
    ensures Evaluate(co, r, Multiply([a, b] + rest)) == Evaluate(co, r, Multiply([b, a] + rest))
  {
    hide NumOrZero, Operate, Total, Product;
    TwoArguments(co, r, a, b, rest);
    TwoArguments(co, r, b, a, rest);
    MulSwap(NumOrZero(co, Operate(r, a)), NumOrZero(co, Operate(r, b)), Product(co, r, rest));
  }

  /** `$concat` joins the texts of its arguments in order, and null or missing ones add nothing. */
  lemma {:induction false} ConcatJoins(co: Coercions, r: Row, s: seq<Operand>, t: seq<Operand>)
    ensures Joined(co, r, s + t) == Joined(co, r, s) + Joined(co, r, t)
    ensures (forall a :: a in s ==> Operate(r, a).Null? || Operate(r, a).Undefined?) ==> Joined(co, r, s) == ""
  {
    if s == [] {
      assert s + t == t;
    } else {
      hide Operate;
      ConcatJoins(co, r, s[1..], t);
      assert (s + t)[1..] == s[1..] + t;
      assert s[0] in s && forall a :: a in s[1..] ==> a in s;
    }
  }

  // ---------- aggregates ----------

  ghost predicate NumberColumn(f: string, rs: seq<Row>) { forall r :: r in rs ==> Field(r, f).Num? }

  function ColumnOf(f: string, rs: seq<Row>): (xs: seq<real>)
    ensures |xs| == |rs|
  {
    seq(|rs|, i requires 0 <= i < |rs| => NumberAt(rs[i], f))
  }

  lemma {:induction false} NumbersOfColumn(co: Coercions, f: string, rs: seq<Row>)
    requires NumberColumn(f, rs)
    ensures Numbers(co, f, rs) == Some(ColumnOf(f, rs))
  {
    if rs != [] {
      assert rs[0] in rs;
      NumbersOfColumn(co, f, rs[1..]);
      assert ColumnOf(f, rs) == [NumberAt(rs[0], f)] + ColumnOf(f, rs[1..]);
    }
  }

  ghost predicate Averages(low: real, high: real, sum: real, n: nat) { low * n as real <= sum <= high * n as real }

  lemma AddBounds(low: real, high: real, sum: real, x: real, n: nat)
    requires Averages(low, high, sum, n) && low <= x <= high
    ensures Averages(low, high, sum + x, n + 1) && Averages(low, high, 0.0, 0)
  {
    assert (n + 1) as real == n as real + 1.0;
  }

  lemma SumLast(co: Coercions, f: string, rs: seq<Row>)
    requires rs != [] && Field(rs[|rs| - 1], f).Num?
    ensures SumField(co, f, rs) == SumField(co, f, rs[..|rs| - 1]) + NumberAt(rs[|rs| - 1], f)
  {
  }

  lemma {:induction false} SumBounds(co: Coercions, f: string, rs: seq<Row>, low: real, high: real)
    requires forall r :: r in rs ==> Field(r, f).Num? && low <= NumberAt(r, f) <= high
    ensures Averages(low, high, SumField(co, f, rs), |rs|)
  {
    if rs == [] {
      assert SumField(co, f, rs) == 0.0;
    } else {
      hide SumField, NumberAt, Averages;
      var n := |rs| - 1;
      assert forall r :: r in rs[..n] ==> r in rs;
      SumBounds(co, f, rs[..n], low, high);
      assert rs[n] in rs;
      SumLast(co, f, rs);
      AddBounds(low, high, SumField(co, f, rs[..n]), NumberAt(rs[n], f), n);
    }
  }

  lemma Between(low: real, high: real, sum: real, n: nat)
    requires n > 0 && Averages(low, high, sum, n)
    ensures low <= sum / n as real <= high
  {
  }

  ghost predicate Reached(f: string, rs: seq<Row>, x: real) { exists r :: r in rs && NumberAt(r, f) == x }

  lemma ColumnBounds(f: string, rs: seq<Row>, low: real, high: real)
    requires low in ColumnOf(f, rs) && high in ColumnOf(f, rs)
    requires forall x :: x in ColumnOf(f, rs) ==> low <= x <= high
    ensures (forall r :: r in rs ==> low <= NumberAt(r, f) <= high) && Reached(f, rs, low) && Reached(f, rs, high)
  {
    var xs := ColumnOf(f, rs);
    forall r | r in rs ensures low <= NumberAt(r, f) <= high {
      var i :| 0 <= i < |rs| && rs[i] == r;
      assert xs[i] in xs;
    }
    var i :| 0 <= i < |xs| && xs[i] == low;
    assert rs[i] in rs && NumberAt(rs[i], f) == low;
    var j :| 0 <= j < |xs| && xs[j] == high;
    assert rs[j] in rs && NumberAt(rs[j], f) == high;
  }

  /** On a column of numbers the minimum and the maximum are reached, bound every row, and lie around the average. */
  lemma MinAvgMax(co: Coercions, f: string, rs: seq<Row>)
    requires rs != [] && NumberColumn(f, rs)
    ensures var (low, avg, high) :=
        (AggregateOf(co, MinOf(f), rs), AggregateOf(co, AvgOf(f), rs), AggregateOf(co, MaxOf(f), rs));
      && low.Num? && avg.Num? && high.Num? && low.x <= avg.x <= high.x
      && (forall r :: r in rs ==> low.x <= NumberAt(r, f) <= high.x)
      && Reached(f, rs, low.x) && Reached(f, rs, high.x)
  {
    hide Least, Greatest, Numbers, ColumnOf, Reached, NumberAt, SumField, Averages;
    NumbersOfColumn(co, f, rs);
    var xs := ColumnOf(f, rs);
    var (low, high) := (Least(xs), Greatest(xs));
    ColumnBounds(f, rs, low, high);
    SumBounds(co, f, rs, low, high);
    Between(low, high, SumField(co, f, rs), |rs|);
  }


  // ---------- the rows of a group stage ----------

  ghost predicate IsAlias(aggregates: seq<(string, Aggregate)>, j: nat) {
    && j < |aggregates| && aggregates[j].0 != "_id"
    && forall k :: j < k < |aggregates| ==> aggregates[k].0 != aggregates[j].0
  }

  /**
   Row `i` of a group stage names the i-th key in order of first occurrence and holds, under each alias, the aggregate
   over exactly the rows of that key, which are those a match on the key selects.
   */
  lemma GroupStageReports(co: Coercions, body: GroupBody, data: seq<Row>, i: nat, j: nat)
    requires i < |FirstKeys(body.groupField, data)| && IsAlias(body.aggregates, j)
    ensures var (rows, key) := (ApplyGroup(co, body, data), FirstKeys(body.groupField, data)[i]);
      && |rows| == |FirstKeys(body.groupField, data)|
      && Field(rows[i], "_id") == (if key == ALL then Null else key)
      && Field(rows[i], body.aggregates[j].0)
           == AggregateOf(co, body.aggregates[j].1, Filter(data, InGroup(body.groupField, key)))
      && (body.groupField.Some? && body.groupField.value != "" && StrictEq(key, key) ==>
            Field(rows[i], body.aggregates[j].0)
            == AggregateOf(co, body.aggregates[j].1, ApplyMatch(co, [(body.groupField.value, Is(key))], data)))
  {
    hide FillRow, AggregateOf, ApplyMatch, Filter, Field;
    var gs := GroupsOf(body.groupField, data);
    GroupRecords(body.groupField, data, ALL);
    KeysLength(gs);
    GroupingIsPartition(co, body.groupField, data, i);
    GroupRowReports(co, body.aggregates, gs[i].key, gs[i].records, j);
  }

  /** The sum of a column of result rows. */
  function ColumnTotal(alias: string, rows: seq<Row>): real {
    if rows == [] then 0.0 else NumberAt(rows[0], alias) + ColumnTotal(alias, rows[1..])
  }

  function Times(count: nat, n: real): real { count as real * n }

  lemma TimesSum(a: nat, b: nat, n: real)
    ensures Times(a + b, n) == Times(a, n) + Times(b, n) && Times(0, n) == 0.0
  {
    assert (a + b) as real == a as real + b as real;
  }

  lemma GroupRowNumber(co: Coercions, body: GroupBody, g: Group, j: nat)
    requires IsAlias(body.aggregates, j)
    ensures var x := NumberAt(FillRow(co, body.aggregates, g.key, g.records), body.aggregates[j].0);
      var agg := body.aggregates[j].1;
      && (agg.Count? ==> x == |g.records| as real)
      && (agg.SumOf? ==> x == SumField(co, agg.field, g.records))
      && (agg.SumConst? ==> x == Times(|g.records|, agg.n))
  {
    hide FillRow, SumField, Field;
    GroupRowReports(co, body.aggregates, g.key, g.records, j);
  }

  lemma GroupRowsHead(co: Coercions, body: GroupBody, gs: seq<Group>, alias: string)
    requires gs != []
    ensures ColumnTotal(alias, GroupRows(co, body, gs))
         == NumberAt(FillRow(co, body.aggregates, gs[0].key, gs[0].records), alias)
            + ColumnTotal(alias, GroupRows(co, body, gs[1..]))
  {
    hide FillRow, NumberAt;
    assert GroupRows(co, body, gs)[1..] == GroupRows(co, body, gs[1..]);
  }

  lemma {:induction false} GroupRowTotals(co: Coercions, body: GroupBody, gs: seq<Group>, j: nat)
    requires IsAlias(body.aggregates, j)
    ensures var (agg, total) := (body.aggregates[j].1, ColumnTotal(body.aggregates[j].0, GroupRows(co, body, gs)));
      && (agg.Count? ==> total == GroupCounts(gs) as real)
      && (agg.SumOf? ==> total == GroupSums(co, agg.field, gs))
      && (agg.SumConst? ==> total == Times(GroupCounts(gs), agg.n))
  {
    hide FillRow, NumberAt, SumField, Times;
    var agg := body.aggregates[j].1;
    if gs == [] {
      if agg.SumConst? { TimesSum(0, 0, agg.n); }
    } else {
      hide GroupRows, ColumnTotal, IsAlias;
      GroupRowTotals(co, body, gs[1..], j);
      GroupRowsHead(co, body, gs, body.aggregates[j].0);
      GroupRowNumber(co, body, gs[0], j);
      if agg.SumConst? { TimesSum(|gs[0].records|, GroupCounts(gs[1..]), agg.n); }
    }
  }

  /** The counts and sums the result rows report add up to those of the whole input. */
  lemma GroupStageTotals(co: Coercions, body: GroupBody, data: seq<Row>, j: nat)
    requires IsAlias(body.aggregates, j)
    ensures var (agg, total) := (body.aggregates[j].1, ColumnTotal(body.aggregates[j].0, ApplyGroup(co, body, data)));
      && (agg.Count? ==> total == |data| as real)
      && (agg.SumOf? ==> total == SumField(co, agg.field, data))
      && (agg.SumConst? ==> total == Times(|data|, agg.n))
  {
    hide GroupRows, ColumnTotal, SumField, GroupsOf;
    GroupRowTotals(co, body, GroupsOf(body.groupField, data), j);
    GroupingConserves(
      co, if body.aggregates[j].1.SumOf? then body.aggregates[j].1.field else "", body.groupField, data);
  }
}
