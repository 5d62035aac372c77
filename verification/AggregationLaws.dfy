/**
 Rewrite laws of the pipeline: a match may be moved in front of the stages that cannot change its verdict,
 and grouping is an exact partition.
 */
module AggregationLaws {
  import opened Options
  import opened Lists
  import opened Aggregation

  // ---------- what a match can see ----------

  /** A match reads nothing but the fields it tests. */
  lemma MatchSeesTestedFields(co: Coercions, body: MatchBody, r: Row, r': Row)
    requires forall f :: TestsField(body, f) ==> Field(r, f) == Field(r', f)
    ensures Matches(co, body, r) == Matches(co, body, r')
  {
    forall i | 0 <= i < |body| ensures Field(r, body[i].0) == Field(r', body[i].0) {
      assert TestsField(body, body[i].0);
    }
  }

  // ---------- sort ----------

  /** JavaScript sorts rows predictably when the comparator is consistent on them. */
  ghost predicate Sortable(co: Coercions, keys: seq<SortKey>, data: seq<Row>) {
    Orders((set r | r in data), AtMost(co, keys))
  }

  lemma MatchPastSort(co: Coercions, body: MatchBody, keys: seq<SortKey>, data: seq<Row>)
    requires Sortable(co, keys, data)
    ensures ApplyMatch(co, body, ApplySort(co, keys, data)) == ApplySort(co, keys, ApplyMatch(co, body, data))
    ensures Sortable(co, keys, ApplyMatch(co, body, data))
  {
    FilterSort(data, AtMost(co, keys), (set r | r in data), Matcher(co, body));
    FilterMembers(data, Matcher(co, body));
  }

  ghost predicate Homogeneous(keys: seq<SortKey>, data: seq<Row>) {
    forall i :: 0 <= i < |keys| ==>
      (forall r :: r in data ==> Field(r, keys[i].field).Num?)
        || (forall r :: r in data ==> Field(r, keys[i].field).Str?)
  }

  lemma {:induction false} StrLessOrder(a: string, b: string, c: string)
    ensures !(StrLess(a, b) && StrLess(b, a))
    ensures StrLess(a, b) || StrLess(b, a) || a == b
    ensures StrLess(a, b) && StrLess(b, c) ==> StrLess(a, c)
    decreases |a| + |b| + |c|
  {
    if a != [] && b != [] {
      StrLessOrder(a[1..], b[1..], if c == [] then [] else c[1..]);
      assert a == [a[0]] + a[1..] && b == [b[0]] + b[1..];
    }
  }

  /** On columns of numbers and columns of strings the comparator is a consistent order. */
  lemma {:induction false} CompareOrder(co: Coercions, keys: seq<SortKey>, data: seq<Row>, a: Row, b: Row, c: Row)
    requires Homogeneous(keys, data) && a in data && b in data && c in data
    ensures Compare(co, keys, a, b) == -Compare(co, keys, b, a)
    ensures Compare(co, keys, a, b) <= 0 && Compare(co, keys, b, c) <= 0 ==> Compare(co, keys, a, c) <= 0
    ensures Compare(co, keys, a, b) == 0 ==> Compare(co, keys, a, c) == Compare(co, keys, b, c)
    ensures Compare(co, keys, b, c) == 0 ==> Compare(co, keys, a, c) == Compare(co, keys, a, b)
  {
    if keys != [] {
      assert Homogeneous(keys[1..], data) by {
        assert forall i :: 0 <= i < |keys[1..]| ==> keys[1..][i] == keys[i + 1];
      }
      CompareOrder(co, keys[1..], data, a, b, c);
      var (x, y, z) := (Field(a, keys[0].field), Field(b, keys[0].field), Field(c, keys[0].field));
      if x.Str? {
        StrLessOrder(x.s, y.s, z.s);
        StrLessOrder(y.s, z.s, x.s);
        StrLessOrder(z.s, x.s, y.s);
        StrLessOrder(y.s, x.s, z.s);
        StrLessOrder(x.s, z.s, y.s);
        StrLessOrder(z.s, y.s, x.s);
      }
    }
  }

  lemma HomogeneousIsSortable(co: Coercions, keys: seq<SortKey>, data: seq<Row>)
    requires Homogeneous(keys, data)
    ensures Sortable(co, keys, data)
  {
    forall a, b, c | a in data && b in data && c in data
      ensures Compare(co, keys, a, b) == -Compare(co, keys, b, a)
      ensures Compare(co, keys, a, b) <= 0 && Compare(co, keys, b, c) <= 0 ==> Compare(co, keys, a, c) <= 0
    {
      CompareOrder(co, keys, data, a, b, c);
    }
  }

  // ---------- unwind ----------

  lemma {:induction false} MatchPastItems(co: Coercions, body: MatchBody, field: string, r: Row, items: seq<Value>)
    requires !TestsField(body, field)
    ensures ApplyMatch(co, body, UnwindItems(field, r, items)) ==
            if Matches(co, body, r) then UnwindItems(field, r, items) else []
  {
    if items != [] {
      var n := |items| - 1;
      var r' := r[field := items[n]];
      MatchPastItems(co, body, field, r, items[..n]);
      MatchSeesTestedFields(co, body, r, r');
      FilterConcat(UnwindItems(field, r, items[..n]), [r'], Matcher(co, body));
    }
  }

  lemma MatchPastUnwindRow(co: Coercions, body: MatchBody, field: string, r: Row)
    requires !TestsField(body, field)
    ensures ApplyMatch(co, body, UnwindRow(field, r)) == UnwindAll(field, ApplyMatch(co, body, [r]))
  {
    if Field(r, field).Arr? {
      MatchPastItems(co, body, field, r, Field(r, field).items);
    }
    assert [r][..0] == [];
    assert UnwindAll(field, [r]) == UnwindRow(field, r);
    FilterOne(r, Matcher(co, body));
  }

  lemma UnwindSnoc(field: string, s: seq<Row>, r: Row)
    ensures UnwindAll(field, s + [r]) == UnwindAll(field, s) + UnwindRow(field, r)
  {
    hide UnwindRow;
    assert (s + [r])[..|s|] == s;
  }

  lemma {:induction false} UnwindConcat(field: string, s: seq<Row>, t: seq<Row>)
    ensures UnwindAll(field, s + t) == UnwindAll(field, s) + UnwindAll(field, t)
  {
    hide UnwindRow;
    if t == [] {
      assert s + t == s;
    } else {
      var before, last := t[..|t| - 1], t[|t| - 1];
      UnwindConcat(field, s, before);
      UnwindSnoc(field, s + before, last);
      assert s + t == (s + before) + [last];
      ConcatAssoc(UnwindAll(field, s), UnwindAll(field, before), UnwindRow(field, last));
    }
  }

  lemma {:induction false} MatchPastUnwind(co: Coercions, body: MatchBody, field: string, data: seq<Row>)
    requires !TestsField(body, field)
    ensures ApplyMatch(co, body, UnwindAll(field, data)) == UnwindAll(field, ApplyMatch(co, body, data))
  {
    if data != [] {
      var before, last := data[..|data| - 1], data[|data| - 1];
      var m := Matcher(co, body);
      MatchPastUnwind(co, body, field, before);
      MatchPastUnwindRow(co, body, field, last);
      FilterConcat(UnwindAll(field, before), UnwindRow(field, last), m);
      assert data == before + [last];
      FilterConcat(before, [last], m);
      UnwindConcat(field, Filter(before, m), Filter([last], m));
    }
  }

  // ---------- addFields ----------

  lemma {:induction false} AddedFields(co: Coercions, fields: FieldsBody, r: Row, f: string)
    requires forall i :: 0 <= i < |fields| ==> fields[i].0 != f
    ensures Field(AddFieldsRow(co, fields, r), f) == Field(r, f)
  {
    if fields != [] {
      AddedFields(co, fields[..|fields| - 1], r, f);
    }
  }

  ghost predicate TestsAdded(body: MatchBody, fields: FieldsBody) {
    exists i :: 0 <= i < |fields| && TestsField(body, fields[i].0)
  }

  lemma AddFieldsSnoc(co: Coercions, fields: FieldsBody, s: seq<Row>, r: Row)
    ensures AddFields(co, fields, s + [r]) == AddFields(co, fields, s) + [AddFieldsRow(co, fields, r)]
  {
    hide AddFieldsRow;
    assert (s + [r])[..|s|] == s;
  }

  lemma {:induction false} AddFieldsConcat(co: Coercions, fields: FieldsBody, s: seq<Row>, t: seq<Row>)
    ensures AddFields(co, fields, s + t) == AddFields(co, fields, s) + AddFields(co, fields, t)
  {
    hide AddFieldsRow;
    if t == [] {
      assert s + t == s;
    } else {
      var before, last := t[..|t| - 1], t[|t| - 1];
      AddFieldsConcat(co, fields, s, before);
      AddFieldsSnoc(co, fields, s + before, last);
      assert s + t == (s + before) + [last];
      ConcatAssoc(AddFields(co, fields, s), AddFields(co, fields, before), [AddFieldsRow(co, fields, last)]);
    }
  }

  lemma MatchPastAddFieldsRow(co: Coercions, body: MatchBody, fields: FieldsBody, r: Row)
    requires !TestsAdded(body, fields)
    ensures ApplyMatch(co, body, [AddFieldsRow(co, fields, r)]) == AddFields(co, fields, ApplyMatch(co, body, [r]))
  {
    var r' := AddFieldsRow(co, fields, r);
    forall f | TestsField(body, f) ensures Field(r, f) == Field(r', f) {
      AddedFields(co, fields, r, f);
    }
    MatchSeesTestedFields(co, body, r, r');
    assert [r][..0] == [];
    assert AddFields(co, fields, [r]) == [r'];
    FilterOne(r, Matcher(co, body));
    FilterOne(r', Matcher(co, body));
  }

  lemma {:induction false} MatchPastAddFields(co: Coercions, body: MatchBody, fields: FieldsBody, data: seq<Row>)
    requires !TestsAdded(body, fields)
    ensures ApplyMatch(co, body, AddFields(co, fields, data)) == AddFields(co, fields, ApplyMatch(co, body, data))
  {
    if data != [] {
      var before, last := data[..|data| - 1], data[|data| - 1];
      var m := Matcher(co, body);
      MatchPastAddFields(co, body, fields, before);
      MatchPastAddFieldsRow(co, body, fields, last);
      FilterConcat(AddFields(co, fields, before), [AddFieldsRow(co, fields, last)], m);
      assert data == before + [last];
      FilterConcat(before, [last], m);
      AddFieldsConcat(co, fields, Filter(before, m), Filter([last], m));
    }
  }

  // ---------- pushing every match as far forward as it can go ----------

  /** A match right behind this stage may change places with it. */
  ghost predicate Passable(stage: Stage, body: MatchBody) {
    match stage
    case MatchStage(_) => true
    case SortStage(_) => true
    case UnwindStage(f) => f == None || f.value == "" || !TestsField(body, f.value)
    case AddFieldsStage(fields) => !TestsAdded(body, fields)
    case _ => false
  }

  ghost predicate StageConsistent(co: Coercions, stage: Stage, data: seq<Row>) {
    stage.SortStage? ==> Sortable(co, stage.keys, data)
  }

  /** Every sort stage of the run gets rows its comparator is consistent on. */
  ghost predicate RunConsistent(co: Coercions, stages: seq<Stage>, data: seq<Row>) {
    stages == [] ||
    (StageConsistent(co, stages[0], data) && RunConsistent(co, stages[1..], ApplyStage(co, stages[0], data)))
  }

  lemma SwapWithMatch(co: Coercions, stage: Stage, body: MatchBody, data: seq<Row>)
    requires Passable(stage, body) && StageConsistent(co, stage, data)
    ensures ApplyMatch(co, body, ApplyStage(co, stage, data)) == ApplyStage(co, stage, ApplyMatch(co, body, data))
    ensures StageConsistent(co, stage, ApplyMatch(co, body, data))
  {
    match stage
    case MatchStage(other) => FilterSwap(data, Matcher(co, other), Matcher(co, body));
    case SortStage(keys) => MatchPastSort(co, body, keys, data);
    case UnwindStage(f) => if f.Some? && f.value != "" { MatchPastUnwind(co, body, f.value, data); }
    case AddFieldsStage(fields) => MatchPastAddFields(co, body, fields, data);
  }

  /** Put a stage in front of others, behind the leading matches that may pass it. */
  ghost function PutBehindMatches(stage: Stage, rest: seq<Stage>): seq<Stage> {
    if rest != [] && rest[0].MatchStage? && Passable(stage, rest[0].body)
    then [rest[0]] + PutBehindMatches(stage, rest[1..])
    else [stage] + rest
  }

  ghost function Pushdown(stages: seq<Stage>): seq<Stage> {
    if stages == [] then [] else PutBehindMatches(stages[0], Pushdown(stages[1..]))
  }

  lemma {:induction false} PutBehindMatchesSame(co: Coercions, stage: Stage, rest: seq<Stage>, data: seq<Row>)
    requires StageConsistent(co, stage, data)
    ensures Execute(co, PutBehindMatches(stage, rest), data) == Execute(co, rest, ApplyStage(co, stage, data))
    decreases |rest|
  {
    if rest != [] && rest[0].MatchStage? && Passable(stage, rest[0].body) {
      var body := rest[0].body;
      SwapWithMatch(co, stage, body, data);
      PutBehindMatchesSame(co, stage, rest[1..], ApplyMatch(co, body, data));
    }
  }

  /** Filter pushdown preserves meaning: the rewritten pipeline yields the same rows in the same order. */
  lemma {:induction false} PushdownSame(co: Coercions, stages: seq<Stage>, data: seq<Row>)
    requires RunConsistent(co, stages, data)
    ensures Execute(co, Pushdown(stages), data) == Execute(co, stages, data)
    decreases |stages|
  {
    if stages != [] {
      PutBehindMatchesSame(co, stages[0], Pushdown(stages[1..]), data);
      PushdownSame(co, stages[1..], ApplyStage(co, stages[0], data));
    }
  }

  /** Nothing is left to push: no match stands right behind a stage it may pass. */
  ghost predicate Settled(stages: seq<Stage>) {
    forall i :: 0 <= i < |stages| - 1 && stages[i + 1].MatchStage? && !stages[i].MatchStage? ==>
      !Passable(stages[i], stages[i + 1].body)
  }

  lemma {:induction false} PutBehindMatchesSettled(stage: Stage, rest: seq<Stage>)
    requires Settled(rest)
    ensures Settled(PutBehindMatches(stage, rest)) && |PutBehindMatches(stage, rest)| == |rest| + 1
  {
    if rest != [] && rest[0].MatchStage? && Passable(stage, rest[0].body) {
      assert Settled(rest[1..]) by {
        assert forall i :: 0 <= i < |rest| - 1 ==> rest[1..][i] == rest[i + 1];
      }
      PutBehindMatchesSettled(stage, rest[1..]);
    }
  }

  lemma {:induction false} PushdownSettled(stages: seq<Stage>)
    ensures Settled(Pushdown(stages)) && |Pushdown(stages)| == |stages|
  {
    if stages != [] {
      PushdownSettled(stages[1..]);
      PutBehindMatchesSettled(stages[0], Pushdown(stages[1..]));
    }
  }

  // ---------- group ----------

  function Keys(gs: seq<Group>): seq<Value> {
    if gs == [] then [] else [gs[0].key] + Keys(gs[1..])
  }

  function RecordsOf(gs: seq<Group>, key: Value): seq<Row> {
    if gs == [] then [] else if gs[0].key == key then gs[0].records else RecordsOf(gs[1..], key)
  }

  function InGroup(groupField: Option<string>, key: Value): Row -> bool {
    r => GroupKey(groupField, r) == key
  }

  /** The group keys of the rows in the order of their first occurrence. */
  function FirstKeys(groupField: Option<string>, data: seq<Row>): seq<Value> {
    if data == [] then []
    else
      var before := FirstKeys(groupField, data[..|data| - 1]);
      var key := GroupKey(groupField, data[|data| - 1]);
      if key in before then before else before + [key]
  }

  function GroupSums(co: Coercions, f: string, gs: seq<Group>): real {
    if gs == [] then 0.0 else SumField(co, f, gs[0].records) + GroupSums(co, f, gs[1..])
  }

  function GroupCounts(gs: seq<Group>): nat {
    if gs == [] then 0 else |gs[0].records| + GroupCounts(gs[1..])
  }

  lemma {:induction false} AddToGroupsFacts(gs: seq<Group>, key: Value, r: Row, key': Value)
    ensures RecordsOf(AddToGroups(gs, key, r), key') == RecordsOf(gs, key') + if key == key' then [r] else []
    ensures Keys(AddToGroups(gs, key, r)) == Keys(gs) + if key in Keys(gs) then [] else [key]
  {
    if gs != [] && gs[0].key != key {
      AddToGroupsFacts(gs[1..], key, r, key');
      assert AddToGroups(gs, key, r)[1..] == AddToGroups(gs[1..], key, r);
    }
  }

  lemma {:induction false} AddToGroupsSums(co: Coercions, f: string, gs: seq<Group>, key: Value, r: Row)
    ensures GroupSums(co, f, AddToGroups(gs, key, r)) == GroupSums(co, f, gs) + NumOrZero(co, Field(r, f))
    ensures GroupCounts(AddToGroups(gs, key, r)) == GroupCounts(gs) + 1
  {
    if gs == [] {
      assert [r][..0] == [];
      assert SumField(co, f, [r]) == NumOrZero(co, Field(r, f));
      assert [Group(key, [r])][1..] == [];
    } else if gs[0].key == key {
      assert (gs[0].records + [r])[..|gs[0].records|] == gs[0].records;
    } else {
      AddToGroupsSums(co, f, gs[1..], key, r);
    }
  }

  lemma FilterLast(data: seq<Row>, keep: Row -> bool)
    requires data != []
    ensures Filter(data, keep)
         == Filter(data[..|data| - 1], keep) + if keep(data[|data| - 1]) then [data[|data| - 1]] else []
  {
    FilterStep(data, keep, |data| - 1);
    assert data[..|data|] == data;
  }

  lemma {:induction false} GroupRecords(groupField: Option<string>, data: seq<Row>, key: Value)
    ensures RecordsOf(GroupsOf(groupField, data), key) == Filter(data, InGroup(groupField, key))
    ensures Keys(GroupsOf(groupField, data)) == FirstKeys(groupField, data)
  {
    if data != [] {
      hide AddToGroups, RecordsOf, Keys, GroupKey, Filter;
      var before, last := data[..|data| - 1], data[|data| - 1];
      GroupRecords(groupField, before, key);
      AddToGroupsFacts(GroupsOf(groupField, before), GroupKey(groupField, last), last, key);
      FilterLast(data, InGroup(groupField, key));
    }
  }

  lemma {:induction false} FirstKeysDistinct(groupField: Option<string>, data: seq<Row>)
    ensures var ks := FirstKeys(groupField, data);
      (forall i, j :: 0 <= i < j < |ks| ==> ks[i] != ks[j]) && forall r :: r in data ==> GroupKey(groupField, r) in ks
  {
    if data != [] {
      FirstKeysDistinct(groupField, data[..|data| - 1]);
      assert data == data[..|data| - 1] + [data[|data| - 1]];
    }
  }

  lemma {:induction false} RecordsAt(gs: seq<Group>, i: nat)
    requires i < |gs| && forall a, b :: 0 <= a < b < |Keys(gs)| ==> Keys(gs)[a] != Keys(gs)[b]
    ensures |Keys(gs)| == |gs| && Keys(gs)[i] == gs[i].key && RecordsOf(gs, gs[i].key) == gs[i].records
  {
    if i == 0 {
      KeysLength(gs);
    } else {
      assert Keys(gs)[1..] == Keys(gs[1..]);
      assert forall a :: 0 <= a < |Keys(gs[1..])| ==> Keys(gs[1..])[a] == Keys(gs)[a + 1];
      KeysLength(gs);
      RecordsAt(gs[1..], i - 1);
      assert Keys(gs)[i] == Keys(gs[1..])[i - 1];
      assert Keys(gs)[0] != Keys(gs)[i];
    }
  }

  lemma {:induction false} KeysLength(gs: seq<Group>)
    ensures |Keys(gs)| == |gs|
  {
    if gs != [] { KeysLength(gs[1..]); }
  }

  /**
   Grouping is an exact partition: one group per key in order of first occurrence, holding exactly the rows of
   that key in their order. For a key a match can test, those are the rows a match on the group field selects.
   */
  lemma GroupingIsPartition(co: Coercions, groupField: Option<string>, data: seq<Row>, i: nat)
    requires i < |GroupsOf(groupField, data)|
    ensures var g := GroupsOf(groupField, data)[i];
      && |FirstKeys(groupField, data)| == |GroupsOf(groupField, data)| && FirstKeys(groupField, data)[i] == g.key
      && g.records == Filter(data, InGroup(groupField, g.key))
      && (groupField.Some? && groupField.value != "" && StrictEq(g.key, g.key) ==>
            g.records == ApplyMatch(co, [(groupField.value, Is(g.key))], data))
  {
    var gs := GroupsOf(groupField, data);
    GroupRecords(groupField, data, gs[i].key);
    FirstKeysDistinct(groupField, data);
    RecordsAt(gs, i);
    if groupField.Some? && groupField.value != "" && StrictEq(gs[i].key, gs[i].key) {
      var body: MatchBody := [(groupField.value, Is(gs[i].key))];
      forall r | r in data ensures InGroup(groupField, gs[i].key)(r) == Matcher(co, body)(r) {
        assert Matches(co, body, r) == Meets(co, Field(r, body[0].0), body[0].1);
      }
      FilterSame(data, InGroup(groupField, gs[i].key), Matcher(co, body));
    }
  }

  /** Per-group counts and sums add up to those of the whole input. */
  lemma {:induction false} GroupingConserves(co: Coercions, f: string, groupField: Option<string>, data: seq<Row>)
    ensures GroupSums(co, f, GroupsOf(groupField, data)) == SumField(co, f, data)
    ensures GroupCounts(GroupsOf(groupField, data)) == |data|
  {
    if data != [] {
      var before, last := data[..|data| - 1], data[|data| - 1];
      GroupingConserves(co, f, groupField, before);
      AddToGroupsSums(co, f, GroupsOf(groupField, before), GroupKey(groupField, last), last);
    }
  }

  /** A group row reports, under each alias, the aggregate over exactly the rows of its key. */
  lemma {:induction false} GroupRowReports(
    co: Coercions, aggregates: seq<(string, Aggregate)>, key: Value, rs: seq<Row>, i: nat)
    requires i < |aggregates| && aggregates[i].0 != "_id"
    requires forall j :: i < j < |aggregates| ==> aggregates[j].0 != aggregates[i].0
    ensures var row := FillRow(co, aggregates, key, rs);
      Field(row, aggregates[i].0) == AggregateOf(co, aggregates[i].1, rs)
        && Field(row, "_id") == if key == ALL then Null else key
  {
    var n := |aggregates| - 1;
    if i < n {
      GroupRowReports(co, aggregates[..n], key, rs, i);
    } else {
      GroupRowId(co, aggregates[..n], key, rs);
    }
  }

  lemma {:induction false} GroupRowId(co: Coercions, aggregates: seq<(string, Aggregate)>, key: Value, rs: seq<Row>)
    ensures Field(FillRow(co, aggregates, key, rs), "_id") == if key == ALL then Null else key
  {
    if aggregates != [] { GroupRowId(co, aggregates[..|aggregates| - 1], key, rs); }
  }
}
