/** A match on `_id` behind a group stage, and the match on the group field in front of it. */
module AggregationGroups {
  import opened Options
  import opened Lists
  import opened Aggregation
  import opened AggregationLaws

  /** What the result row of a group holds under `_id`. */
  function IdOf(key: Value): Value { if key == ALL then Null else key }

  function IdMeets(co: Coercions, c: Condition): Group -> bool { (g: Group) => Meets(co, IdOf(g.key), c) }

  function KeyMeets(co: Coercions, c: Condition): Group -> bool { (g: Group) => Meets(co, g.key, c) }

  function OnField(field: string, c: Condition): MatchBody { [(field, c)] }

  lemma OneTest(co: Coercions, field: string, c: Condition, r: Row)
    ensures Matches(co, OnField(field, c), r) <==> Meets(co, Field(r, field), c)
  {
    assert OnField(field, c)[0] == (field, c);
  }

  // ---------- the match behind the group stage ----------

  lemma {:induction false} RowsMatched(co: Coercions, body: GroupBody, gs: seq<Group>, c: Condition)
    ensures ApplyMatch(co, OnField("_id", c), GroupRows(co, body, gs))
         == GroupRows(co, body, Filter(gs, IdMeets(co, c)))
  {
    if gs != [] {
      hide FillRow, Meets, Matches, OnField;
      RowsMatched(co, body, gs[1..], c);
      var (rows, row) := (GroupRows(co, body, gs), FillRow(co, body.aggregates, gs[0].key, gs[0].records));
      assert rows[1..] == GroupRows(co, body, gs[1..]);
      GroupRowId(co, body.aggregates, gs[0].key, gs[0].records);
      OneTest(co, "_id", c, row);
      HeadRow(co, body, gs[0], Filter(gs[1..], IdMeets(co, c)));
    }
  }

  lemma HeadRow(co: Coercions, body: GroupBody, g: Group, gs: seq<Group>)
    ensures GroupRows(co, body, [g] + gs)
         == [FillRow(co, body.aggregates, g.key, g.records)] + GroupRows(co, body, gs)
  {
    hide FillRow;
  }

  // ---------- the match in front of it ----------

  lemma {:induction false} AddFiltered(gs: seq<Group>, key: Value, r: Row, co: Coercions, c: Condition)
    ensures Filter(AddToGroups(gs, key, r), KeyMeets(co, c))
         == if Meets(co, key, c) then AddToGroups(Filter(gs, KeyMeets(co, c)), key, r) else Filter(gs, KeyMeets(co, c))
  {
    hide Meets;
    if gs == [] {
      FilterOne(Group(key, [r]), KeyMeets(co, c));
    } else if gs[0].key == key {
      assert AddToGroups(gs, key, r)[1..] == gs[1..];
    } else {
      AddFiltered(gs[1..], key, r, co, c);
      assert AddToGroups(gs, key, r)[1..] == AddToGroups(gs[1..], key, r);
    }
  }

  lemma GroupsOfSnoc(field: string, data: seq<Row>, r: Row)
    requires field != ""
    ensures GroupsOf(Some(field), data + [r]) == AddToGroups(GroupsOf(Some(field), data), Field(r, field), r)
  {
    hide AddToGroups;
    assert (data + [r])[..|data|] == data;
  }

  lemma MatchSnoc(co: Coercions, field: string, c: Condition, data: seq<Row>, r: Row)
    ensures ApplyMatch(co, OnField(field, c), data + [r])
         == ApplyMatch(co, OnField(field, c), data) + if Meets(co, Field(r, field), c) then [r] else []
  {
    hide Meets, Matches, Filter, OnField;
    var longer := data + [r];
    FilterLast(longer, Matcher(co, OnField(field, c)));
    assert longer[..|longer| - 1] == data && longer[|longer| - 1] == r;
    OneTest(co, field, c, r);
  }

  lemma {:induction false} GroupsOfMatched(co: Coercions, field: string, c: Condition, data: seq<Row>)
    requires field != ""
    ensures GroupsOf(Some(field), ApplyMatch(co, OnField(field, c), data))
         == Filter(GroupsOf(Some(field), data), KeyMeets(co, c))
  {
    if data == [] {
      assert Filter([], KeyMeets(co, c)) == [];
    } else {
      hide Meets, ApplyMatch, Filter, AddToGroups, OnField, GroupsOf;
      var (before, last) := (data[..|data| - 1], data[|data| - 1]);
      var found := ApplyMatch(co, OnField(field, c), before);
      assert data == before + [last] && found + [] == found;
      GroupsOfMatched(co, field, c, before);
      MatchSnoc(co, field, c, before, last);
      AddFiltered(GroupsOf(Some(field), before), Field(last, field), last, co, c);
      GroupsOfSnoc(field, before, last);
      GroupsOfSnoc(field, found, last);
    }
  }

  // ---------- when the two agree ----------

  /** The one key the result rows show as null: the text the stage uses for no grouping. */
  ghost predicate KeysTellApart(co: Coercions, field: string, c: Condition, data: seq<Row>) {
    (exists r :: r in data && Field(r, field) == ALL) ==> (Meets(co, Null, c) <==> Meets(co, ALL, c))
  }

  lemma {:induction false} FewerByOne(gs: seq<Group>, p: Group -> bool, q: Group -> bool, i: nat)
    requires i < |gs| && p(gs[i]) != q(gs[i])
    requires forall j :: 0 <= j < |gs| && j != i ==> p(gs[j]) == q(gs[j])
    ensures |Filter(gs, p)| != |Filter(gs, q)|
  {
    if i == 0 {
      forall g | g in gs[1..] ensures p(g) == q(g) {
        var j :| 0 <= j < |gs| - 1 && gs[1..][j] == g;
        assert gs[j + 1] == g;
      }
      FilterSame(gs[1..], p, q);
    } else {
      assert forall j :: 0 <= j < |gs| - 1 ==> gs[1..][j] == gs[j + 1];
      assert p(gs[0]) == q(gs[0]);
      FewerByOne(gs[1..], p, q, i - 1);
    }
  }

  lemma KeyIsSomewhere(field: string, data: seq<Row>, i: nat)
    requires field != "" && i < |GroupsOf(Some(field), data)|
    ensures exists r :: r in data && Field(r, field) == GroupsOf(Some(field), data)[i].key
  {
    var g := GroupsOf(Some(field), data)[i];
    KeysCome(field, data, g.key);
    GroupRecords(Some(field), data, g.key);
    KeysOfAt(GroupsOf(Some(field), data), i);
    hide FirstKeys, GroupsOf;
  }

  lemma {:induction false} KeysOfAt(gs: seq<Group>, i: nat)
    requires i < |gs|
    ensures i < |Keys(gs)| && Keys(gs)[i] == gs[i].key && |Keys(gs)| == |gs|
  {
    KeysLength(gs);
    if i > 0 { KeysOfAt(gs[1..], i - 1); }
  }

  lemma {:induction false} KeysCome(field: string, data: seq<Row>, key: Value)
    requires field != ""
    ensures key in FirstKeys(Some(field), data) ==> exists r :: r in data && Field(r, field) == key
  {
    if data != [] {
      var (before, last) := (data[..|data| - 1], data[|data| - 1]);
      KeysCome(field, before, key);
      assert last in data && forall r :: r in before ==> r in data;
    }
  }

  lemma DistinctGroupKeys(field: string, data: seq<Row>, i: nat, j: nat)
    requires i < |GroupsOf(Some(field), data)| && j < |GroupsOf(Some(field), data)| && i != j
    ensures GroupsOf(Some(field), data)[i].key != GroupsOf(Some(field), data)[j].key
  {
    var gs := GroupsOf(Some(field), data);
    KeysOfAt(gs, i);
    KeysOfAt(gs, j);
    GroupRecords(Some(field), data, ALL);
    FirstKeysDistinct(Some(field), data);
    hide GroupsOf, FirstKeys;
    if i < j { assert Keys(gs)[i] != Keys(gs)[j]; } else { assert Keys(gs)[j] != Keys(gs)[i]; }
  }

  lemma SomeGroupOf(field: string, data: seq<Row>, r: Row) returns (i: nat)
    requires field != "" && r in data
    ensures i < |GroupsOf(Some(field), data)| && GroupsOf(Some(field), data)[i].key == Field(r, field)
  {
    var gs := GroupsOf(Some(field), data);
    GroupRecords(Some(field), data, ALL);
    FirstKeysDistinct(Some(field), data);
    KeysLength(gs);
    hide GroupsOf, FirstKeys;
    assert GroupKey(Some(field), r) in Keys(gs);
    i :| 0 <= i < |Keys(gs)| && Keys(gs)[i] == Field(r, field);
    KeysOfAt(gs, i);
  }

  /** The groups the two matches select are the same exactly when no key of the input tells them apart. */
  lemma SelectedGroups(co: Coercions, field: string, c: Condition, data: seq<Row>)
    requires field != ""
    ensures var gs := GroupsOf(Some(field), data);
      if KeysTellApart(co, field, c, data) then Filter(gs, IdMeets(co, c)) == Filter(gs, KeyMeets(co, c))
      else |Filter(gs, IdMeets(co, c))| != |Filter(gs, KeyMeets(co, c))|
  {
    hide Meets, GroupsOf, Filter;
    var gs := GroupsOf(Some(field), data);
    if KeysTellApart(co, field, c, data) {
      forall g | g in gs ensures IdMeets(co, c)(g) == KeyMeets(co, c)(g) {
        var i :| 0 <= i < |gs| && gs[i] == g;
        KeyIsSomewhere(field, data, i);
      }
      FilterSame(gs, IdMeets(co, c), KeyMeets(co, c));
    } else {
      var r :| r in data && Field(r, field) == ALL;
      var i := SomeGroupOf(field, data, r);
      forall j | 0 <= j < |gs| && j != i ensures IdMeets(co, c)(gs[j]) == KeyMeets(co, c)(gs[j]) {
        DistinctGroupKeys(field, data, i, j);
      }
      FewerByOne(gs, IdMeets(co, c), KeyMeets(co, c), i);
    }
  }

  /**
   A match on `_id` behind a group stage may move in front of it, as a match on the group field, exactly when no row has
   the key `__all__`, or the condition does not tell that text from null.
   */
  lemma MatchPastGroupIff(co: Coercions, body: GroupBody, c: Condition, data: seq<Row>)
    requires body.groupField.Some? && body.groupField.value != ""
    ensures ApplyMatch(co, OnField("_id", c), ApplyGroup(co, body, data))
         == ApplyGroup(co, body, ApplyMatch(co, OnField(body.groupField.value, c), data))
      <==> KeysTellApart(co, body.groupField.value, c, data)
  {
    var field := body.groupField.value;
    hide Meets, Filter, GroupsOf, FillRow, ApplyMatch;
    assert body.groupField == Some(field);
    RowsMatched(co, body, GroupsOf(Some(field), data), c);
    GroupsOfMatched(co, field, c, data);
    SelectedGroups(co, field, c, data);
  }
}
