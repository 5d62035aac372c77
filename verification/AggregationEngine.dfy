/** The stages that the source computes with loops over local arrays and maps, and the pipeline fold. */
module AggregationEngine {
  import opened Options
  import opened Aggregation

  method UnwindRecord(field: string, record: Row, items: seq<Value>) returns (rows: seq<Row>)
    ensures rows == UnwindItems(field, record, items)
  {
    rows := [];
    for j := 0 to |items|
      invariant rows == UnwindItems(field, record, items[..j])
    {
      rows := rows + [record[field := items[j]]];
      assert items[..j + 1][..j] == items[..j];
    }
    assert items[..|items|] == items;
  }

  method UnwindRows(field: Option<string>, data: seq<Row>) returns (results: seq<Row>)
    ensures results == Unwind(field, data)
  {
    if field.None? || field.value == "" {
      return data;
    }
    results := [];
    for i := 0 to |data|
      invariant results == UnwindAll(field.value, data[..i])
    {
      var value := Field(data[i], field.value);
      if value.Arr? {
        var rows := UnwindRecord(field.value, data[i], value.items);
        results := results + rows;
      } else {
        results := results + [data[i]];
      }
      assert data[..i + 1][..i] == data[..i];
    }
    assert data[..|data|] == data;
  }

  method AddFieldsToRows(co: Coercions, body: FieldsBody, data: seq<Row>) returns (rows: seq<Row>)
    ensures rows == AddFields(co, body, data)
  {
    rows := [];
    for i := 0 to |data|
      invariant rows == AddFields(co, body, data[..i])
    {
      var record := data[i];
      var row := record;
      for j := 0 to |body|
        invariant row == AddFieldsRow(co, body[..j], record)
      {
        row := row[body[j].0 := Evaluate(co, record, body[j].1)];
        assert body[..j + 1][..j] == body[..j];
      }
      assert body[..|body|] == body;
      rows := rows + [row];
      assert data[..i + 1][..i] == data[..i];
    }
    assert data[..|data|] == data;
  }

  lemma {:induction false} AddToGroupsAt(groups: seq<Group>, key: Value, record: Row, at: nat)
    requires at <= |groups| && (forall i :: 0 <= i < at ==> groups[i].key != key)
    requires at < |groups| ==> groups[at].key == key
    ensures AddToGroups(groups, key, record) ==
            if at == |groups| then groups + [Group(key, [record])]
            else groups[at := Group(key, groups[at].records + [record])]
  {
    if at > 0 {
      AddToGroupsAt(groups[1..], key, record, at - 1);
      assert groups == [groups[0]] + groups[1..];
    }
  }

  /** `groups` is the source's insertion-ordered Map from keys to arrays of records. */
  method AddRecord(groups: seq<Group>, key: Value, record: Row) returns (updated: seq<Group>)
    ensures updated == AddToGroups(groups, key, record)
  {
    var at := 0;
    while at < |groups| && groups[at].key != key
      invariant 0 <= at <= |groups|
      invariant forall i :: 0 <= i < at ==> groups[i].key != key
    {
      at := at + 1;
    }
    AddToGroupsAt(groups, key, record, at);
    if at == |groups| {
      updated := groups + [Group(key, [record])];
    } else {
      updated := groups[at := Group(key, groups[at].records + [record])];
    }
  }

  method ReportGroup(co: Coercions, aggregates: seq<(string, Aggregate)>, group: Group) returns (row: Row)
    ensures row == FillRow(co, aggregates, group.key, group.records)
  {
    row := map["_id" := if group.key == ALL then Null else group.key];
    for j := 0 to |aggregates|
      invariant row == FillRow(co, aggregates[..j], group.key, group.records)
    {
      var (alias, expr) := aggregates[j];
      if alias != "_id" {
        row := row[alias := AggregateOf(co, expr, group.records)];
      }
      assert aggregates[..j + 1][..j] == aggregates[..j];
    }
    assert aggregates[..|aggregates|] == aggregates;
  }

  method GroupData(co: Coercions, body: GroupBody, data: seq<Row>) returns (results: seq<Row>)
    ensures results == ApplyGroup(co, body, data)
  {
    var groups: seq<Group> := [];
    for i := 0 to |data|
      invariant groups == GroupsOf(body.groupField, data[..i])
    {
      groups := AddRecord(groups, GroupKey(body.groupField, data[i]), data[i]);
      assert data[..i + 1][..i] == data[..i];
    }
    assert data[..|data|] == data;

    results := [];
    for i := 0 to |groups|
      invariant results == GroupRows(co, body, groups[..i])
    {
      var row := ReportGroup(co, body.aggregates, groups[i]);
      results := results + [row];
    }
    assert groups[..|groups|] == groups;
  }

  /** Refused when the pipeline has no stage or too many; otherwise the stages in turn. */
  method Run(co: Coercions, maxStages: int, stages: seq<Stage>, data: seq<Row>) returns (result: Option<seq<Row>>)
    ensures result == if 0 < |stages| <= maxStages then Some(Execute(co, stages, data)) else None
  {
    if |stages| == 0 || |stages| > maxStages {
      return None;
    }
    var rows := data;
    for i := 0 to |stages|
      invariant Execute(co, stages[i..], rows) == Execute(co, stages, data)
    {
      match stages[i]
      case UnwindStage(f) => rows := UnwindRows(f, rows);
      case AddFieldsStage(body) => rows := AddFieldsToRows(co, body, rows);
      case GroupStage(body) => rows := GroupData(co, body, rows);
      case _ => rows := ApplyStage(co, stages[i], rows);
    }
    result := Some(rows);
  }
}
