/**
 The in-memory aggregation pipeline: stages over rows with top-level fields.
 Numbers are exact. How a string reads as a number and how a value prints inside text are parameters
 (`Coercions`): every law holds whatever they are.
 */
module Aggregation {
  import opened Options
  import opened Lists

  datatype Value = Undefined | Null | NaN | Num(x: real) | Str(s: string) | Arr(items: seq<Value>)

  type Row = map<string, Value>

  datatype Coercions = Coercions(num: string -> Option<real>, text: Value -> string)

  function Field(r: Row, f: string): Value {
    if f in r then r[f] else Undefined
  }

  // ---------- JavaScript operators ----------

  function ToNum(co: Coercions, v: Value): Option<real> {
    match v
    case Undefined => None
    case NaN => None
    case Null => Some(0.0)
    case Num(x) => Some(x)
    case Str(s) => co.num(s)
    case Arr(_) => co.num(co.text(v))
  }

  /** `Number(v) || 0` */
  function NumOrZero(co: Coercions, v: Value): real {
    match ToNum(co, v) case Some(x) => x case None => 0.0
  }

  function StrLess(a: string, b: string): bool {
    if b == [] then false
    else if a == [] then true
    else a[0] < b[0] || (a[0] == b[0] && StrLess(a[1..], b[1..]))
  }

  predicate Textual(v: Value) { v.Str? || v.Arr? }

  function AsText(co: Coercions, v: Value): string
    requires Textual(v)
  {
    if v.Str? then v.s else co.text(v)
  }

  /** `a < b` */
  predicate Less(co: Coercions, a: Value, b: Value) {
    if Textual(a) && Textual(b) then StrLess(AsText(co, a), AsText(co, b))
    else
      var (x, y) := (ToNum(co, a), ToNum(co, b));
      x.Some? && y.Some? && x.value < y.value
  }

  /** `a <= b`: not the negation of `b < a`, because nothing compares with NaN. */
  predicate LessEq(co: Coercions, a: Value, b: Value) {
    if Textual(a) && Textual(b) then !StrLess(AsText(co, b), AsText(co, a))
    else
      var (x, y) := (ToNum(co, a), ToNum(co, b));
      x.Some? && y.Some? && x.value <= y.value
  }

  /** `a === b`: an array of a stage body is never the array of a record. */
  predicate StrictEq(a: Value, b: Value) {
    a == b && !a.NaN? && !a.Arr?
  }

  // ---------- match ----------

  datatype Test = Gt(v: Value) | Gte(v: Value) | Lt(v: Value) | Lte(v: Value) | Ne(v: Value)
    | In(vs: seq<Value>) | Unknown

  datatype Condition = Is(v: Value) | Tests(tests: seq<Test>)

  type MatchBody = seq<(string, Condition)>

  predicate Passes(co: Coercions, v: Value, t: Test) {
    match t
    case Gt(w) => Less(co, w, v)
    case Gte(w) => LessEq(co, w, v)
    case Lt(w) => Less(co, v, w)
    case Lte(w) => LessEq(co, v, w)
    case Ne(w) => !StrictEq(v, w)
    case In(ws) => !v.Arr? && v in ws
    case Unknown => false
  }

  predicate Meets(co: Coercions, v: Value, c: Condition) {
    match c
    case Is(w) => StrictEq(v, w)
    case Tests(ts) => forall t :: t in ts ==> Passes(co, v, t)
  }

  predicate Matches(co: Coercions, body: MatchBody, r: Row) {
    forall i :: 0 <= i < |body| ==> Meets(co, Field(r, body[i].0), body[i].1)
  }

  function Matcher(co: Coercions, body: MatchBody): Row -> bool {
    r => Matches(co, body, r)
  }

  function ApplyMatch(co: Coercions, body: MatchBody, data: seq<Row>): seq<Row> {
    Filter(data, Matcher(co, body))
  }

  predicate TestsField(body: MatchBody, f: string) {
    exists i :: 0 <= i < |body| && body[i].0 == f
  }

  // ---------- sort ----------

  datatype SortKey = SortKey(field: string, descending: bool)

  function Compare(co: Coercions, keys: seq<SortKey>, a: Row, b: Row): int {
    if keys == [] then 0
    else
      var (x, y) := (Field(a, keys[0].field), Field(b, keys[0].field));
      var dir := if keys[0].descending then -1 else 1;
      if Less(co, x, y) then -1 * dir
      else if Less(co, y, x) then 1 * dir
      else Compare(co, keys[1..], a, b)
  }

  function AtMost(co: Coercions, keys: seq<SortKey>): (Row, Row) -> bool {
    (a, b) => Compare(co, keys, a, b) <= 0
  }

  /** The rows in a JavaScript array's stable sort order; `Lists.StableSortUnique` says there is only one. */
  function ApplySort(co: Coercions, keys: seq<SortKey>, data: seq<Row>): seq<Row> {
    Sort(data, AtMost(co, keys))
  }

  // ---------- limit and skip: Array.slice ----------

  function ApplyLimit(n: int, data: seq<Row>): seq<Row> {
    var upto := if n < 0 then |data| + n else n;
    data[..if upto < 0 then 0 else if upto > |data| then |data| else upto]
  }

  function ApplySkip(n: int, data: seq<Row>): seq<Row> {
    var from := if n < 0 then |data| + n else n;
    data[if from < 0 then 0 else if from > |data| then |data| else from..]
  }

  // ---------- unwind ----------

  function UnwindItems(field: string, r: Row, items: seq<Value>): seq<Row> {
    if items == [] then [] else UnwindItems(field, r, items[..|items| - 1]) + [r[field := items[|items| - 1]]]
  }

  function UnwindRow(field: string, r: Row): seq<Row> {
    match Field(r, field)
    case Arr(items) => UnwindItems(field, r, items)
    case _ => [r]
  }

  function UnwindAll(field: string, data: seq<Row>): seq<Row> {
    if data == [] then [] else UnwindAll(field, data[..|data| - 1]) + UnwindRow(field, data[|data| - 1])
  }

  function Unwind(field: Option<string>, data: seq<Row>): seq<Row> {
    if field.Some? && field.value != "" then UnwindAll(field.value, data) else data
  }

  // ---------- addFields ----------

  datatype Operand = Ref(field: string) | Lit(v: Value)

  datatype Expr = Const(v: Value) | FieldOf(field: string)
    | Concat(args: seq<Operand>) | Multiply(args: seq<Operand>) | Add(args: seq<Operand>) | UnknownExpr

  function Operate(r: Row, a: Operand): Value {
    match a case Ref(f) => Field(r, f) case Lit(v) => v
  }

  function Joined(co: Coercions, r: Row, args: seq<Operand>): string {
    if args == [] then ""
    else
      var v := Operate(r, args[0]);
      (if v.Null? || v.Undefined? then "" else co.text(v)) + Joined(co, r, args[1..])
  }

  function Product(co: Coercions, r: Row, args: seq<Operand>): real {
    if args == [] then 1.0 else NumOrZero(co, Operate(r, args[0])) * Product(co, r, args[1..])
  }

  function Total(co: Coercions, r: Row, args: seq<Operand>): real {
    if args == [] then 0.0 else NumOrZero(co, Operate(r, args[0])) + Total(co, r, args[1..])
  }

  function Evaluate(co: Coercions, r: Row, e: Expr): Value {
    match e
    case Const(v) => v
    case FieldOf(f) => Field(r, f)
    case Concat(args) => Str(Joined(co, r, args))
    case Multiply(args) => Num(Product(co, r, args))
    case Add(args) => Num(Total(co, r, args))
    case UnknownExpr => Null
  }

  type FieldsBody = seq<(string, Expr)>

  /** Every expression reads the original record, also when an earlier one replaced a field. */
  function AddFieldsRow(co: Coercions, body: FieldsBody, r: Row): Row {
    if body == [] then r
    else AddFieldsRow(co, body[..|body| - 1], r)[body[|body| - 1].0 := Evaluate(co, r, body[|body| - 1].1)]
  }

  function AddFields(co: Coercions, body: FieldsBody, data: seq<Row>): seq<Row> {
    if data == [] then [] else AddFields(co, body, data[..|data| - 1]) + [AddFieldsRow(co, body, data[|data| - 1])]
  }

  // ---------- group ----------

  datatype Aggregate = SumConst(n: real) | SumOf(field: string) | AvgOf(field: string)
    | MinOf(field: string) | MaxOf(field: string)
    | Count | UnknownAggregate

  datatype GroupBody = GroupBody(groupField: Option<string>, aggregates: seq<(string, Aggregate)>)

  datatype Group = Group(key: Value, records: seq<Row>)

  const ALL := Str("__all__")

  function GroupKey(groupField: Option<string>, r: Row): Value {
    if groupField.Some? && groupField.value != "" then Field(r, groupField.value) else ALL
  }

  function AddToGroups(gs: seq<Group>, key: Value, r: Row): seq<Group> {
    if gs == [] then [Group(key, [r])]
    else if gs[0].key == key then [Group(key, gs[0].records + [r])] + gs[1..]
    else [gs[0]] + AddToGroups(gs[1..], key, r)
  }

  function GroupsOf(groupField: Option<string>, data: seq<Row>): seq<Group> {
    if data == [] then []
    else
      var r := data[|data| - 1];
      AddToGroups(GroupsOf(groupField, data[..|data| - 1]), GroupKey(groupField, r), r)
  }

  function SumField(co: Coercions, f: string, rs: seq<Row>): real {
    if rs == [] then 0.0 else SumField(co, f, rs[..|rs| - 1]) + NumOrZero(co, Field(rs[|rs| - 1], f))
  }

  /** The non-null values of a field as numbers; no number at all when one of them is not numeric. */
  function Numbers(co: Coercions, f: string, rs: seq<Row>): Option<seq<real>> {
    if rs == [] then Some([])
    else
      var v := Field(rs[0], f);
      var rest := Numbers(co, f, rs[1..]);
      if v.Null? || v.Undefined? then rest
      else if rest.None? || ToNum(co, v).None? then None
      else Some([ToNum(co, v).value] + rest.value)
  }

  function Least(xs: seq<real>): (m: real)
    requires xs != []
    ensures m in xs && forall x :: x in xs ==> m <= x
  {
    assert xs == [xs[0]] + xs[1..];
    if |xs| == 1 then xs[0] else var m := Least(xs[1..]); if xs[0] < m then xs[0] else m
  }

  function Greatest(xs: seq<real>): (m: real)
    requires xs != []
    ensures m in xs && forall x :: x in xs ==> x <= m
  {
    assert xs == [xs[0]] + xs[1..];
    if |xs| == 1 then xs[0] else var m := Greatest(xs[1..]); if xs[0] > m then xs[0] else m
  }

  function AggregateOf(co: Coercions, a: Aggregate, rs: seq<Row>): Value {
    match a
    case SumConst(n) => Num(|rs| as real * n)
    case SumOf(f) => Num(SumField(co, f, rs))
    case AvgOf(f) => if rs == [] then Num(0.0) else Num(SumField(co, f, rs) / |rs| as real)
    case MinOf(f) =>
      (match Numbers(co, f, rs)
       case None => NaN
       case Some(xs) => if xs == [] then Null else Num(Least(xs)))
    case MaxOf(f) =>
      (match Numbers(co, f, rs)
       case None => NaN
       case Some(xs) => if xs == [] then Null else Num(Greatest(xs)))
    case Count => Num(|rs| as real)
    case UnknownAggregate => Null
  }

  function FillRow(co: Coercions, aggregates: seq<(string, Aggregate)>, key: Value, rs: seq<Row>): Row {
    if aggregates == [] then map["_id" := if key == ALL then Null else key]
    else
      var last := aggregates[|aggregates| - 1];
      var row := FillRow(co, aggregates[..|aggregates| - 1], key, rs);
      if last.0 == "_id" then row else row[last.0 := AggregateOf(co, last.1, rs)]
  }

  function GroupRows(co: Coercions, body: GroupBody, gs: seq<Group>): seq<Row> {
    seq(|gs|, i requires 0 <= i < |gs| => FillRow(co, body.aggregates, gs[i].key, gs[i].records))
  }

  function ApplyGroup(co: Coercions, body: GroupBody, data: seq<Row>): seq<Row> {
    GroupRows(co, body, GroupsOf(body.groupField, data))
  }

  // ---------- pipelines ----------

  datatype Stage =
    | MatchStage(body: MatchBody)
    | GroupStage(group: GroupBody)
    | SortStage(keys: seq<SortKey>)
    | LimitStage(limit: int)
    | SkipStage(skip: int)
    | UnwindStage(path: Option<string>)
    | AddFieldsStage(fields: FieldsBody)

  function ApplyStage(co: Coercions, stage: Stage, data: seq<Row>): seq<Row> {
    match stage
    case MatchStage(body) => ApplyMatch(co, body, data)
    case GroupStage(body) => ApplyGroup(co, body, data)
    case SortStage(keys) => ApplySort(co, keys, data)
    case LimitStage(n) => ApplyLimit(n, data)
    case SkipStage(n) => ApplySkip(n, data)
    case UnwindStage(f) => Unwind(f, data)
    case AddFieldsStage(body) => AddFields(co, body, data)
  }

  function Execute(co: Coercions, stages: seq<Stage>, data: seq<Row>): seq<Row> {
    if stages == [] then data else Execute(co, stages[1..], ApplyStage(co, stages[0], data))
  }
}
