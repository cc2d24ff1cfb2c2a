/** Rows of a captured table: how they are expanded, sent to the target, returned by it and brought to normal form.

    A row is represented by its values in the order of the table's columns. */
module SnapshotRows {
  import opened Wrappers
  import opened CanonicalJson

  const MAX_SAFE_INTEGER: nat := 9_007_199_254_740_991
  const MAX_TIME: nat := 8_640_000_000_000_000

  datatype Kind = BoolKind | NumberKind | JsonKind | BytesKind | TextKind | TimestampKind | UnsupportedKind

  /** Where a column's value comes from: the source's column of its name, the source's millisecond column, or no
      source column at all. */
  datatype Origin = SameName | Milliseconds | Derived

  datatype Column = Column(name: string, kind: Kind, origin: Origin)

  /** A value read from either store. A document is a JSON value the driver has already parsed. */
  datatype Value =
    | SqlNull
    | Integer(n: int)
    | Str(s: string)
    | Boolean(b: bool)
    | Bytes(bytes: seq<nat>)
    | Document(json: Json)
    | Moment(ms: int)

  /** A source row's values at derived columns mean nothing. */
  type Row = seq<Value>

  datatype Cell =
    | NullCell
    | BoolCell(b: bool)
    | JsonCell(json: Json)
    | BytesCell(bytes: seq<nat>)
    | TimeCell(ms: int)
    | TextCell(s: string)

  /** A validated history item: the text of its identity fields, and call and kind of a tool item. */
  datatype HistoryItem = HistoryItem(identity: string -> string, tool: Option<(string, string)>)

  /** JSON.parse, Date.parse, Date.prototype.toISOString, String and the history validator, as they are provided. */
  datatype Runtime = Runtime(
    parseJson: string -> Option<Json>,
    parseDate: string -> Option<int>,
    isoDate: int -> string,
    show: Value -> string,
    parseHistory: string -> Option<HistoryItem>)

  datatype TableKind = Ordinary | OutboxMaintenance | ModelHistory

  datatype Table = Table(kind: TableKind, columns: seq<Column>)

  const IDENTITY: seq<string> := ["tenant_id", "thread_id", "sequence", "item_id", "run_id", "segment_id", "item_type"]

  // ---------- expanding a source row ----------

  function ExpandValue(v: Value, c: Column, runtime: Runtime): Option<Value> {
    if c.origin.Derived? then Some(SqlNull)
    else if c.origin.Milliseconds? && c.kind.TimestampKind? && v != SqlNull then
      if v.Integer? && 0 <= v.n <= MAX_SAFE_INTEGER && v.n <= MAX_TIME then Some(Str(runtime.isoDate(v.n))) else None
    else Some(v)
  }

  function ExpandColumns(row: Row, columns: seq<Column>, runtime: Runtime): (r: Option<Row>)
    ensures r.Some? ==> |r.value| == |row| == |columns|
  {
    if row == [] || columns == [] then (if row == [] && columns == [] then Some([]) else None) else
    var first, rest := ExpandValue(row[0], columns[0], runtime), ExpandColumns(row[1..], columns[1..], runtime);
    if first.None? || rest.None? then None else Some([first.value] + rest.value)
  }

  function Field(row: Row, columns: seq<Column>, name: string): Value {
    if row == [] || columns == [] then SqlNull
    else if columns[0].name == name then row[0] else Field(row[1..], columns[1..], name)
  }

  /** The indexes derived from a history item: null unless it is a tool item. */
  function Extra(item: HistoryItem, name: string): Value {
    if item.tool.None? then SqlNull else Str(if name == "call_id" then item.tool.value.0 else item.tool.value.1)
  }

  predicate IsExtra(name: string) { name == "call_id" || name == "tool_kind" }

  /** A history row agrees with its item: its identity columns show the item's, and an index it already has is
      the derived one. */
  predicate Agrees(row: Row, columns: seq<Column>, item: HistoryItem, runtime: Runtime)
    requires |row| == |columns|
  {
    && (forall name | name in IDENTITY :: runtime.show(Field(row, columns, name)) == item.identity(name))
    && (forall j | 0 <= j < |columns| && IsExtra(columns[j].name) && !columns[j].origin.Derived? ::
          row[j] == Extra(item, columns[j].name))
  }

  function WithExtras(row: Row, columns: seq<Column>, item: HistoryItem): (r: Row)
    requires |row| == |columns|
    ensures |r| == |row|
  {
    if row == [] then [] else
    var first := if IsExtra(columns[0].name) then Extra(item, columns[0].name) else row[0];
    [first] + WithExtras(row[1..], columns[1..], item)
  }

  function HistoryOf(row: Row, columns: seq<Column>, runtime: Runtime): Option<HistoryItem> {
    var text := Field(row, columns, "item_json");
    if text.Str? then runtime.parseHistory(text.s) else None
  }

  function Derive(row: Row, columns: seq<Column>, runtime: Runtime): Option<Row>
    requires |row| == |columns|
  {
    var item := HistoryOf(row, columns, runtime);
    if item.None? || !Agrees(row, columns, item.value, runtime) then None
    else Some(WithExtras(row, columns, item.value))
  }

  function Expand(row: Row, table: Table, runtime: Runtime): (r: Option<Row>)
    ensures r.Some? ==> |r.value| == |row| == |table.columns|
  {
    var expanded := ExpandColumns(row, table.columns, runtime);
    if expanded.None? then None
    else if table.kind.ModelHistory? then Derive(expanded.value, table.columns, runtime) else expanded
  }

  /** The loop over a row's columns, and what a history row derives. */
  method ExpandRow(row: Row, table: Table, runtime: Runtime) returns (expanded: Option<Row>)
    requires |row| == |table.columns|
    ensures expanded == Expand(row, table, runtime)
  {
    var columns := table.columns;
    var done: Row := [];
    assert row[0..] == row && columns[0..] == columns;
    OntoNothing(ExpandColumns(row, columns, runtime));
    for i := 0 to |columns|
      invariant |done| == i
      invariant ExpandColumns(row, columns, runtime) == Onto(done, ExpandColumns(row[i..], columns[i..], runtime))
    {
      var value := ExpandValue(row[i], columns[i], runtime);
      assert row[i..][1..] == row[i + 1..] && columns[i..][1..] == columns[i + 1..];
      if value.None? { return None; }
      OntoStep(done, value.value, ExpandColumns(row[i + 1..], columns[i + 1..], runtime));
      done := done + [value.value];
    }
    assert done + [] == done;
    if !table.kind.ModelHistory? { return Some(done); }
    var item := HistoryOf(done, columns, runtime);
    if item.None? || !Agrees(done, columns, item.value, runtime) { return None; }
    return Some(WithExtras(done, columns, item.value));
  }

  function Onto(done: Row, rest: Option<Row>): Option<Row> { if rest.None? then None else Some(done + rest.value) }

  lemma OntoNothing(rest: Option<Row>)
    ensures Onto([], rest) == rest
  {
    assert rest.Some? ==> [] + rest.value == rest.value;
  }

  lemma OntoStep(done: Row, value: Value, rest: Option<Row>)
    ensures rest.Some? ==> Onto(done, Some([value] + rest.value)) == Onto(done + [value], rest)
  {
    assert rest.Some? ==> done + ([value] + rest.value) == done + [value] + rest.value;
  }

  lemma {:induction false} ExpandColumnsAt(row: Row, columns: seq<Column>, runtime: Runtime, j: nat)
    requires |row| == |columns| && ExpandColumns(row, columns, runtime).Some? && j < |row|
    ensures ExpandValue(row[j], columns[j], runtime) == Some(ExpandColumns(row, columns, runtime).value[j])
    decreases j
  {
    if j > 0 { ExpandColumnsAt(row[1..], columns[1..], runtime, j - 1); }
  }

  lemma {:induction false} WithExtrasAt(row: Row, columns: seq<Column>, item: HistoryItem, j: nat)
    requires |row| == |columns| && j < |row|
    ensures WithExtras(row, columns, item)[j]
         == if IsExtra(columns[j].name) then Extra(item, columns[j].name) else row[j]
    decreases j
  {
    if j > 0 { WithExtrasAt(row[1..], columns[1..], item, j - 1); }
  }

  /** The value of an expanded row at column j: what its item derives, or the source's value, with milliseconds
      written as a date. Nothing the source holds is changed otherwise, and only a derived column is invented. */
  lemma ExpandedAt(row: Row, table: Table, runtime: Runtime, j: nat)
    requires |row| == |table.columns| && Expand(row, table, runtime).Some? && j < |row|
    ensures var e, c := Expand(row, table, runtime).value, table.columns[j];
            && (c.origin.SameName? ==> e[j] == row[j])
            && (c.origin.Milliseconds? && !(table.kind.ModelHistory? && IsExtra(c.name)) ==>
                  Some(e[j]) == ExpandValue(row[j], c, runtime))
  {
    var columns := table.columns;
    var plain := ExpandColumns(row, columns, runtime).value;
    ExpandColumnsAt(row, columns, runtime, j);
    if table.kind.ModelHistory? {
      WithExtrasAt(plain, columns, HistoryOf(plain, columns, runtime).value, j);
    }
  }

  /** A history row expands only if it agrees with the item in its own text, and its indexes are then that
      item's, with the text itself intact. */
  lemma HistoryRowsAgree(row: Row, table: Table, runtime: Runtime, j: nat)
    requires table.kind.ModelHistory? && |row| == |table.columns| && Expand(row, table, runtime).Some? && j < |row|
    ensures var plain := ExpandColumns(row, table.columns, runtime).value;
            && |plain| == |row| && HistoryOf(plain, table.columns, runtime).Some?
            && var item, e := HistoryOf(plain, table.columns, runtime).value, Expand(row, table, runtime).value;
               && |e| == |row| && Agrees(plain, table.columns, item, runtime)
               && e[j] == if IsExtra(table.columns[j].name) then Extra(item, table.columns[j].name) else plain[j]
  {
    var plain := ExpandColumns(row, table.columns, runtime).value;
    ExpandColumnsAt(row, table.columns, runtime, j);
    WithExtrasAt(plain, table.columns, HistoryOf(plain, table.columns, runtime).value, j);
  }

  // ---------- sending a row ----------

  function SqlValue(v: Value, kind: Kind): Option<Value> {
    if v == SqlNull then Some(SqlNull) else
    match kind
    case BoolKind =>
      if v in {Integer(0), Integer(1), Boolean(false), Boolean(true)}
      then Some(Boolean(v in {Integer(1), Boolean(true)})) else None
    case TextKind => if v.Str? then Some(v) else None
    case TimestampKind => if v.Str? then Some(v) else None
    case BytesKind => if v.Bytes? then Some(v) else None
    case UnsupportedKind => None
    case _ => Some(v)
  }

  function SqlRow(row: Row, columns: seq<Column>): (r: Option<Row>)
    ensures r.Some? ==> |r.value| == |row| == |columns|
  {
    if row == [] || columns == [] then (if row == [] && columns == [] then Some([]) else None) else
    var first, rest := SqlValue(row[0], columns[0].kind), SqlRow(row[1..], columns[1..]);
    if first.None? || rest.None? then None else Some([first.value] + rest.value)
  }

  /** The converted values of a source row, which the target holds once the row is copied. */
  function HeldFor(row: Row, table: Table, runtime: Runtime): (r: Option<Row>)
    ensures r.Some? ==> |r.value| == |row| == |table.columns|
  {
    var expanded := Expand(row, table, runtime);
    if expanded.None? then None else SqlRow(expanded.value, table.columns)
  }

  /** The values sent for a source row: all of them, but only the due time for the maintenance row, which the
      target has already. */
  function SentFor(row: Row, table: Table, runtime: Runtime): Option<Row> {
    if HeldFor(row, table, runtime).None? then None
    else if table.kind.OutboxMaintenance?
    then Some([Field(Expand(row, table, runtime).value, table.columns, "next_due")])
    else HeldFor(row, table, runtime)
  }

  const MAINTENANCE_COLUMNS :=
    [Column("singleton", NumberKind, SameName), Column("next_due", TimestampKind, Milliseconds)]

  /** Updating the due time of the maintenance row leaves the target with the whole of the source's row. */
  lemma MaintenanceRowIsHeld(row: Row, table: Table, runtime: Runtime)
    requires table == Table(OutboxMaintenance, MAINTENANCE_COLUMNS) && HeldFor(row, table, runtime).Some?
    requires Field(row, table.columns, "singleton") == Integer(1)
    ensures HeldFor(row, table, runtime).value == [Integer(1)] + SentFor(row, table, runtime).value
  {
    var held, e, columns := HeldFor(row, table, runtime).value, Expand(row, table, runtime).value, table.columns;
    ExpandColumnsAt(row, columns, runtime, 0);
    SqlRowAt(e, columns, 0);
    SqlRowAt(e, columns, 1);
    assert Field(e, columns, "next_due") == e[1] by {
      assert columns[1..][0] == columns[1] && e[1..][0] == e[1];
    }
  }

  lemma {:induction false} SqlRowAt(row: Row, columns: seq<Column>, j: nat)
    requires SqlRow(row, columns).Some? && j < |row|
    ensures SqlValue(row[j], columns[j].kind) == Some(SqlRow(row, columns).value[j])
    decreases j
  {
    if j > 0 { SqlRowAt(row[1..], columns[1..], j - 1); }
  }

  // ---------- the normal form ----------

  /** The JSON value a value stands for in a JSON column; JSON null and SQL NULL cannot be told apart. */
  function JsonOf(v: Value, runtime: Runtime): Option<Json> {
    match v
    case SqlNull => Some(Null)
    case Str(s) => runtime.parseJson(s)
    case Document(json) => Some(json)
    case _ => None
  }

  function JsonForm(json: Option<Json>): Option<Cell> {
    if json.None? then None else Some(if json.value.Null? then NullCell else JsonCell(Normal(json.value)))
  }

  function FormOf(v: Value, kind: Kind, runtime: Runtime): Option<Cell> {
    if v == SqlNull then Some(NullCell)
    else if kind.JsonKind? then JsonForm(JsonOf(v, runtime))
    else if kind.BoolKind? then Some(BoolCell(v in {Boolean(true), Integer(1)}))
    else if kind.BytesKind? && v.Bytes? then Some(BytesCell(v.bytes))
    else if kind.TimestampKind? then
      var instant := if v.Moment? then Some(v.ms) else runtime.parseDate(runtime.show(v));
      if instant.None? then None else Some(TimeCell(instant.value))
    else Some(TextCell(runtime.show(v)))
  }

  function RowForm(row: Row, columns: seq<Column>, runtime: Runtime): (r: Option<seq<Cell>>)
    ensures r.Some? ==> |r.value| == |row| == |columns|
  {
    if row == [] || columns == [] then (if row == [] && columns == [] then Some([]) else None) else
    var first, rest := FormOf(row[0], columns[0].kind, runtime), RowForm(row[1..], columns[1..], runtime);
    if first.None? || rest.None? then None else Some([first.value] + rest.value)
  }

  lemma {:induction false} RowFormAt(row: Row, columns: seq<Column>, runtime: Runtime, j: nat)
    requires RowForm(row, columns, runtime).Some? && j < |row|
    ensures FormOf(row[j], columns[j].kind, runtime) == Some(RowForm(row, columns, runtime).value[j])
    decreases j
  {
    if j > 0 { RowFormAt(row[1..], columns[1..], runtime, j - 1); }
  }

  ghost predicate SameForms(a: Row, b: Row, columns: seq<Column>, runtime: Runtime)
    requires |a| == |b| == |columns|
  {
    forall j | 0 <= j < |a| :: FormOf(a[j], columns[j].kind, runtime) == FormOf(b[j], columns[j].kind, runtime)
  }

  /** Rows have the same form exactly when each pair of values has. */
  lemma {:induction false} RowFormsAgree(a: Row, b: Row, columns: seq<Column>, runtime: Runtime)
    requires |a| == |b| == |columns| && RowForm(b, columns, runtime).Some?
    ensures RowForm(a, columns, runtime) == RowForm(b, columns, runtime) <==> SameForms(a, b, columns, runtime)
  {
    if a != [] {
      FormSplits(a, columns, runtime, b);
      RowFormsAgree(a[1..], b[1..], columns[1..], runtime);
      SameFormsSplit(a, b, columns, runtime);
    }
  }

  lemma SameFormsSplit(a: Row, b: Row, columns: seq<Column>, runtime: Runtime)
    requires |a| == |b| == |columns| > 0
    ensures SameForms(a, b, columns, runtime)
       <==> && FormOf(a[0], columns[0].kind, runtime) == FormOf(b[0], columns[0].kind, runtime)
            && SameForms(a[1..], b[1..], columns[1..], runtime)
  {
    if FormOf(a[0], columns[0].kind, runtime) == FormOf(b[0], columns[0].kind, runtime)
       && SameForms(a[1..], b[1..], columns[1..], runtime) {
      forall j | 0 <= j < |a|
        ensures FormOf(a[j], columns[j].kind, runtime) == FormOf(b[j], columns[j].kind, runtime)
      {
        if j > 0 { assert a[j] == a[1..][j - 1] && b[j] == b[1..][j - 1] && columns[j] == columns[1..][j - 1]; }
      }
    }
  }

  /** Two JSON columns have the same normal form exactly when their values are equal up to key order. */
  lemma JsonFormIffEquivalent(a: Json, b: Json)
    requires WellFormed(a) && WellFormed(b)
    ensures JsonForm(Some(a)) == JsonForm(Some(b)) <==> Equivalent(a, b)
  {
    NormalIffEquivalent(a, b);
  }

  /** The JSON value a value stands for, if any, is well formed. */
  ghost predicate WellFormedAt(v: Value, runtime: Runtime) {
    JsonOf(v, runtime).Some? ==> WellFormed(JsonOf(v, runtime).value)
  }

  // ---------- reading a row back ----------

  /** How the target's driver returns a stored JSON value: parsed, so that a JSON string is a plain string
      and JSON null is indistinguishable from SQL NULL. */
  function Driver(json: Json): Value {
    if json.Null? then SqlNull else if json.Text? then Str(json.text) else Document(json)
  }

  /** A JSON value t in the target is taken for the source's v exactly when it is v up to key order or, when it is
      a string, when the text of that string is JSON for v up to key order: the code parses it a second time. */
  lemma TakenForExactly(v: Value, t: Json, runtime: Runtime)
    requires WellFormed(t) && WellFormedAt(v, runtime) && WellFormedAt(Driver(t), runtime)
    requires FormOf(v, JsonKind, runtime).Some?
    ensures JsonOf(v, runtime).Some?
    ensures FormOf(Driver(t), JsonKind, runtime) == FormOf(v, JsonKind, runtime)
       <==> TakenFor(t, JsonOf(v, runtime).value, runtime)
  {
    var source := JsonOf(v, runtime).value;
    NormalIffEquivalent(t, source);
    if t.Text? && runtime.parseJson(t.text).Some? { NormalIffEquivalent(runtime.parseJson(t.text).value, source); }
  }

  ghost predicate TakenFor(t: Json, source: Json, runtime: Runtime) {
    if t.Text? then runtime.parseJson(t.text).Some? && Equivalent(runtime.parseJson(t.text).value, source)
    else Equivalent(t, source)
  }

  /** So a string in the target is never taken for what it is, and any other value only for what it is. */
  lemma TakenForTruly(t: Json, source: Json, runtime: Runtime)
    requires Faithful(runtime) && TakenFor(t, source, runtime)
    ensures Equivalent(t, source) <==> !t.Text?
  {
  }

  /** What the driver returns for a value that was sent: JSON and dates parsed, anything else as it was. */
  function Returned(v: Value, kind: Kind, runtime: Runtime): Value {
    if kind.JsonKind? && JsonOf(v, runtime).Some? then Driver(JsonOf(v, runtime).value)
    else if kind.TimestampKind? && v.Str? && runtime.parseDate(v.s).Some? then Moment(runtime.parseDate(v.s).value)
    else v
  }

  function ReturnedRow(row: Row, columns: seq<Column>, runtime: Runtime): Row
    requires |row| == |columns|
  {
    if row == [] then []
    else [Returned(row[0], columns[0].kind, runtime)] + ReturnedRow(row[1..], columns[1..], runtime)
  }

  /** A JSON string literal is at least two quotes longer than the text it denotes, and the text of a text is
      itself. */
  ghost predicate Faithful(runtime: Runtime) {
    && (forall s :: runtime.parseJson(s).Some? && runtime.parseJson(s).value.Text? ==>
                      |runtime.parseJson(s).value.text| + 2 <= |s|)
    && (forall s :: runtime.show(Str(s)) == s)
  }

  /** A bare JSON string in a JSON column. */
  predicate BareString(v: Value, kind: Kind, runtime: Runtime) {
    kind.JsonKind? && JsonOf(v, runtime).Some? && JsonOf(v, runtime).value.Text?
  }

  lemma NormalKeepsText(a: Json, b: Json)
    requires b.Text?
    ensures Normal(a) == Normal(b) <==> a == b
  {
  }

  /** A value passes its own read-back check exactly when it is no bare JSON string: the driver has parsed such a
      string already, and the code parses it a second time. */
  lemma ReadsBackUnlessBareString(v: Value, kind: Kind, runtime: Runtime)
    requires Faithful(runtime) && SqlValue(v, kind).Some? && FormOf(v, kind, runtime).Some?
    ensures FormOf(Returned(SqlValue(v, kind).value, kind, runtime), kind, runtime) == FormOf(v, kind, runtime)
       <==> !BareString(v, kind, runtime)
  {
    if BareString(v, kind, runtime) {
      var json := JsonOf(v, runtime).value;
      var again := runtime.parseJson(json.text);
      if again.Some? && again.value.Text? { assert |again.value.text| + 2 <= |json.text|; }
      if again.Some? && !again.value.Null? { NormalKeepsText(again.value, json); }
    }
  }

  ghost predicate HasBareString(row: Row, columns: seq<Column>, runtime: Runtime)
    requires |row| == |columns|
  {
    exists j :: 0 <= j < |row| && BareString(row[j], columns[j].kind, runtime)
  }

  lemma {:induction false} RowReadsBack(row: Row, columns: seq<Column>, runtime: Runtime)
    requires Faithful(runtime) && SqlRow(row, columns).Some? && RowForm(row, columns, runtime).Some?
    ensures |SqlRow(row, columns).value| == |row| == |columns|
    ensures var back := ReturnedRow(SqlRow(row, columns).value, columns, runtime);
            RowForm(back, columns, runtime) == RowForm(row, columns, runtime)
            <==> !HasBareString(row, columns, runtime)
  {
    if row != [] && columns != [] {
      RowReadsBack(row[1..], columns[1..], runtime);
      ReadsBackUnlessBareString(row[0], columns[0].kind, runtime);
      HasBareStringSplits(row, columns, runtime);
      RowReadsBackStep(row, columns, runtime);
    }
  }

  lemma HasBareStringSplits(row: Row, columns: seq<Column>, runtime: Runtime)
    requires |row| == |columns| > 0
    ensures HasBareString(row, columns, runtime)
       <==> BareString(row[0], columns[0].kind, runtime) || HasBareString(row[1..], columns[1..], runtime)
  {
    if j :| 0 <= j < |row| && BareString(row[j], columns[j].kind, runtime) {
      if j > 0 { assert BareString(row[1..][j - 1], columns[1..][j - 1].kind, runtime); }
    }
    if j :| 0 <= j < |row[1..]| && BareString(row[1..][j], columns[1..][j].kind, runtime) {
      assert BareString(row[j + 1], columns[j + 1].kind, runtime);
    }
  }

  lemma RowReadsBackStep(row: Row, columns: seq<Column>, runtime: Runtime)
    requires |row| == |columns| > 0 && SqlRow(row, columns).Some? && RowForm(row, columns, runtime).Some?
    requires |SqlRow(row[1..], columns[1..]).value| == |row| - 1
    ensures |SqlRow(row, columns).value| == |row|
    ensures var back, rest := ReturnedRow(SqlRow(row, columns).value, columns, runtime),
                              ReturnedRow(SqlRow(row[1..], columns[1..]).value, columns[1..], runtime);
            var kind := columns[0].kind;
            (RowForm(back, columns, runtime) == RowForm(row, columns, runtime)
             <==> && FormOf(Returned(SqlValue(row[0], kind).value, kind, runtime), kind, runtime)
                     == FormOf(row[0], kind, runtime)
                  && RowForm(rest, columns[1..], runtime) == RowForm(row[1..], columns[1..], runtime))
  {
    var sent := SqlRow(row, columns).value;
    assert sent[1..] == SqlRow(row[1..], columns[1..]).value;
    var back, rest := ReturnedRow(sent, columns, runtime), ReturnedRow(sent[1..], columns[1..], runtime);
    assert back == [Returned(sent[0], columns[0].kind, runtime)] + rest && back[1..] == rest;
    FormSplits(back, columns, runtime, row);
  }

  /** Two nonempty rows have one form exactly when their first values and their rests have. */
  lemma FormSplits(a: Row, columns: seq<Column>, runtime: Runtime, b: Row)
    requires a != [] && b != [] && columns != [] && RowForm(b, columns, runtime).Some?
    ensures RowForm(a, columns, runtime) == RowForm(b, columns, runtime)
       <==> && FormOf(a[0], columns[0].kind, runtime) == FormOf(b[0], columns[0].kind, runtime)
            && RowForm(a[1..], columns[1..], runtime) == RowForm(b[1..], columns[1..], runtime)
  {
    var p, q := RowForm(a, columns, runtime), RowForm(b, columns, runtime);
    assert q.value[0] == FormOf(b[0], columns[0].kind, runtime).value;
    assert q.value[1..] == RowForm(b[1..], columns[1..], runtime).value;
    if p.Some? {
      assert p.value[0] == FormOf(a[0], columns[0].kind, runtime).value;
      assert p.value[1..] == RowForm(a[1..], columns[1..], runtime).value;
    }
  }
}
