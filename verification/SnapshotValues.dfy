/** What the values of a source row become on their way to the target, and what an accepted copy says about them. */
module SnapshotValues {
  import opened Wrappers
  import opened CanonicalJson
  import opened SnapshotRows
  import opened SnapshotCopy
  import BatchCopy

  /** Date.parse reads back every instant that toISOString writes. */
  ghost predicate KeepsDates(runtime: Runtime) {
    forall n | 0 <= n <= 8_640_000_000_000_000 :: runtime.parseDate(runtime.isoDate(n)) == Some(n)
  }

  /** A column of milliseconds in the source that is a timestamp in the target. */
  predicate Dated(c: Column) { c.origin == Milliseconds && c.kind == TimestampKind }

  predicate IsTime(v: Value) { v.Integer? && 0 <= v.n <= 8_640_000_000_000_000 }

  /** The history table derives its two index columns; every other column comes from the source. */
  predicate FromSource(table: Table, c: Column) {
    c.origin != Derived && !(table.kind == ModelHistory && (c.name == "call_id" || c.name == "tool_kind"))
  }

  // ---------- expanding ----------

  ghost predicate TimesInRange(row: Row, columns: seq<Column>)
    requires |row| == |columns|
  {
    forall j | 0 <= j < |columns| && Dated(columns[j]) && row[j] != SqlNull :: IsTime(row[j])
  }

  /** The columns of a row expand exactly when each of its dates is null or a number of milliseconds in range. */
  lemma {:induction false} ColumnsExpandExactly(row: Row, columns: seq<Column>, runtime: Runtime)
    requires |row| == |columns|
    ensures ExpandColumns(row, columns, runtime).Some? <==> TimesInRange(row, columns)
  {
    if row != [] {
      ColumnsExpandExactly(row[1..], columns[1..], runtime);
      if TimesInRange(row[1..], columns[1..]) && ExpandValue(row[0], columns[0], runtime).Some? {
        forall j | 0 <= j < |columns| && Dated(columns[j]) && row[j] != SqlNull ensures IsTime(row[j]) {
          if j > 0 { assert row[j] == row[1..][j - 1] && columns[j] == columns[1..][j - 1]; }
        }
      }
      if TimesInRange(row, columns) {
        forall j | 0 <= j < |columns[1..]| && Dated(columns[1..][j]) && row[1..][j] != SqlNull
          ensures IsTime(row[1..][j])
        {
          assert row[1..][j] == row[j + 1] && columns[1..][j] == columns[j + 1];
        }
      }
    }
  }

  /** A date column of an expanded row is null exactly when the source's value is, and otherwise the text of the very
      instant the source holds in milliseconds. */
  lemma MillisecondsBecomeDates(row: Row, table: Table, runtime: Runtime, j: nat)
    requires |row| == |table.columns| && Expand(row, table, runtime).Some? && j < |row| && KeepsDates(runtime)
    requires Dated(table.columns[j]) && FromSource(table, table.columns[j])
    ensures |Expand(row, table, runtime).value| == |row|
    ensures var e := Expand(row, table, runtime).value[j];
            && (e == SqlNull <==> row[j] == SqlNull)
            && (row[j] != SqlNull ==>
                  row[j].Integer? && 0 <= row[j].n <= 8_640_000_000_000_000
                  && e.Str? && runtime.parseDate(e.s) == Some(row[j].n))
  {
    var columns := table.columns;
    ExpandColumnsAt(row, columns, runtime, j);
    if table.kind.ModelHistory? {
      var plain := ExpandColumns(row, columns, runtime).value;
      WithExtrasAt(plain, columns, HistoryOf(plain, columns, runtime).value, j);
    }
  }

  /** Every other column of the source is taken over as it is. */
  lemma OthersAreKept(row: Row, table: Table, runtime: Runtime, j: nat)
    requires |row| == |table.columns| && Expand(row, table, runtime).Some? && j < |row|
    requires FromSource(table, table.columns[j]) && !Dated(table.columns[j])
    ensures |Expand(row, table, runtime).value| == |row| && Expand(row, table, runtime).value[j] == row[j]
  {
    var columns := table.columns;
    ExpandColumnsAt(row, columns, runtime, j);
    if table.kind.ModelHistory? {
      var plain := ExpandColumns(row, columns, runtime).value;
      WithExtrasAt(plain, columns, HistoryOf(plain, columns, runtime).value, j);
    }
  }

  ghost predicate DistinctNames(columns: seq<Column>) {
    forall i, j | 0 <= i < j < |columns| :: columns[i].name != columns[j].name
  }

  lemma {:induction false} FieldAt(row: Row, columns: seq<Column>, j: nat)
    requires |row| == |columns| && DistinctNames(columns) && j < |row|
    ensures Field(row, columns, columns[j].name) == row[j]
    decreases j
  {
    if j > 0 {
      assert columns[0].name != columns[j].name;
      FieldAt(row[1..], columns[1..], j - 1);
    }
  }

  // ---------- history rows ----------

  /** The seven columns that identify a history item show what the item itself says. */
  ghost predicate Identified(row: Row, columns: seq<Column>, item: HistoryItem, runtime: Runtime)
    requires |row| == |columns|
  {
    forall j | 0 <= j < |columns| && columns[j].name in
        {"tenant_id", "thread_id", "sequence", "item_id", "run_id", "segment_id", "item_type"} ::
      runtime.show(row[j]) == item.identity(columns[j].name)
  }

  /** What the index columns of a history row hold: call and kind of a tool item, null for any other. */
  function IndexOf(item: HistoryItem, name: string): Value {
    match item.tool
    case None => SqlNull
    case Some((callId, kind)) => Str(if name == "call_id" then callId else kind)
  }

  /** A history row that expands has its item's text, identity and indexes, also where the source had them already. */
  lemma HistoryRowsCarryTheirItem(row: Row, table: Table, runtime: Runtime, k: nat, j: nat)
    requires table.kind == ModelHistory && |row| == |table.columns| && DistinctNames(table.columns)
    requires Expand(row, table, runtime).Some? && k < |row| && j < |row|
    requires table.columns[k] == Column("item_json", TextKind, SameName)
    ensures row[k].Str? && runtime.parseHistory(row[k].s).Some?
    ensures var item, e := runtime.parseHistory(row[k].s).value, Expand(row, table, runtime).value;
            && |e| == |row| && e[k] == row[k]
            && Identified(e, table.columns, item, runtime)
            && (table.columns[j].name == "call_id" || table.columns[j].name == "tool_kind" ==>
                  e[j] == IndexOf(item, table.columns[j].name)
                  && (table.columns[j].origin == SameName ==> row[j] == e[j]))
  {
    var columns := table.columns;
    var plain := ExpandColumns(row, columns, runtime).value;
    ExpandColumnsAt(row, columns, runtime, k);
    FieldAt(plain, columns, k);
    HistoryRowsAgree(row, table, runtime, k);
    HistoryRowsAgree(row, table, runtime, j);
    ExpandColumnsAt(row, columns, runtime, j);
    IdentityIsKept(row, table, runtime, HistoryOf(plain, columns, runtime).value);
  }

  lemma IdentityIsKept(row: Row, table: Table, runtime: Runtime, item: HistoryItem)
    requires table.kind == ModelHistory && |row| == |table.columns| && DistinctNames(table.columns)
    requires Expand(row, table, runtime).Some?
    requires HistoryOf(ExpandColumns(row, table.columns, runtime).value, table.columns, runtime) == Some(item)
    ensures Identified(Expand(row, table, runtime).value, table.columns, item, runtime)
  {
    var columns, e := table.columns, Expand(row, table, runtime).value;
    var plain := ExpandColumns(row, columns, runtime).value;
    forall i: nat | i < |columns| && columns[i].name in IDENTITY
      ensures runtime.show(e[i]) == item.identity(columns[i].name)
    {
      FieldAt(plain, columns, i);
      HistoryRowsAgree(row, table, runtime, i);
    }
  }

  /** The table has the item's text and the seven identifying columns under their own names. */
  ghost predicate HistoryColumns(columns: seq<Column>, k: nat) {
    && DistinctNames(columns) && k < |columns| && columns[k] == Column("item_json", TextKind, SameName)
    && forall name | name in IDENTITY :: HasOwn(columns, name)
  }

  ghost predicate HasOwn(columns: seq<Column>, name: string) {
    exists j :: 0 <= j < |columns| && columns[j].name == name && columns[j].origin == SameName
  }

  /** The index columns the source has already hold what the item says. */
  ghost predicate Indexed(row: Row, columns: seq<Column>, item: HistoryItem)
    requires |row| == |columns|
  {
    forall j | 0 <= j < |columns| && (columns[j].name == "call_id" || columns[j].name == "tool_kind") ::
      columns[j].origin == SameName ==> row[j] == IndexOf(item, columns[j].name)
  }

  /** A history row expands exactly when its dates are in range, its text is a history item, and its identity and any
      index it has are that item's. */
  lemma HistoryRowsExpandExactly(row: Row, table: Table, runtime: Runtime, k: nat)
    requires table.kind == ModelHistory && |row| == |table.columns| && HistoryColumns(table.columns, k)
    requires forall c | c in table.columns && (c.name == "call_id" || c.name == "tool_kind") :: c.origin != Milliseconds
    ensures Expand(row, table, runtime).Some?
       <==> && TimesInRange(row, table.columns) && row[k].Str? && runtime.parseHistory(row[k].s).Some?
            && Identified(row, table.columns, runtime.parseHistory(row[k].s).value, runtime)
            && Indexed(row, table.columns, runtime.parseHistory(row[k].s).value)
  {
    ColumnsExpandExactly(row, table.columns, runtime);
    if TimesInRange(row, table.columns) {
      var plain := ExpandColumns(row, table.columns, runtime).value;
      ExpandColumnsAt(row, table.columns, runtime, k);
      FieldAt(plain, table.columns, k);
      if row[k].Str? && runtime.parseHistory(row[k].s).Some? {
        var item := runtime.parseHistory(row[k].s).value;
        AgreesExactly(row, plain, table.columns, item, runtime);
      }
    }
  }

  lemma AgreesExactly(row: Row, plain: Row, columns: seq<Column>, item: HistoryItem, runtime: Runtime)
    requires |row| == |plain| == |columns| && ExpandColumns(row, columns, runtime) == Some(plain)
    requires DistinctNames(columns) && forall name | name in IDENTITY :: HasOwn(columns, name)
    requires forall c | c in columns && (c.name == "call_id" || c.name == "tool_kind") :: c.origin != Milliseconds
    ensures Agrees(plain, columns, item, runtime)
       <==> Identified(row, columns, item, runtime) && Indexed(row, columns, item)
  {
    OwnColumns(row, plain, columns, runtime);
    IdentityAgrees(row, plain, columns, item, runtime);
    IndexesAgree(row, plain, columns, item);
  }

  lemma OwnColumns(row: Row, plain: Row, columns: seq<Column>, runtime: Runtime)
    requires |row| == |plain| == |columns| && ExpandColumns(row, columns, runtime) == Some(plain)
    ensures forall j | 0 <= j < |columns| && columns[j].origin == SameName :: plain[j] == row[j]
  {
    forall j: nat | j < |columns| && columns[j].origin == SameName ensures plain[j] == row[j] {
      ExpandColumnsAt(row, columns, runtime, j);
    }
  }

  /** The one column of an identifying name is the source's own. */
  lemma IdentityColumn(columns: seq<Column>, j: nat)
    requires DistinctNames(columns) && j < |columns| && HasOwn(columns, columns[j].name)
    ensures columns[j].origin == SameName
  {
    var i :| 0 <= i < |columns| && columns[i].name == columns[j].name && columns[i].origin == SameName;
  }

  lemma IdentityAgrees(row: Row, plain: Row, columns: seq<Column>, item: HistoryItem, runtime: Runtime)
    requires |row| == |plain| == |columns| && DistinctNames(columns)
    requires forall name | name in IDENTITY :: HasOwn(columns, name)
    requires forall j | 0 <= j < |columns| && columns[j].origin == SameName :: plain[j] == row[j]
    ensures (forall name | name in IDENTITY :: runtime.show(Field(plain, columns, name)) == item.identity(name))
       <==> Identified(row, columns, item, runtime)
  {
    forall j: nat | j < |columns| && columns[j].name in IDENTITY
      ensures Field(plain, columns, columns[j].name) == row[j]
    {
      IdentityColumn(columns, j);
      FieldAt(plain, columns, j);
    }
    forall name | name in IDENTITY ensures exists j: nat :: j < |columns| && columns[j].name == name {
      assert HasOwn(columns, name);
    }
  }

  lemma IndexesAgree(row: Row, plain: Row, columns: seq<Column>, item: HistoryItem)
    requires |row| == |plain| == |columns|
    requires forall c | c in columns && (c.name == "call_id" || c.name == "tool_kind") :: c.origin != Milliseconds
    requires forall j | 0 <= j < |columns| && columns[j].origin == SameName :: plain[j] == row[j]
    ensures (forall j | 0 <= j < |columns| && IsExtra(columns[j].name) && !columns[j].origin.Derived? ::
               plain[j] == Extra(item, columns[j].name))
       <==> Indexed(row, columns, item)
  {
    forall j | 0 <= j < |columns| && IsExtra(columns[j].name)
      ensures columns[j].origin == SameName || columns[j].origin == Derived
      ensures Extra(item, columns[j].name) == IndexOf(item, columns[j].name)
    {
      assert columns[j] in columns;
    }
  }

  // ---------- converting ----------

  /** The values a column of this kind can be sent; null can always be. */
  predicate Suits(v: Value, kind: Kind) {
    v == SqlNull || match kind
                    case BoolKind => v in {Integer(0), Integer(1), Boolean(false), Boolean(true)}
                    case NumberKind => true
                    case JsonKind => true
                    case BytesKind => v.Bytes?
                    case TextKind => v.Str?
                    case TimestampKind => v.Str?
                    case UnsupportedKind => false
  }

  /** A row is converted exactly when every value suits its column. */
  lemma {:induction false} RowConvertsExactly(row: Row, columns: seq<Column>)
    requires |row| == |columns|
    ensures SqlRow(row, columns).Some? <==> forall j | 0 <= j < |row| :: Suits(row[j], columns[j].kind)
  {
    if row != [] {
      RowConvertsExactly(row[1..], columns[1..]);
      assert SqlValue(row[0], columns[0].kind).Some? <==> Suits(row[0], columns[0].kind);
      if SqlRow(row[1..], columns[1..]).Some? && Suits(row[0], columns[0].kind) {
        forall j | 0 <= j < |row| ensures Suits(row[j], columns[j].kind) {
          if j > 0 { assert row[j] == row[1..][j - 1] && columns[j] == columns[1..][j - 1]; }
        }
      }
      if forall j | 0 <= j < |row| :: Suits(row[j], columns[j].kind) {
        forall j | 0 <= j < |row[1..]| ensures Suits(row[1..][j], columns[1..][j].kind) {
          assert row[1..][j] == row[j + 1] && columns[1..][j] == columns[j + 1];
        }
      }
    }
  }

  /** The values of a column that have a normal form: JSON must be JSON and a timestamp a date. */
  predicate Formed(v: Value, kind: Kind, runtime: Runtime) {
    match kind
    case JsonKind => (v.Str? ==> runtime.parseJson(v.s).Some?) && (v == SqlNull || v.Str? || v.Document?)
    case TimestampKind => v == SqlNull || v.Moment? || runtime.parseDate(runtime.show(v)).Some?
    case _ => true
  }

  /** A row has a normal form exactly when each of its values has. */
  lemma {:induction false} RowFormedExactly(row: Row, columns: seq<Column>, runtime: Runtime)
    requires |row| == |columns|
    ensures RowForm(row, columns, runtime).Some?
       <==> forall j | 0 <= j < |row| :: Formed(row[j], columns[j].kind, runtime)
  {
    if row != [] {
      RowFormedExactly(row[1..], columns[1..], runtime);
      assert FormOf(row[0], columns[0].kind, runtime).Some? <==> Formed(row[0], columns[0].kind, runtime);
      if RowForm(row[1..], columns[1..], runtime).Some? && Formed(row[0], columns[0].kind, runtime) {
        forall j | 0 <= j < |row| ensures Formed(row[j], columns[j].kind, runtime) {
          if j > 0 { assert row[j] == row[1..][j - 1] && columns[j] == columns[1..][j - 1]; }
        }
      }
      if forall j | 0 <= j < |row| :: Formed(row[j], columns[j].kind, runtime) {
        forall j | 0 <= j < |row[1..]| ensures Formed(row[1..][j], columns[1..][j].kind, runtime) {
          assert row[1..][j] == row[j + 1] && columns[1..][j] == columns[j + 1];
        }
      }
    }
  }

  /** A source row is taken exactly when it expands and each expanded value suits its column and has a normal form. */
  lemma RowTakenExactly(row: Row, table: Table, runtime: Runtime)
    requires |row| == |table.columns|
    ensures Prepare(row, table, runtime).Some?
       <==> && Expand(row, table, runtime).Some?
            && var e := Expand(row, table, runtime).value;
               |e| == |row| && forall j | 0 <= j < |row| ::
                 Suits(e[j], table.columns[j].kind) && Formed(e[j], table.columns[j].kind, runtime)
  {
    if Expand(row, table, runtime).Some? {
      RowConvertsExactly(Expand(row, table, runtime).value, table.columns);
      RowFormedExactly(Expand(row, table, runtime).value, table.columns, runtime);
    }
  }

  // ---------- what an accepted value is ----------

  /** A value t the target holds in a column of this kind stands for the value v sent to it. */
  ghost predicate StandsFor(t: Value, v: Value, kind: Kind, runtime: Runtime) {
    match t
    case SqlNull => v == SqlNull
    case Boolean(b) => v == Boolean(b) || v == Integer(if b then 1 else 0)
    case Bytes(_) => v == t
    case Moment(ms) => v.Str? && runtime.parseDate(v.s) == Some(ms)
    case Str(_) => v == t
    case _ => true
  }

  /** The values the driver returns from a column of this kind. */
  predicate Native(t: Value, kind: Kind) {
    t == SqlNull || match kind
                    case BoolKind => t.Boolean?
                    case BytesKind => t.Bytes?
                    case TimestampKind => t.Moment?
                    case TextKind => t.Str?
                    case _ => false
  }

  /** In a boolean, bytes, text or timestamp column two values have one form only if one stands for the other. */
  lemma SameFormStandsFor(t: Value, v: Value, kind: Kind, runtime: Runtime)
    requires Faithful(runtime) && Native(t, kind) && !kind.JsonKind? && Suits(v, kind)
    requires FormOf(v, kind, runtime).Some? && FormOf(t, kind, runtime) == FormOf(v, kind, runtime)
    ensures StandsFor(t, v, kind, runtime)
  {
  }

  /** In an accepted copy every boolean, byte string, text and timestamp of the target stands for the expanded source
      value in its place. */
  lemma AcceptedValuesStand(
    table: Table, runtime: Runtime, source: seq<Row>, written: nat -> nat, stored: seq<Row>, i: nat, j: nat)
    requires CopyAccepted(table, runtime, source, |source|, written, stored) && i < |source| && i < |stored|
    requires j < |table.columns| && j < |stored[i]| && |source[i]| == |table.columns| && Faithful(runtime)
    requires Native(stored[i][j], table.columns[j].kind) && !table.columns[j].kind.JsonKind?
    ensures Expand(source[i], table, runtime).Some?
    ensures StandsFor(stored[i][j], Expand(source[i], table, runtime).value[j], table.columns[j].kind, runtime)
  {
    AcceptedTableAgrees(table, runtime, source, written, stored, i);
    SourceConverts(table, runtime, source, written, stored);
    PreparedRow(table, runtime, source, i);
    var e := Expand(source[i], table, runtime).value;
    RowConvertsExactly(e, table.columns);
    RowFormAt(e, table.columns, runtime, j);
    RowFormAt(stored[i], table.columns, runtime, j);
    SameFormStandsFor(stored[i][j], e[j], table.columns[j].kind, runtime);
  }

  /** In an accepted copy a timestamp of the target that comes from milliseconds is the source's very instant, and is
      null exactly when the source's value is. */
  lemma AcceptedInstantsAreSource(
    table: Table, runtime: Runtime, source: seq<Row>, written: nat -> nat, stored: seq<Row>, i: nat, j: nat)
    requires CopyAccepted(table, runtime, source, |source|, written, stored) && i < |source| && i < |stored|
    requires j < |table.columns| && j < |stored[i]| && |source[i]| == |table.columns|
    requires Faithful(runtime) && KeepsDates(runtime)
    requires Dated(table.columns[j]) && FromSource(table, table.columns[j])
    ensures forall ms :: stored[i][j] == Moment(ms) ==> source[i][j] == Integer(ms)
    ensures stored[i][j] == SqlNull ==> source[i][j] == SqlNull
  {
    if stored[i][j] == SqlNull || stored[i][j].Moment? {
      AcceptedValuesStand(table, runtime, source, written, stored, i, j);
      MillisecondsBecomeDates(source[i], table, runtime, j);
    }
  }

  /** In an accepted copy a boolean, byte string or text of the target is the source's. */
  lemma AcceptedScalarsAreSource(
    table: Table, runtime: Runtime, source: seq<Row>, written: nat -> nat, stored: seq<Row>, i: nat, j: nat)
    requires CopyAccepted(table, runtime, source, |source|, written, stored) && i < |source| && i < |stored|
    requires j < |table.columns| && j < |stored[i]| && |source[i]| == |table.columns| && Faithful(runtime)
    requires FromSource(table, table.columns[j]) && !Dated(table.columns[j])
    ensures var kind, t, v := table.columns[j].kind, stored[i][j], source[i][j];
            && (kind == BoolKind && t.Boolean? ==> v == t || v == Integer(if t.b then 1 else 0))
            && (kind == BytesKind && t.Bytes? ==> v == t)
            && (kind == TextKind && t.Str? ==> v == t)
            && (kind == TimestampKind && t.Moment? ==> v.Str? && runtime.parseDate(v.s) == Some(t.ms))
            && (kind != JsonKind && t == SqlNull ==> v == SqlNull)
  {
    if Native(stored[i][j], table.columns[j].kind) && !table.columns[j].kind.JsonKind? {
      AcceptedValuesStand(table, runtime, source, written, stored, i, j);
      OthersAreKept(source[i], table, runtime, j);
    }
  }

  // ---------- which tables can be copied ----------

  /** The store reports every batch written in full. */
  ghost predicate WrittenInFull(source: seq<Row>, written: nat -> nat) {
    forall i | 0 <= i < |BatchCopy.Batches(source, |source|)| ::
      written(i) == |BatchCopy.Batches(source, |source|)[i]|
  }

  lemma {:induction false} BatchesConvert(
    source: seq<Row>, count: int, prepare: Row -> Option<BatchCopy.Prepared<Row, seq<Cell>>>)
    requires BatchCopy.MapAll(source, prepare).Some?
    ensures forall b | b in BatchCopy.Batches(source, count) :: BatchCopy.MapAll(b, prepare).Some?
    decreases count
  {
    if count > 0 {
      var first, rest := BatchCopy.Prefix(source, BatchCopy.BATCH_SIZE), BatchCopy.Drop(source, BatchCopy.BATCH_SIZE);
      assert source == first + rest;
      BatchCopy.MapAllAppend(first, rest, prepare);
      BatchesConvert(rest, count - BatchCopy.BATCH_SIZE, prepare);
    }
  }

  /** Every table but the maintenance table is copied exactly when each of its rows converts and the store writes each
      batch in full. */
  lemma OrdinaryTableIsSentExactly(table: Table, runtime: Runtime, source: seq<Row>, written: nat -> nat)
    requires table.kind != OutboxMaintenance
    ensures AllSent(table, runtime, source, written)
       <==> WrittenInFull(source, written) && forall row | row in source :: Prepare(row, table, runtime).Some?
  {
    if AllSent(table, runtime, source, written) { SentIsFull(table, runtime, source, written); }
    if WrittenInFull(source, written) && forall row | row in source :: Prepare(row, table, runtime).Some? {
      FullIsSent(table, runtime, source, written);
    }
  }

  lemma SentIsFull(table: Table, runtime: Runtime, source: seq<Row>, written: nat -> nat)
    requires AllSent(table, runtime, source, written)
    ensures WrittenInFull(source, written) && forall row | row in source :: Prepare(row, table, runtime).Some?
  {
    var prepare, batches := Preparer(table, runtime), BatchCopy.Batches(source, |source|);
    SentConverts(table, runtime, source, written);
    forall row | row in source ensures Prepare(row, table, runtime).Some? {
      var i :| 0 <= i < |source| && source[i] == row;
      BatchCopy.MapAllAt(source, prepare, i);
    }
    forall i | 0 <= i < |batches| ensures written(i) == |batches[i]| {
      assert BatchCopy.BatchCopies(batches[i], prepare, Fitter(table), written(0 + i));
    }
  }

  lemma FullIsSent(table: Table, runtime: Runtime, source: seq<Row>, written: nat -> nat)
    requires table.kind != OutboxMaintenance && WrittenInFull(source, written)
    requires forall row | row in source :: Prepare(row, table, runtime).Some?
    ensures AllSent(table, runtime, source, written)
  {
    var prepare, batches := Preparer(table, runtime), BatchCopy.Batches(source, |source|);
    BatchCopy.BatchesPartition(source, |source|);
    AllConvert(table, runtime, source);
    BatchesConvert(source, |source|, prepare);
    forall i | 0 <= i < |batches|
      ensures BatchCopy.BatchCopies(batches[i], prepare, Fitter(table), written(0 + i))
    {
      assert batches[i] in batches;
    }
  }

  lemma {:induction false} AllConvert(table: Table, runtime: Runtime, source: seq<Row>)
    requires forall row | row in source :: Prepare(row, table, runtime).Some?
    ensures BatchCopy.MapAll(source, Preparer(table, runtime)).Some?
  {
    if source != [] {
      assert forall row | row in source[1..] :: row in source;
      AllConvert(table, runtime, source[1..]);
    }
  }

  /** An accepted maintenance table is the one row with singleton 1. */
  lemma MaintenanceIsOneRow(table: Table, runtime: Runtime, source: seq<Row>, written: nat -> nat, stored: seq<Row>)
    requires table == Table(OutboxMaintenance, MAINTENANCE_COLUMNS) && source != [] && |source[0]| == 2
    requires CopyAccepted(table, runtime, source, |source|, written, stored)
    ensures |source| == 1 && source[0][0] == Integer(1)
  {
    var first := BatchCopy.Batches(source, |source|)[0];
    assert BatchCopy.BatchCopies(first, Preparer(table, runtime), Fitter(table), written(0 + 0));
    assert BatchFits(first, table);
  }
}
