/** A captured table: copied to the target, read back and compared, with the row rules of the migration.

    A digest is represented by what it digests: a row by its normal form, a table by its rows' forms. */
module SnapshotCopy {
  import opened Wrappers
  import opened CanonicalJson
  import opened SnapshotRows
  import BatchCopy

  /** The form expected of what a source row yields. */
  function FormFor(row: Row, table: Table, runtime: Runtime): Option<seq<Cell>> {
    var expanded := Expand(row, table, runtime);
    if expanded.None? then None else RowForm(expanded.value, table.columns, runtime)
  }

  /** What a source row yields: the values sent to the target and the form expected of it. */
  function Prepare(row: Row, table: Table, runtime: Runtime): Option<BatchCopy.Prepared<Row, seq<Cell>>> {
    var sent, form := SentFor(row, table, runtime), FormFor(row, table, runtime);
    if sent.None? || form.None? then None else Some(BatchCopy.Prepared(sent.value, form.value))
  }

  /** The singleton row of the maintenance table is updated in place, so its batch must be that one row. */
  predicate BatchFits(batch: seq<Row>, table: Table) {
    table.kind.OutboxMaintenance? ==> |batch| == 1 && Field(batch[0], table.columns, "singleton") == Integer(1)
  }

  function Preparer(table: Table, runtime: Runtime): Row -> Option<BatchCopy.Prepared<Row, seq<Cell>>> {
    (row: Row) => Prepare(row, table, runtime)
  }

  function Former(table: Table, runtime: Runtime): Row -> Option<seq<Cell>> {
    (row: Row) => RowForm(row, table.columns, runtime)
  }

  function Fitter(table: Table): seq<Row> -> bool { (batch: seq<Row>) => BatchFits(batch, table) }

  /** Every batch of the source converts, suits its table and is reported written in full. */
  ghost predicate AllSent(table: Table, runtime: Runtime, source: seq<Row>, written: nat -> nat) {
    BatchCopy.Completes(source, |source|, Preparer(table, runtime), Fitter(table), written, 0)
  }

  /** What it takes for the migration to accept a table's copy. */
  ghost predicate CopyAccepted(
    table: Table, runtime: Runtime, source: seq<Row>, count: nat, written: nat -> nat, stored: seq<Row>)
  {
    BatchCopy.Accepts(source, count, Preparer(table, runtime), Fitter(table), written, stored, Former(table, runtime))
  }

  /** The rows sent are those the source rows yield, each once and in order. */
  ghost predicate SentOnce(table: Table, runtime: Runtime, source: seq<Row>, sent: seq<Row>) {
    |sent| == |source| && forall i | 0 <= i < |source| :: SentFor(source[i], table, runtime) == Some(sent[i])
  }

  /** One table. With the count taken in the same snapshot, a report is given exactly when the copy is accepted;
      every source row has then been sent once, in order, and the digest is that of the source rows' forms. */
  method MigrateTable(
    table: Table, runtime: Runtime, source: seq<Row>, count: nat, written: nat -> nat, stored: seq<Row>)
    returns (r: Result<BatchCopy.Report<seq<Cell>>, BatchCopy.CopyError>, batches: seq<seq<Row>>)
    ensures r.Success? <==> CopyAccepted(table, runtime, source, count, written, stored)
    ensures r.Success? ==> r.value.rows == count && forall b | b in batches :: 1 <= |b| <= 128
    ensures r.Success? && count == |source| ==>
              && SentOnce(table, runtime, source, BatchCopy.Flatten(batches))
              && DigestOf(table, runtime, source, r.value.digest)
  {
    r, batches := BatchCopy.CopyTable(source, count, Preparer(table, runtime), Fitter(table), written,
                                      stored, Former(table, runtime));
    if r.Success? && count == |source| {
      SourceConverts(table, runtime, source, written, stored);
      PreparedForms(table, runtime, source);
      PreparedSent(table, runtime, source);
    }
  }

  ghost predicate DigestOf(table: Table, runtime: Runtime, source: seq<Row>, digest: seq<seq<Cell>>) {
    |digest| == |source| && forall i | 0 <= i < |source| :: FormFor(source[i], table, runtime) == Some(digest[i])
  }

  lemma PreparedRow(table: Table, runtime: Runtime, source: seq<Row>, i: nat)
    requires i < |source| && BatchCopy.MapAll(source, Preparer(table, runtime)).Some?
    ensures var prepared := BatchCopy.MapAll(source, Preparer(table, runtime)).value;
            && Prepare(source[i], table, runtime) == Some(prepared[i])
            && SentFor(source[i], table, runtime) == Some(BatchCopy.Sent(prepared)[i])
            && FormFor(source[i], table, runtime) == Some(BatchCopy.Forms(prepared)[i])
  {
    BatchCopy.MapAllAt(source, Preparer(table, runtime), i);
    BatchCopy.FormsAt(BatchCopy.MapAll(source, Preparer(table, runtime)).value, i);
  }

  lemma SourceConverts(table: Table, runtime: Runtime, source: seq<Row>, written: nat -> nat, stored: seq<Row>)
    requires CopyAccepted(table, runtime, source, |source|, written, stored)
    ensures BatchCopy.Prefix(source, BatchCopy.RoundUp(|source|)) == source
    ensures BatchCopy.MapAll(source, Preparer(table, runtime)).Some?
  {
    BatchCopy.RoundUpIsCeiling(|source|);
  }

  lemma PreparedForms(table: Table, runtime: Runtime, source: seq<Row>)
    requires BatchCopy.MapAll(source, Preparer(table, runtime)).Some?
    ensures DigestOf(table, runtime, source,
                     BatchCopy.Forms(BatchCopy.MapAll(source, Preparer(table, runtime)).value))
  {
    forall i | 0 <= i < |source|
      ensures FormFor(source[i], table, runtime)
           == Some(BatchCopy.Forms(BatchCopy.MapAll(source, Preparer(table, runtime)).value)[i])
    {
      PreparedRow(table, runtime, source, i);
    }
  }

  lemma PreparedSent(table: Table, runtime: Runtime, source: seq<Row>)
    requires BatchCopy.MapAll(source, Preparer(table, runtime)).Some?
    ensures SentOnce(table, runtime, source,
                     BatchCopy.Sent(BatchCopy.MapAll(source, Preparer(table, runtime)).value))
  {
    forall i | 0 <= i < |source|
      ensures SentFor(source[i], table, runtime)
           == Some(BatchCopy.Sent(BatchCopy.MapAll(source, Preparer(table, runtime)).value)[i])
    {
      PreparedRow(table, runtime, source, i);
    }
  }

  /** If a table's copy is accepted, every stored row read back has the form of the source row in its place. */
  lemma AcceptedTableAgrees(
    table: Table, runtime: Runtime, source: seq<Row>, written: nat -> nat, stored: seq<Row>, i: nat)
    requires CopyAccepted(table, runtime, source, |source|, written, stored) && i < |source|
    ensures |stored| >= |source| && FormFor(source[i], table, runtime).Some?
    ensures RowForm(stored[i], table.columns, runtime) == FormFor(source[i], table, runtime)
  {
    var prepare, form := Preparer(table, runtime), Former(table, runtime);
    SourceConverts(table, runtime, source, written, stored);
    PreparedRow(table, runtime, source, i);
    BatchCopy.AcceptedCopyIsComplete(source, prepare, Fitter(table), written, stored, form);
    BatchCopy.MapAllAt(stored[..|source|], form, i);
  }

  /** If a table's copy is accepted, each JSON value t the target holds is, up to key order, the JSON value of the
      source, unless it is a string: a string is accepted only when its text is JSON for the source's value, which
      the string itself is not. */
  lemma AcceptedJsonIsEquivalent(
    table: Table, runtime: Runtime, source: seq<Row>, written: nat -> nat, stored: seq<Row>, i: nat, j: nat, t: Json)
    requires CopyAccepted(table, runtime, source, |source|, written, stored) && i < |source| && i < |stored|
    requires j < |table.columns| && j < |stored[i]| && stored[i][j] == Driver(t)
    requires table.columns[j].kind.JsonKind? && table.columns[j].origin.SameName?
    requires |source[i]| == |table.columns| && Faithful(runtime)
    requires WellFormed(t) && WellFormedAt(source[i][j], runtime) && WellFormedAt(Driver(t), runtime)
    ensures JsonOf(source[i][j], runtime).Some?
    ensures TakenFor(t, JsonOf(source[i][j], runtime).value, runtime)
    ensures Equivalent(t, JsonOf(source[i][j], runtime).value) <==> !t.Text?
  {
    AcceptedTableAgrees(table, runtime, source, written, stored, i);
    var expected := Expand(source[i], table, runtime).value;
    ExpandedAt(source[i], table, runtime, j);
    RowFormAt(expected, table.columns, runtime, j);
    RowFormAt(stored[i], table.columns, runtime, j);
    TakenForExactly(source[i][j], t, runtime);
    TakenForTruly(t, JsonOf(source[i][j], runtime).value, runtime);
  }

  // ---------- which tables pass their own read-back ----------

  /** What the target returns when it holds exactly the converted source rows. */
  function ReturnedRows(table: Table, runtime: Runtime, source: seq<Row>): seq<Row> {
    if source == [] then [] else
    var held := HeldFor(source[0], table, runtime);
    [if held.Some? then ReturnedRow(held.value, table.columns, runtime) else []]
    + ReturnedRows(table, runtime, source[1..])
  }

  lemma {:induction false} ReturnedRowsAt(table: Table, runtime: Runtime, source: seq<Row>, i: nat)
    requires i < |source|
    ensures |ReturnedRows(table, runtime, source)| == |source|
    ensures var held := HeldFor(source[i], table, runtime);
            ReturnedRows(table, runtime, source)[i]
            == if held.Some? then ReturnedRow(held.value, table.columns, runtime) else []
  {
    if i > 0 {
      ReturnedRowsAt(table, runtime, source[1..], i - 1);
    } else if |source| > 1 {
      ReturnedRowsAt(table, runtime, source[1..], 0);
    }
  }

  ghost predicate RowHasBareString(row: Row, table: Table, runtime: Runtime) {
    var e := Expand(row, table, runtime);
    e.Some? && HasBareString(e.value, table.columns, runtime)
  }

  lemma RowPasses(table: Table, runtime: Runtime, row: Row, returned: Row)
    requires Faithful(runtime) && Prepare(row, table, runtime).Some?
    requires returned == ReturnedRow(HeldFor(row, table, runtime).value, table.columns, runtime)
    ensures RowForm(returned, table.columns, runtime) == FormFor(row, table, runtime)
       <==> !RowHasBareString(row, table, runtime)
  {
    RowReadsBack(Expand(row, table, runtime).value, table.columns, runtime);
  }

  /** A target that holds exactly the converted source rows is accepted exactly when no JSON column of the table
      holds a bare JSON string. */
  lemma TablePassesUnlessBareString(table: Table, runtime: Runtime, source: seq<Row>, written: nat -> nat)
    requires Faithful(runtime) && AllSent(table, runtime, source, written)
    ensures CopyAccepted(table, runtime, source, |source|, written, ReturnedRows(table, runtime, source))
       <==> forall row | row in source :: !RowHasBareString(row, table, runtime)
  {
    var prepare, form := Preparer(table, runtime), Former(table, runtime);
    var stored := ReturnedRows(table, runtime, source);
    SentConverts(table, runtime, source, written);
    BatchCopy.RoundUpIsCeiling(|source|);
    var prepared := BatchCopy.MapAll(source, prepare).value;
    if source != [] { ReturnedRowsAt(table, runtime, source, 0); }
    BatchCopy.MapAllIs(stored, form, BatchCopy.Forms(prepared));
    forall i | 0 <= i < |source|
      ensures form(stored[i]) == Some(BatchCopy.Forms(prepared)[i]) <==> !RowHasBareString(source[i], table, runtime)
    {
      PreparedRow(table, runtime, source, i);
      ReturnedRowsAt(table, runtime, source, i);
      RowPasses(table, runtime, source[i], stored[i]);
    }
  }

  // ---------- single JSON values, as the smallest cases ----------

  const JSON_TABLE := Table(Ordinary, [Column("value", JsonKind, SameName)])

  /** A runtime that reads two JSON texts, as JSON.parse reads them. */
  const SAMPLE := Runtime(SampleParse, (s: string) => None, (ms: int) => "", SampleShow, (s: string) => None)

  function SampleParse(s: string): Option<Json> {
    if s == "5" then Some(Number("5")) else if s == "\"a\"" then Some(Text("a")) else None
  }

  function SampleShow(v: Value): string { if v.Str? then v.s else "" }

  lemma SampleIsFaithful()
    ensures Faithful(SAMPLE)
  {
  }

  lemma JsonRowConverts(runtime: Runtime, text: string)
    requires runtime.parseJson(text).Some?
    ensures var form := JsonForm(runtime.parseJson(text)).value;
            && Prepare([Str(text)], JSON_TABLE, runtime) == Some(BatchCopy.Prepared([Str(text)], [form]))
            && RowForm([Str(text)], JSON_TABLE.columns, runtime) == Some([form])
            && Expand([Str(text)], JSON_TABLE, runtime) == Some([Str(text)])
  {
    SingleColumn(Str(text), JSON_TABLE.columns[0], runtime);
    assert JSON_TABLE.columns == [JSON_TABLE.columns[0]];
  }

  lemma JsonRowSent(runtime: Runtime, text: string)
    requires runtime.parseJson(text).Some?
    ensures AllSent(JSON_TABLE, runtime, [[Str(text)]], (batch: nat) => 1)
    ensures BatchCopy.MapAll([[Str(text)]], Preparer(JSON_TABLE, runtime))
         == Some([BatchCopy.Prepared([Str(text)], [JsonForm(runtime.parseJson(text)).value])])
  {
    JsonRowConverts(runtime, text);
    var rows, prepare := [[Str(text)]], Preparer(JSON_TABLE, runtime);
    BatchCopy.MapAllFrom(rows, prepare, [prepare([Str(text)]).value]);
    BatchCopy.OneBatch(rows, prepare, Fitter(JSON_TABLE), (batch: nat) => 1);
  }

  /** Whatever JSON a text is, a target that holds the string of that text instead is accepted. */
  lemma TextTakenForJson(runtime: Runtime, text: string)
    requires Faithful(runtime) && runtime.parseJson(text).Some?
    ensures CopyAccepted(JSON_TABLE, runtime, [[Str(text)]], 1, (batch: nat) => 1, [[Driver(Text(text))]])
    ensures !Equivalent(Text(text), runtime.parseJson(text).value)
  {
    var rows, form := [[Str(text)]], JsonForm(runtime.parseJson(text)).value;
    JsonRowConverts(runtime, text);
    JsonRowSent(runtime, text);
    BatchCopy.MapAllFrom(rows, Former(JSON_TABLE, runtime), [[form]]);
    BatchCopy.RoundUpIsCeiling(1);
    assert BatchCopy.Prefix(rows, BatchCopy.RoundUp(1)) == rows;
    var prepared := [BatchCopy.Prepared([Str(text)], [form])];
    BatchCopy.FormsAt(prepared, 0);
    assert BatchCopy.Forms(prepared) == [[form]];
  }

  /** A concrete case: the source holds the number 5, the target the string "5", and the copy is accepted. */
  lemma StringTakenForNumber()
    ensures Faithful(SAMPLE) && JsonOf(Str("5"), SAMPLE) == Some(Number("5"))
    ensures CopyAccepted(JSON_TABLE, SAMPLE, [[Str("5")]], 1, (batch: nat) => 1, [[Driver(Text("5"))]])
    ensures !Equivalent(Text("5"), Number("5"))
  {
    SampleIsFaithful();
    TextTakenForJson(SAMPLE, "5");
  }

  /** A concrete case: a table that holds the one JSON value "a" is refused although the target holds just that. */
  lemma BareStringRefused()
    ensures var source := [[Str("\"a\"")]];
            && Faithful(SAMPLE) && AllSent(JSON_TABLE, SAMPLE, source, (batch: nat) => 1)
            && !CopyAccepted(JSON_TABLE, SAMPLE, source, 1, (batch: nat) => 1, ReturnedRows(JSON_TABLE, SAMPLE, source))
  {
    var text := "\"a\"";
    var source := [[Str(text)]];
    SampleIsFaithful();
    JsonRowConverts(SAMPLE, text);
    JsonRowSent(SAMPLE, text);
    TablePassesUnlessBareString(JSON_TABLE, SAMPLE, source, (batch: nat) => 1);
    assert BareString(Expand(source[0], JSON_TABLE, SAMPLE).value[0], JSON_TABLE.columns[0].kind, SAMPLE);
    assert source[0] in source && RowHasBareString(source[0], JSON_TABLE, SAMPLE);
  }

  lemma SentConverts(table: Table, runtime: Runtime, source: seq<Row>, written: nat -> nat)
    requires AllSent(table, runtime, source, written)
    ensures BatchCopy.MapAll(source, Preparer(table, runtime)).Some?
  {
    BatchCopy.CompletedConverts(source, |source|, Preparer(table, runtime), Fitter(table), written, 0);
    BatchCopy.RoundUpIsCeiling(|source|);
  }

  // ---------- rows the read-back does not reach ----------

  /** After a source of whole batches, any further rows of the target go unread; after any other source a further
      row is noticed. */
  lemma UnreadRows(
    table: Table, runtime: Runtime, source: seq<Row>, written: nat -> nat, stored: seq<Row>, extra: Row)
    requires CopyAccepted(table, runtime, source, |source|, written, stored)
    ensures CopyAccepted(table, runtime, source, |source|, written, stored + [extra])
       <==> |source| % 128 == 0
  {
    var prepare, fits, form := Preparer(table, runtime), Fitter(table), Former(table, runtime);
    if |source| % 128 == 0 {
      BatchCopy.FullBatchHidesRows(source, prepare, fits, written, stored, form, [extra]);
    } else {
      BatchCopy.AcceptedCopyReadsEverything(source, prepare, fits, written, stored, form);
      if CopyAccepted(table, runtime, source, |source|, written, stored + [extra]) {
        BatchCopy.AcceptedCopyReadsEverything(source, prepare, fits, written, stored + [extra], form);
      }
    }
  }

  const KEYED := Table(Ordinary, [Column("id", TextKind, SameName)])

  function Key(i: nat): string { if i == 0 then "" else Key(i - 1) + "a" }

  function Keyed(n: nat): seq<Row> { if n == 0 then [] else Keyed(n - 1) + [[Str(Key(n - 1))]] }

  lemma {:induction false} KeyedAt(n: nat, i: nat)
    requires i < n
    ensures |Keyed(n)| == n && Keyed(n)[i] == [Str(Key(i))] && |Key(i)| == i
  {
    KeyLength(i);
    if i < n - 1 { KeyedAt(n - 1, i); } else { KeyedLength(n - 1); }
  }

  lemma {:induction false} KeyLength(i: nat)
    ensures |Key(i)| == i
  {
    if i > 0 { KeyLength(i - 1); }
  }

  lemma {:induction false} KeyedLength(n: nat)
    ensures |Keyed(n)| == n
  {
    if n > 0 { KeyedLength(n - 1); }
  }

  lemma KeyedRowConverts(runtime: Runtime, key: string)
    ensures Prepare([Str(key)], KEYED, runtime)
         == Some(BatchCopy.Prepared([Str(key)], [TextCell(runtime.show(Str(key)))]))
    ensures RowForm([Str(key)], KEYED.columns, runtime) == Some([TextCell(runtime.show(Str(key)))])
  {
    SingleColumn(Str(key), KEYED.columns[0], runtime);
    assert KEYED.columns == [KEYED.columns[0]];
  }

  /** The functions over columns, on a row with a single one. */
  lemma SingleColumn(v: Value, c: Column, runtime: Runtime)
    requires c.origin.SameName? && SqlValue(v, c.kind) == Some(v) && FormOf(v, c.kind, runtime).Some?
    ensures ExpandColumns([v], [c], runtime) == Some([v]) && SqlRow([v], [c]) == Some([v])
    ensures RowForm([v], [c], runtime) == Some([FormOf(v, c.kind, runtime).value])
  {
    var cell := FormOf(v, c.kind, runtime).value;
    assert [v][1..] == [] && [c][1..] == [] && [v] + [] == [v] && [cell] + [] == [cell];
    assert ExpandColumns([], [], runtime) == Some([]) && SqlRow([], []) == Some([]);
    assert RowForm([], [], runtime) == Some([]);
  }

  /** A concrete case: 128 rows with distinct text keys are accepted although the target holds a further row with
      a key of its own. */
  lemma ExtraRowUnread(runtime: Runtime)
    ensures var n: nat := BatchCopy.BATCH_SIZE;
            var source := Keyed(n);
            && n == 128 && |source| == n
            && (forall i, j | 0 <= i < j < |source| :: source[i] != source[j])
            && [Str(Key(n))] !in source
            && CopyAccepted(KEYED, runtime, source, |source|, (batch: nat) => n, source + [[Str(Key(n))]])
  {
    var n := BatchCopy.BATCH_SIZE;
    var source := Keyed(n);
    KeyedLength(n);
    KeyLength(n);
    forall i | 0 <= i < n ensures source[i] == [Str(Key(i))] && |Key(i)| == i { KeyedAt(n, i); }
    KeyedAccepted(runtime, source, n);
    UnreadRows(KEYED, runtime, source, (batch: nat) => BatchCopy.BATCH_SIZE, source, [Str(Key(n))]);
  }

  lemma KeyedAccepted(runtime: Runtime, source: seq<Row>, n: nat)
    requires |source| == n == BatchCopy.BATCH_SIZE
    requires forall i | 0 <= i < n :: source[i] == [Str(Key(i))]
    ensures CopyAccepted(KEYED, runtime, source, n, (batch: nat) => BatchCopy.BATCH_SIZE, source)
  {
    var prepare, form := Preparer(KEYED, runtime), Former(KEYED, runtime);
    KeyedConverts(runtime, source);
    BatchCopy.OneBatch(source, prepare, Fitter(KEYED), (batch: nat) => BatchCopy.BATCH_SIZE);
    BatchCopy.RoundUpIsCeiling(n);
  }

  lemma {:induction false} KeyedConverts(runtime: Runtime, rows: seq<Row>)
    requires forall i | 0 <= i < |rows| :: |rows[i]| == 1 && rows[i][0].Str?
    ensures BatchCopy.MapAll(rows, Preparer(KEYED, runtime)).Some?
    ensures BatchCopy.MapAll(rows, Former(KEYED, runtime))
         == Some(BatchCopy.Forms(BatchCopy.MapAll(rows, Preparer(KEYED, runtime)).value))
  {
    if rows != [] {
      assert rows[0] == [Str(rows[0][0].s)];
      KeyedRowConverts(runtime, rows[0][0].s);
      KeyedConverts(runtime, rows[1..]);
    }
  }
}
