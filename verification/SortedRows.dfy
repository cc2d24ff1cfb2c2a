/** Rows of an object sorted by key, as JavaScript's default sort of distinct keys leaves them. */
module SortedRows {
  datatype Row<V> = Row(key: string, value: V)

  predicate Less(a: string, b: string) {
    if b == [] then false else if a == [] then true
    else if a[0] != b[0] then a[0] < b[0] else Less(a[1..], b[1..])
  }

  lemma {:induction false} LessIsStrictOrder(a: string, b: string)
    ensures Less(a, b) ==> !Less(b, a) && a != b
    ensures a != b ==> Less(a, b) || Less(b, a)
    decreases |a|
  {
    if a != [] && b != [] && a[0] == b[0] {
      assert a == [a[0]] + a[1..] && b == [b[0]] + b[1..];
      LessIsStrictOrder(a[1..], b[1..]);
    }
  }

  lemma {:induction false} LessIsTransitive(a: string, b: string, c: string)
    requires Less(a, b) && Less(b, c)
    ensures Less(a, c)
    decreases |a|
  {
    if a != [] && a[0] == b[0] == c[0] { LessIsTransitive(a[1..], b[1..], c[1..]); }
  }

  function Insert<V>(row: Row<V>, sorted: seq<Row<V>>): seq<Row<V>> {
    if sorted == [] then [row]
    else if Less(row.key, sorted[0].key) then [row] + sorted
    else [sorted[0]] + Insert(row, sorted[1..])
  }

  function Sort<V>(rows: seq<Row<V>>): seq<Row<V>> {
    if rows == [] then [] else Insert(rows[0], Sort(rows[1..]))
  }

  ghost predicate DistinctKeys<V>(rows: seq<Row<V>>) {
    forall i, j | 0 <= i < j < |rows| :: rows[i].key != rows[j].key
  }

  ghost predicate Ascending<V>(rows: seq<Row<V>>) {
    forall i, j | 0 <= i < j < |rows| :: Less(rows[i].key, rows[j].key)
  }

  ghost predicate SameRows<V>(a: seq<Row<V>>, b: seq<Row<V>>) {
    Contained(a, b) && Contained(b, a)
  }

  ghost predicate Contained<V>(a: seq<Row<V>>, b: seq<Row<V>>) { forall r | r in a :: r in b }

  lemma {:induction false} InsertAscends<V>(row: Row<V>, sorted: seq<Row<V>>)
    requires Ascending(sorted) && forall r | r in sorted :: r.key != row.key
    ensures Ascending(Insert(row, sorted)) && SameRows(Insert(row, sorted), [row] + sorted)
  {
    if sorted != [] {
      LessIsStrictOrder(row.key, sorted[0].key);
      if Less(row.key, sorted[0].key) {
        forall j | 0 < j < |sorted| ensures Less(row.key, sorted[j].key) {
          LessIsTransitive(row.key, sorted[0].key, sorted[j].key);
        }
      } else {
        InsertAscends(row, sorted[1..]);
        var rest := Insert(row, sorted[1..]);
        forall j | 0 <= j < |rest| ensures Less(sorted[0].key, rest[j].key) {
          assert rest[j] in [row] + sorted[1..];
        }
      }
    }
  }

  lemma {:induction false} SortAscends<V>(rows: seq<Row<V>>)
    requires DistinctKeys(rows)
    ensures Ascending(Sort(rows)) && SameRows(Sort(rows), rows)
  {
    if rows != [] {
      SortAscends(rows[1..]);
      forall r | r in Sort(rows[1..]) ensures r.key != rows[0].key {
        assert r in rows[1..];
      }
      InsertAscends(rows[0], Sort(rows[1..]));
      assert rows == [rows[0]] + rows[1..];
    }
  }

  ghost predicate KeysWithin<V, W>(a: seq<Row<V>>, b: seq<Row<W>>) {
    forall i | 0 <= i < |a| :: HasKey(b, a[i].key)
  }

  ghost predicate HasKey<V>(rows: seq<Row<V>>, key: string) { exists j :: 0 <= j < |rows| && rows[j].key == key }

  /** With distinct keys, covering all the keys makes a part the whole. */
  lemma PartIsWhole<V>(a: seq<Row<V>>, b: seq<Row<V>>)
    requires DistinctKeys(b)
    ensures SameRows(a, b) <==> Contained(a, b) && KeysWithin(b, a)
  {
    if Contained(a, b) && KeysWithin(b, a) {
      forall r | r in b ensures r in a {
        var j :| 0 <= j < |b| && b[j] == r;
        assert HasKey(a, b[j].key);
        var i :| 0 <= i < |a| && a[i].key == r.key;
        assert a[i] in b;
        var k :| 0 <= k < |b| && b[k] == a[i];
        assert k == j;
      }
    } else if SameRows(a, b) {
      forall j | 0 <= j < |b| ensures HasKey(a, b[j].key) {
        assert b[j] in b;
        var i :| 0 <= i < |a| && a[i] == b[j];
        assert a[i].key == b[j].key;
      }
    }
  }

  /** Ascending rows are determined by which rows they are. */
  lemma {:induction false} AscendingIsUnique<V>(a: seq<Row<V>>, b: seq<Row<V>>)
    requires Ascending(a) && Ascending(b) && SameRows(a, b)
    ensures a == b
    decreases |a|
  {
    assert b != [] ==> b[0] in a;
    if a != [] {
      assert a[0] in b;
      var i :| 0 <= i < |b| && b[i] == a[0];
      var j :| 0 <= j < |a| && a[j] == b[0];
      LessIsStrictOrder(a[0].key, b[0].key);
      forall r ensures r in a[1..] <==> r in b[1..] {
        LessIsStrictOrder(r.key, r.key);
        assert a == [a[0]] + a[1..] && b == [b[0]] + b[1..];
        assert r in a <==> r in b;
      }
      AscendingIsUnique(a[1..], b[1..]);
    }
  }

  /** Sorting makes two objects' rows equal exactly when they have the same rows. */
  lemma SortedEqually<V>(a: seq<Row<V>>, b: seq<Row<V>>)
    requires DistinctKeys(a) && DistinctKeys(b)
    ensures Sort(a) == Sort(b) <==> SameRows(a, b)
  {
    SortAscends(a);
    SortAscends(b);
    if SameRows(a, b) { AscendingIsUnique(Sort(a), Sort(b)); }
  }

  function MapValues<V, W>(rows: seq<Row<V>>, f: V -> W): (r: seq<Row<W>>)
    ensures |r| == |rows| && forall i | 0 <= i < |rows| :: r[i] == Row(rows[i].key, f(rows[i].value))
  {
    if rows == [] then [] else [Row(rows[0].key, f(rows[0].value))] + MapValues(rows[1..], f)
  }

  lemma {:induction false} InsertMaps<V, W>(row: Row<V>, sorted: seq<Row<V>>, f: V -> W)
    ensures MapValues(Insert(row, sorted), f) == Insert(Row(row.key, f(row.value)), MapValues(sorted, f))
  {
    if sorted != [] {
      InsertMaps(row, sorted[1..], f);
      assert MapValues(sorted, f)[1..] == MapValues(sorted[1..], f);
    }
  }

  /** The order depends on keys alone, so values may be mapped before or after sorting. */
  lemma {:induction false} SortMaps<V, W>(rows: seq<Row<V>>, f: V -> W)
    ensures MapValues(Sort(rows), f) == Sort(MapValues(rows, f))
  {
    if rows != [] {
      SortMaps(rows[1..], f);
      InsertMaps(rows[0], Sort(rows[1..]), f);
      assert MapValues(rows, f)[1..] == MapValues(rows[1..], f);
    }
  }
}
