/** The sorted-key printer of plugin configurations, and the normal form the migration digests. */
module CanonicalJson {
  import opened SortedRows

  /** A parsed value. A number is represented by the token it prints as; an object keeps its own key order. */
  datatype Json =
    | Null
    | Bool(value: bool)
    | Number(token: string)
    | Text(text: string)
    | Array(elements: seq<Json>)
    | Object(members: seq<Row<Json>>)

  predicate NumberChar(c: char) { '0' <= c <= '9' || c in "+-.eE" }

  predicate NumberToken(token: string) { token != [] && forall i | 0 <= i < |token| :: NumberChar(token[i]) }

  ghost predicate WellFormed(v: Json) {
    match v
    case Number(token) => NumberToken(token)
    case Array(es) => forall i | 0 <= i < |es| :: WellFormed(es[i])
    case Object(ms) => DistinctKeys(ms) && forall i | 0 <= i < |ms| :: WellFormed(ms[i].value)
    case _ => true
  }

  // ---------- equality up to key order, independently of any sorting ----------

  ghost predicate Equivalent(a: Json, b: Json)
    decreases a
  {
    match (a, b)
    case (Array(es), Array(fs)) => |es| == |fs| && forall i | 0 <= i < |es| :: Equivalent(es[i], fs[i])
    case (Object(ms), Object(ns)) =>
      AllHaveEquivalents(ms, ns) && KeysWithin(ns, ms)
    case _ => a == b
  }

  ghost predicate AllHaveEquivalents(ms: seq<Row<Json>>, ns: seq<Row<Json>>)
    decreases ms
  {
    forall i | 0 <= i < |ms| :: HasEquivalent(ns, ms[i])
  }

  ghost predicate HasEquivalent(ns: seq<Row<Json>>, m: Row<Json>)
    decreases m
  {
    exists j :: 0 <= j < |ns| && ns[j].key == m.key && Equivalent(m.value, ns[j].value)
  }

  // ---------- the normal form: every object's keys sorted ----------

  function Normal(v: Json): Json {
    match v
    case Array(es) => Array(NormalAll(es))
    case Object(ms) => Object(Sort(NormalRows(ms)))
    case _ => v
  }

  function NormalAll(es: seq<Json>): (r: seq<Json>)
    ensures |r| == |es| && forall i | 0 <= i < |es| :: r[i] == Normal(es[i])
  {
    if es == [] then [] else [Normal(es[0])] + NormalAll(es[1..])
  }

  function NormalRows(ms: seq<Row<Json>>): (r: seq<Row<Json>>)
    ensures |r| == |ms| && forall i | 0 <= i < |ms| :: r[i] == Row(ms[i].key, Normal(ms[i].value))
  {
    if ms == [] then [] else [Row(ms[0].key, Normal(ms[0].value))] + NormalRows(ms[1..])
  }

  lemma {:induction false} NormalIsWellFormed(v: Json)
    requires WellFormed(v)
    ensures WellFormed(Normal(v))
  {
    match v
    case Array(es) =>
      forall i | 0 <= i < |es| ensures WellFormed(NormalAll(es)[i]) { NormalIsWellFormed(es[i]); }
    case Object(ms) =>
      var rows := NormalRows(ms);
      SortAscends(rows);
      var sorted := Sort(rows);
      forall i, j | 0 <= i < j < |sorted| ensures sorted[i].key != sorted[j].key {
        LessIsStrictOrder(sorted[i].key, sorted[j].key);
      }
      forall i | 0 <= i < |sorted| ensures WellFormed(sorted[i].value) {
        assert sorted[i] in rows;
        var j :| 0 <= j < |rows| && rows[j] == sorted[i];
        NormalIsWellFormed(ms[j].value);
      }
    case _ =>
  }

  /** The keys of every object ascend, at every depth. */
  ghost predicate KeysAscend(v: Json) {
    match v
    case Array(es) => forall i | 0 <= i < |es| :: KeysAscend(es[i])
    case Object(ms) => Ascending(ms) && forall i | 0 <= i < |ms| :: KeysAscend(ms[i].value)
    case _ => true
  }

  lemma {:induction false} NormalAscends(v: Json)
    requires WellFormed(v)
    ensures KeysAscend(Normal(v))
  {
    match v
    case Array(es) =>
      forall i | 0 <= i < |es| ensures KeysAscend(NormalAll(es)[i]) { NormalAscends(es[i]); }
    case Object(ms) =>
      var rows := NormalRows(ms);
      var sorted := Sort(rows);
      SortAscends(rows);
      forall i | 0 <= i < |sorted| ensures KeysAscend(sorted[i].value) {
        assert sorted[i] in rows;
        var j :| 0 <= j < |rows| && rows[j] == sorted[i];
        NormalAscends(ms[j].value);
      }
    case _ =>
  }

  lemma {:induction false} AscendingIsNormal(v: Json)
    requires WellFormed(v) && KeysAscend(v)
    ensures Normal(v) == v
  {
    match v
    case Array(es) =>
      forall i | 0 <= i < |es| ensures NormalAll(es)[i] == es[i] { AscendingIsNormal(es[i]); }
    case Object(ms) =>
      forall i | 0 <= i < |ms| ensures NormalRows(ms)[i] == ms[i] { AscendingIsNormal(ms[i].value); }
      assert NormalRows(ms) == ms;
      SortAscends(ms);
      AscendingIsUnique(Sort(ms), ms);
    case _ =>
  }

  /** The normal form identifies parsed values exactly up to key order. */
  lemma {:induction false} NormalIffEquivalent(a: Json, b: Json)
    requires WellFormed(a) && WellFormed(b)
    ensures Normal(a) == Normal(b) <==> Equivalent(a, b)
  {
    match (a, b)
    case (Array(es), Array(fs)) =>
      forall i | 0 <= i < |es| && i < |fs| ensures Decided(es[i], fs[i]) { NormalIffEquivalent(es[i], fs[i]); }
      ArraysDecided(es, fs);
    case (Object(ms), Object(ns)) =>
      forall i, j | 0 <= i < |ms| && 0 <= j < |ns| ensures Decided(ms[i].value, ns[j].value) {
        NormalIffEquivalent(ms[i].value, ns[j].value);
      }
      ObjectsDecided(ms, ns);
    case _ =>
  }

  ghost predicate Decided(a: Json, b: Json) { Normal(a) == Normal(b) <==> Equivalent(a, b) }

  lemma ArraysDecided(es: seq<Json>, fs: seq<Json>)
    requires forall i | 0 <= i < |es| && i < |fs| :: Decided(es[i], fs[i])
    ensures Decided(Array(es), Array(fs))
  {
    if |es| != |fs| {
      assert |NormalAll(es)| != |NormalAll(fs)|;
    } else if forall i | 0 <= i < |es| :: Equivalent(es[i], fs[i]) {
      forall i | 0 <= i < |es| ensures NormalAll(es)[i] == NormalAll(fs)[i] { assert Decided(es[i], fs[i]); }
      assert NormalAll(es) == NormalAll(fs);
    } else {
      var i :| 0 <= i < |es| && !Equivalent(es[i], fs[i]);
      assert Decided(es[i], fs[i]);
      assert NormalAll(es)[i] != NormalAll(fs)[i];
    }
  }

  lemma ObjectsDecided(ms: seq<Row<Json>>, ns: seq<Row<Json>>)
    requires WellFormed(Object(ms)) && WellFormed(Object(ns))
    requires forall i, j | 0 <= i < |ms| && 0 <= j < |ns| :: Decided(ms[i].value, ns[j].value)
    ensures Decided(Object(ms), Object(ns))
  {
    RowsDecided(ms, ns);
    SortingDecides(ms, ns);
  }

  lemma SortingDecides(ms: seq<Row<Json>>, ns: seq<Row<Json>>)
    requires DistinctKeys(ms) && DistinctKeys(ns)
    requires SameRows(NormalRows(ms), NormalRows(ns)) <==> Equivalent(Object(ms), Object(ns))
    ensures Decided(Object(ms), Object(ns))
  {
    NormalKeysDistinct(ms);
    NormalKeysDistinct(ns);
    SortedEqually(NormalRows(ms), NormalRows(ns));
  }

  lemma RowsDecided(ms: seq<Row<Json>>, ns: seq<Row<Json>>)
    requires DistinctKeys(ns)
    requires forall i, j | 0 <= i < |ms| && 0 <= j < |ns| :: Decided(ms[i].value, ns[j].value)
    ensures SameRows(NormalRows(ms), NormalRows(ns)) <==> Equivalent(Object(ms), Object(ns))
  {
    AllFound(ms, ns);
    RowsAgree(ms, ns);
  }

  lemma RowsAgree(ms: seq<Row<Json>>, ns: seq<Row<Json>>)
    requires DistinctKeys(ns)
    requires Contained(NormalRows(ms), NormalRows(ns)) <==> AllHaveEquivalents(ms, ns)
    ensures SameRows(NormalRows(ms), NormalRows(ns)) <==> Equivalent(Object(ms), Object(ns))
  {
    NormalKeysDistinct(ns);
    PartIsWhole(NormalRows(ms), NormalRows(ns));
    SameKeysNormal(ms, ns);
  }

  lemma NormalKeysDistinct(ms: seq<Row<Json>>)
    requires DistinctKeys(ms)
    ensures DistinctKeys(NormalRows(ms))
  {
  }

  lemma AllFound(ms: seq<Row<Json>>, ns: seq<Row<Json>>)
    requires forall i, j | 0 <= i < |ms| && 0 <= j < |ns| :: Decided(ms[i].value, ns[j].value)
    ensures Contained(NormalRows(ms), NormalRows(ns)) <==> AllHaveEquivalents(ms, ns)
  {
    EachRow(NormalRows(ms), NormalRows(ns));
    if i :| 0 <= i < |ms| && !HasEquivalent(ns, ms[i]) {
      RowFound(ms, ns, i);
    } else {
      forall i | 0 <= i < |ms| ensures NormalRows(ms)[i] in NormalRows(ns) { RowFound(ms, ns, i); }
    }
  }

  lemma RowFound(ms: seq<Row<Json>>, ns: seq<Row<Json>>, i: nat)
    requires i < |ms| && forall j | 0 <= j < |ns| :: Decided(ms[i].value, ns[j].value)
    ensures NormalRows(ms)[i] in NormalRows(ns) <==> HasEquivalent(ns, ms[i])
  {
    if NormalRows(ms)[i] in NormalRows(ns) {
      var j :| 0 <= j < |ns| && NormalRows(ns)[j] == NormalRows(ms)[i];
      assert Decided(ms[i].value, ns[j].value);
      assert ns[j].key == ms[i].key && Equivalent(ms[i].value, ns[j].value);
    }
    if j :| 0 <= j < |ns| && ns[j].key == ms[i].key && Equivalent(ms[i].value, ns[j].value) {
      assert Decided(ms[i].value, ns[j].value);
      assert NormalRows(ns)[j] == NormalRows(ms)[i];
    }
  }

  lemma SameKeysNormal(ms: seq<Row<Json>>, ns: seq<Row<Json>>)
    ensures KeysWithin(NormalRows(ns), NormalRows(ms)) <==> KeysWithin(ns, ms)
  {
    forall j | 0 <= j < |ns| ensures HasKey(NormalRows(ms), NormalRows(ns)[j].key) <==> HasKey(ms, ns[j].key) {
      if i :| 0 <= i < |ms| && ms[i].key == ns[j].key { assert NormalRows(ms)[i].key == ns[j].key; }
    }
  }

  lemma EachRow(a: seq<Row<Json>>, b: seq<Row<Json>>)
    ensures Contained(a, b) <==> forall i | 0 <= i < |a| :: a[i] in b
  {
  }

  // ---------- the printer ----------

  function Hex(digit: int): char
    requires 0 <= digit < 16
  {
    "0123456789abcdef"[digit]
  }

  /** One character of a JSON string (section 7 of RFC 8259), as JSON.stringify writes it. */
  function Escape(c: char): string {
    if c == '"' then "\\\"" else if c == '\\' then "\\\\"
    else if c == 8 as char then "\\b" else if c == 12 as char then "\\f"
    else if c == '\n' then "\\n" else if c == '\r' then "\\r" else if c == '\t' then "\\t"
    else if c < ' ' then "\\u00" + [Hex(c as int / 16), Hex(c as int % 16)]
    else [c]
  }

  function EscapeAll(text: string): string { if text == [] then "" else Escape(text[0]) + EscapeAll(text[1..]) }

  function Quote(text: string): string { "\"" + EscapeAll(text) + "\"" }

  /** Texts joined by commas. */
  function Join(texts: seq<string>): string
    decreases |texts|, 0
  {
    if texts == [] then "" else texts[0] + JoinRest(texts[1..])
  }

  function JoinRest(texts: seq<string>): string
    decreases |texts|, 1
  {
    if texts == [] then "" else "," + Join(texts)
  }

  function MemberTexts(rows: seq<Row<string>>): seq<string> {
    if rows == [] then [] else [Quote(rows[0].key) + ":" + rows[0].value] + MemberTexts(rows[1..])
  }

  function ScalarText(v: Json): string {
    match v
    case Null => "null"
    case Bool(value) => if value then "true" else "false"
    case Number(token) => token
    case Text(text) => Quote(text)
    case _ => ""
  }

  /** The printer: the members of an object in key order. */
  function CanonicalText(v: Json): string {
    match v
    case Array(es) => "[" + Join(ElementTexts(es)) + "]"
    case Object(ms) => "{" + Join(MemberTexts(Sort(RowTexts(ms)))) + "}"
    case _ => ScalarText(v)
  }

  function ElementTexts(es: seq<Json>): (r: seq<string>)
    ensures |r| == |es| && forall i | 0 <= i < |es| :: r[i] == CanonicalText(es[i])
  {
    if es == [] then [] else [CanonicalText(es[0])] + ElementTexts(es[1..])
  }

  function RowTexts(ms: seq<Row<Json>>): (r: seq<Row<string>>)
    ensures |r| == |ms| && forall i | 0 <= i < |ms| :: r[i] == Row(ms[i].key, CanonicalText(ms[i].value))
  {
    if ms == [] then [] else [Row(ms[0].key, CanonicalText(ms[0].value))] + RowTexts(ms[1..])
  }

  /** The same printer on a value whose members are already in order. */
  function Print(v: Json): string {
    match v
    case Array(es) => "[" + Join(PrintAll(es)) + "]"
    case Object(ms) => "{" + Join(MemberTexts(PrintRows(ms))) + "}"
    case _ => ScalarText(v)
  }

  function PrintAll(es: seq<Json>): (r: seq<string>)
    ensures |r| == |es| && forall i | 0 <= i < |es| :: r[i] == Print(es[i])
  {
    if es == [] then [] else [Print(es[0])] + PrintAll(es[1..])
  }

  function PrintRows(ms: seq<Row<Json>>): (r: seq<Row<string>>)
    ensures |r| == |ms| && forall i | 0 <= i < |ms| :: r[i] == Row(ms[i].key, Print(ms[i].value))
  {
    if ms == [] then [] else [Row(ms[0].key, Print(ms[0].value))] + PrintRows(ms[1..])
  }

  lemma {:induction false} CanonicalIsPrintedNormal(v: Json)
    ensures CanonicalText(v) == Print(Normal(v))
  {
    match v
    case Array(es) =>
      forall i | 0 <= i < |es| ensures CanonicalText(es[i]) == Print(Normal(es[i])) { CanonicalIsPrintedNormal(es[i]); }
      assert ElementTexts(es) == PrintAll(NormalAll(es));
    case Object(ms) =>
      forall i | 0 <= i < |ms| ensures CanonicalText(ms[i].value) == Print(Normal(ms[i].value)) {
        CanonicalIsPrintedNormal(ms[i].value);
      }
      assert RowTexts(ms) == MapValues(NormalRows(ms), Print);
      SortMaps(NormalRows(ms), Print);
      assert PrintRows(Sort(NormalRows(ms))) == MapValues(Sort(NormalRows(ms)), Print);
    case _ =>
  }
}
