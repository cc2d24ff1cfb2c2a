/** A reader of JSON texts (RFC 8259), written from the grammar alone, and what it makes of the printer's texts. */
module JsonReader {
  import opened Wrappers
  import opened SortedRows
  import opened CanonicalJson

  /** What was read from the front of a text, and what follows it. */
  type Reading<T> = Option<(T, string)>

  // ---------- strings (section 7) ----------

  function HexValue(c: char): Option<int> {
    if '0' <= c <= '9' then Some(c as int - '0' as int)
    else if 'a' <= c <= 'f' then Some(c as int - 'a' as int + 10)
    else if 'A' <= c <= 'F' then Some(c as int - 'A' as int + 10) else None
  }

  /** The character four hexadecimal digits name; surrogates name none by themselves. */
  function ReadHex(text: string): (r: Reading<char>)
    ensures r.Some? ==> |r.value.1| < |text|
  {
    if |text| < 4 then None else
    var a, b, c, d := HexValue(text[0]), HexValue(text[1]), HexValue(text[2]), HexValue(text[3]);
    if a.None? || b.None? || c.None? || d.None? then None else
    var code := ((a.value * 16 + b.value) * 16 + c.value) * 16 + d.value;
    if 0 <= code < 0xD800 || 0xE000 <= code < 0x1_0000 then Some((code as char, text[4..])) else None
  }

  /** One character of a string, escaped or not. */
  function ReadChar(text: string): (r: Reading<char>)
    ensures r.Some? ==> |r.value.1| < |text|
  {
    if text == "" || text[0] == '"' || text[0] < ' ' then None
    else if text[0] != '\\' then Some((text[0], text[1..]))
    else if |text| < 2 then None
    else match text[1]
         case '"' => Some(('"', text[2..]))
         case '\\' => Some(('\\', text[2..]))
         case '/' => Some(('/', text[2..]))
         case 'b' => Some((8 as char, text[2..]))
         case 'f' => Some((12 as char, text[2..]))
         case 'n' => Some(('\n', text[2..]))
         case 'r' => Some(('\r', text[2..]))
         case 't' => Some(('\t', text[2..]))
         case 'u' => ReadHex(text[2..])
         case _ => None
  }

  /** The characters up to the closing quote. */
  function ReadChars(text: string): (r: Reading<string>)
    ensures r.Some? ==> |r.value.1| < |text|
    decreases |text|
  {
    if text == "" then None
    else if text[0] == '"' then Some(("", text[1..]))
    else
    var first := ReadChar(text);
    if first.None? then None else
    var others := ReadChars(first.value.1);
    if others.None? then None else Some(([first.value.0] + others.value.0, others.value.1))
  }

  // ---------- values (sections 3 to 6); the printer writes no insignificant white space ----------

  function ReadToken(text: string): (string, string) {
    if text == "" || !NumberChar(text[0]) then ("", text) else
    var others := ReadToken(text[1..]);
    ([text[0]] + others.0, others.1)
  }

  function ReadWord(text: string, word: string, v: Json): Reading<Json> {
    if |word| <= |text| && text[..|word|] == word then Some((v, text[|word|..])) else None
  }

  lemma {:induction false} TokenIsShorter(text: string)
    ensures |ReadToken(text).1| <= |text|
    ensures text != "" && NumberChar(text[0]) ==> |ReadToken(text).1| < |text|
  {
    if text != "" { TokenIsShorter(text[1..]); }
  }

  function ReadValue(text: string): (r: Reading<Json>)
    ensures r.Some? ==> |r.value.1| < |text|
    decreases |text|, 0
  {
    if text == "" then None
    else if text[0] == 'n' then ReadWord(text, "null", Null)
    else if text[0] == 't' then ReadWord(text, "true", Bool(true))
    else if text[0] == 'f' then ReadWord(text, "false", Bool(false))
    else if text[0] == '"' then
      var s := ReadChars(text[1..]);
      if s.None? then None else Some((Text(s.value.0), s.value.1))
    else if text[0] == '[' then
      if |text| > 1 && text[1] == ']' then Some((Array([]), text[2..])) else
      var es := ReadElements(text[1..]);
      if es.None? then None else Some((Array(es.value.0), es.value.1))
    else if text[0] == '{' then
      if |text| > 1 && text[1] == '}' then Some((Object([]), text[2..])) else
      var ms := ReadMembers(text[1..]);
      if ms.None? then None else Some((Object(ms.value.0), ms.value.1))
    else if NumberChar(text[0]) then
      TokenIsShorter(text);
      Some((Number(ReadToken(text).0), ReadToken(text).1))
    else None
  }

  /** The elements of an array up to its closing bracket. */
  function ReadElements(text: string): (r: Reading<seq<Json>>)
    ensures r.Some? ==> |r.value.1| < |text|
    decreases |text|, 1
  {
    var first := ReadValue(text);
    if first.None? || first.value.1 == "" then None
    else if first.value.1[0] == ']' then Some(([first.value.0], first.value.1[1..]))
    else if first.value.1[0] != ',' then None
    else
    var others := ReadElements(first.value.1[1..]);
    if others.None? then None else Some(([first.value.0] + others.value.0, others.value.1))
  }

  function ReadMember(text: string): (r: Reading<Row<Json>>)
    ensures r.Some? ==> |r.value.1| < |text|
    decreases |text|, 1
  {
    if text == "" || text[0] != '"' then None else
    var key := ReadChars(text[1..]);
    if key.None? || key.value.1 == "" || key.value.1[0] != ':' then None else
    var v := ReadValue(key.value.1[1..]);
    if v.None? then None else Some((Row(key.value.0, v.value.0), v.value.1))
  }

  /** The members of an object up to its closing brace. */
  function ReadMembers(text: string): (r: Reading<seq<Row<Json>>>)
    ensures r.Some? ==> |r.value.1| < |text|
    decreases |text|, 2
  {
    var first := ReadMember(text);
    if first.None? || first.value.1 == "" then None
    else if first.value.1[0] == '}' then Some(([first.value.0], first.value.1[1..]))
    else if first.value.1[0] != ',' then None
    else
    var others := ReadMembers(first.value.1[1..]);
    if others.None? then None else Some(([first.value.0] + others.value.0, others.value.1))
  }

  /** The value a whole text is JSON for. */
  function Parse(text: string): Option<Json> {
    var v := ReadValue(text);
    if v.Some? && v.value.1 == "" then Some(v.value.0) else None
  }

  // ---------- the reader undoes the printer ----------

  /** What may follow a printed value. */
  predicate Delimited(rest: string) { rest == "" || rest[0] in ",]}" }

  lemma HexReads(d: int)
    requires 0 <= d < 16
    ensures HexValue(Hex(d)) == Some(d)
  {
  }

  lemma EscapeReads(c: char, x: string)
    ensures Escape(c) + x != "" && (Escape(c) + x)[0] != '"'
    ensures ReadChar(Escape(c) + x) == Some((c, x))
  {
    if |Escape(c)| == 6 { ControlReads(c, x); }
  }

  lemma ControlReads(c: char, x: string)
    requires c < ' ' && Escape(c) == "\\u00" + [Hex(c as int / 16), Hex(c as int % 16)]
    ensures ReadChar(Escape(c) + x) == Some((c, x))
  {
    var h, l := c as int / 16, c as int % 16;
    HexReads(h);
    HexReads(l);
    var text := Escape(c) + x;
    assert text[2..] == ['0', '0', Hex(h), Hex(l)] + x;
    assert text[2..][4..] == x;
  }

  lemma Associate(a: string, b: string, c: string)
    ensures a + b + c == a + (b + c)
  {
  }

  /** A quoted text ends at its first unescaped quote, whatever follows. */
  lemma {:induction false} CharsRead(s: string, x: string)
    ensures ReadChars(EscapeAll(s) + ("\"" + x)) == Some((s, x))
  {
    var end := "\"" + x;
    if s == "" {
      assert EscapeAll(s) + end == end;
    } else {
      Associate(Escape(s[0]), EscapeAll(s[1..]), end);
      EscapeReads(s[0], EscapeAll(s[1..]) + end);
      CharsRead(s[1..], x);
      assert s == [s[0]] + s[1..];
    }
  }

  lemma TextReads(s: string, x: string)
    ensures Quote(s) + x != "" && (Quote(s) + x)[0] == '"' && ReadChars((Quote(s) + x)[1..]) == Some((s, x))
  {
    CharsRead(s, x);
    assert Quote(s) + x == "\"" + (EscapeAll(s) + ("\"" + x));
  }

  lemma {:induction false} TokenReads(token: string, x: string)
    requires Delimited(x) && forall i | 0 <= i < |token| :: NumberChar(token[i])
    ensures ReadToken(token + x) == (token, x)
  {
    if token == "" {
      assert token + x == x;
    } else {
      assert (token + x)[1..] == token[1..] + x;
      TokenReads(token[1..], x);
      assert token == [token[0]] + token[1..];
    }
  }

  lemma ScalarReads(v: Json, x: string)
    requires WellFormed(v) && !v.Array? && !v.Object? && Delimited(x)
    ensures ReadValue(Print(v) + x) == Some((v, x))
  {
    match v
    case Number(token) =>
      TokenReads(token, x);
      assert (token + x)[0] == token[0];
    case Text(text) => TextReads(text, x);
    case Null => WordReads("null", Null, x);
    case Bool(value) => WordReads(if value then "true" else "false", v, x);
    case _ =>
  }

  lemma WordReads(word: string, v: Json, x: string)
    ensures ReadWord(word + x, word, v) == Some((v, x))
  {
    assert (word + x)[..|word|] == word && (word + x)[|word|..] == x;
  }

  /** A printed value does not start like the end of the list it is in. */
  lemma PrintStarts(v: Json, x: string)
    requires WellFormed(v)
    ensures Print(v) + x != "" && (Print(v) + x)[0] !in ",]}"
  {
    if v.Number? { assert (v.token + x)[0] == v.token[0]; }
  }

  lemma JoinedHead(t: string, texts: seq<string>, x: string)
    ensures Join([t] + texts) + x == t + (JoinRest(texts) + x)
  {
    assert ([t] + texts)[1..] == texts;
  }

  lemma RestDelimited(texts: seq<string>, x: string)
    requires x != "" && x[0] in "]}"
    ensures Delimited(JoinRest(texts) + x)
    ensures texts == [] ==> JoinRest(texts) + x == x
    ensures texts != [] ==> JoinRest(texts) + x == "," + (Join(texts) + x)
  {
  }

  /** A printed value is read back from the front of any text in which it is delimited. */
  lemma {:induction false} PrintReads(v: Json, x: string)
    requires WellFormed(v) && Delimited(x)
    ensures ReadValue(Print(v) + x) == Some((v, x))
    decreases v, 0
  {
    match v
    case Array(es) =>
      ArrayStarts(es, x);
      if es != [] {
        ElementsStart(es, "]" + x);
        ElementsRead(es, x);
      }
    case Object(ms) =>
      ObjectStarts(ms, x);
      if ms != [] {
        MembersStart(ms, "}" + x);
        MembersRead(ms, x);
      }
    case _ => ScalarReads(v, x);
  }

  /** How a printed array is read, once its elements are. */
  lemma ArrayStarts(es: seq<Json>, x: string)
    ensures var inner := Join(PrintAll(es)) + ("]" + x);
            && (es == [] ==> ReadValue(Print(Array(es)) + x) == Some((Array(es), x)))
            && (inner != "" && inner[0] != ']' && ReadElements(inner) == Some((es, x)) ==>
                  ReadValue(Print(Array(es)) + x) == Some((Array(es), x)))
  {
    var inner := Join(PrintAll(es)) + ("]" + x);
    var text := Print(Array(es)) + x;
    assert text == "[" + inner && text[1..] == inner;
    if es == [] { assert inner == "]" + x && text[2..] == x; }
  }

  lemma ObjectStarts(ms: seq<Row<Json>>, x: string)
    ensures var inner := Join(MemberTexts(PrintRows(ms))) + ("}" + x);
            && (ms == [] ==> ReadValue(Print(Object(ms)) + x) == Some((Object(ms), x)))
            && (inner != "" && inner[0] != '}' && ReadMembers(inner) == Some((ms, x)) ==>
                  ReadValue(Print(Object(ms)) + x) == Some((Object(ms), x)))
  {
    var inner := Join(MemberTexts(PrintRows(ms))) + ("}" + x);
    var text := Print(Object(ms)) + x;
    assert text == "{" + inner && text[1..] == inner;
    if ms == [] { assert inner == "}" + x && text[2..] == x; }
  }

  lemma ElementsStart(es: seq<Json>, x: string)
    requires es != [] && WellFormed(es[0])
    ensures var inner := Join(PrintAll(es)) + x; inner != "" && inner[0] != ']'
  {
    ElementsHead(es, x);
    PrintStarts(es[0], JoinRest(PrintAll(es[1..])) + x);
  }

  lemma MembersStart(ms: seq<Row<Json>>, x: string)
    requires ms != []
    ensures var inner := Join(MemberTexts(PrintRows(ms))) + x; inner != "" && inner[0] != '}'
  {
    MembersHead(ms, x);
    TextReads(ms[0].key, ":" + (Print(ms[0].value) + (JoinRest(MemberTexts(PrintRows(ms[1..]))) + x)));
  }

  lemma ElementsHead(es: seq<Json>, x: string)
    requires es != []
    ensures Join(PrintAll(es)) + x == Print(es[0]) + (JoinRest(PrintAll(es[1..])) + x)
  {
    assert PrintAll(es) == [Print(es[0])] + PrintAll(es[1..]);
    JoinedHead(Print(es[0]), PrintAll(es[1..]), x);
  }

  lemma {:induction false} ElementsRead(es: seq<Json>, x: string)
    requires es != [] && forall i | 0 <= i < |es| :: WellFormed(es[i])
    ensures ReadElements(Join(PrintAll(es)) + ("]" + x)) == Some((es, x))
    decreases es, 1
  {
    var text, others := Join(PrintAll(es)) + ("]" + x), PrintAll(es[1..]);
    var tail := JoinRest(others) + ("]" + x);
    ElementsHead(es, "]" + x);
    RestDelimited(others, "]" + x);
    PrintReads(es[0], tail);
    if es[1..] != [] {
      ElementsRead(es[1..], x);
      ElementsContinue(text, es[0], Join(others) + ("]" + x), es[1..], x);
      HeadAndTail(es);
    } else {
      ElementsEnd(text, es[0], x);
      HeadAndTail(es);
    }
  }

  lemma HeadAndTail<T>(s: seq<T>)
    requires s != []
    ensures s == [s[0]] + s[1..] && (s[1..] == [] ==> s == [s[0]])
  {
  }

  lemma ElementsEnd(text: string, v: Json, x: string)
    requires ReadValue(text) == Some((v, "]" + x))
    ensures ReadElements(text) == Some(([v], x))
  {
    assert ("]" + x)[1..] == x;
  }

  lemma ElementsContinue(text: string, v: Json, next: string, es: seq<Json>, x: string)
    requires ReadValue(text) == Some((v, "," + next)) && ReadElements(next) == Some((es, x))
    ensures ReadElements(text) == Some(([v] + es, x))
  {
    assert ("," + next)[1..] == next;
  }

  lemma MembersHead(ms: seq<Row<Json>>, x: string)
    requires ms != []
    ensures var u := JoinRest(MemberTexts(PrintRows(ms[1..]))) + x;
            Join(MemberTexts(PrintRows(ms))) + x == Quote(ms[0].key) + (":" + (Print(ms[0].value) + u))
  {
    var q, p, others := Quote(ms[0].key), Print(ms[0].value), MemberTexts(PrintRows(ms[1..]));
    assert PrintRows(ms)[1..] == PrintRows(ms[1..]);
    assert MemberTexts(PrintRows(ms)) == [q + ":" + p] + others;
    JoinedHead(q + ":" + p, others, x);
    MemberAssociates(q, p, JoinRest(others) + x);
  }

  lemma MemberAssociates(q: string, p: string, u: string)
    ensures q + ":" + p + u == q + (":" + (p + u))
  {
  }

  lemma {:induction false} MemberReads(m: Row<Json>, u: string)
    requires WellFormed(m.value) && Delimited(u)
    ensures ReadMember(Quote(m.key) + (":" + (Print(m.value) + u))) == Some((m, u))
    decreases m.value, 1
  {
    TextReads(m.key, ":" + (Print(m.value) + u));
    PrintReads(m.value, u);
    assert (":" + (Print(m.value) + u))[1..] == Print(m.value) + u;
  }

  lemma {:induction false} MembersRead(ms: seq<Row<Json>>, x: string)
    requires ms != [] && forall i | 0 <= i < |ms| :: WellFormed(ms[i].value)
    ensures ReadMembers(Join(MemberTexts(PrintRows(ms))) + ("}" + x)) == Some((ms, x))
    decreases ms, 1
  {
    var others, text := MemberTexts(PrintRows(ms[1..])), Join(MemberTexts(PrintRows(ms))) + ("}" + x);
    MembersHead(ms, "}" + x);
    RestDelimited(others, "}" + x);
    MemberReads(ms[0], JoinRest(others) + ("}" + x));
    if ms[1..] != [] {
      MembersRead(ms[1..], x);
      MembersContinue(text, ms[0], Join(others) + ("}" + x), ms[1..], x);
      HeadAndTail(ms);
    } else {
      MembersEnd(text, ms[0], x);
      HeadAndTail(ms);
    }
  }

  lemma MembersEnd(text: string, m: Row<Json>, x: string)
    requires ReadMember(text) == Some((m, "}" + x))
    ensures ReadMembers(text) == Some(([m], x))
  {
    assert ("}" + x)[1..] == x;
  }

  lemma MembersContinue(text: string, m: Row<Json>, next: string, ms: seq<Row<Json>>, x: string)
    requires ReadMember(text) == Some((m, "," + next)) && ReadMembers(next) == Some((ms, x))
    ensures ReadMembers(text) == Some(([m] + ms, x))
  {
    assert ("," + next)[1..] == next;
  }

  // ---------- how the printer writes ----------

  /** No JSON text of a character is shorter than the one the printer writes. */
  lemma EscapeIsShortest(c: char, text: string)
    requires ReadChar(text) == Some((c, ""))
    ensures |Escape(c)| <= |text|
  {
    if text[0] != '\\' {
      assert c == text[0];
    } else if text[1] == 'u' {
      assert ReadHex(text[2..]) == Some((c, ""));
      assert |text[2..]| >= 4;
    } else {
      assert |text| >= 2;
    }
  }

  /** Hexadecimal digits are written in lower case. */
  lemma EscapeIsLowerCase(c: char)
    ensures |Escape(c)| > 1 ==> forall i | 1 <= i < |Escape(c)| :: !('A' <= Escape(c)[i] <= 'Z')
  {
    if |Escape(c)| == 6 {
      HexIsLowerCase(c as int / 16);
      HexIsLowerCase(c as int % 16);
    }
  }

  lemma HexIsLowerCase(d: int)
    requires 0 <= d < 16
    ensures Hex(d) in "0123456789abcdef" && !('A' <= Hex(d) <= 'Z')
  {
  }

  predicate Digits(s: string) { s != "" && forall i | 0 <= i < |s| :: '0' <= s[i] <= '9' }

  /** A number of the grammar (section 6): sign, integer part, fraction and exponent. */
  predicate GrammarNumber(sign: string, integer: string, fraction: string, exponent: string) {
    && (sign == "" || sign == "-") && Digits(integer) && (integer[0] == '0' ==> |integer| == 1)
    && (fraction == "" || (fraction[0] == '.' && Digits(fraction[1..])))
    && (exponent == "" || (exponent[0] in "eE" && |exponent| > 1
                           && (Digits(exponent[1..]) || (exponent[1] in "+-" && Digits(exponent[2..])))))
  }

  /** Every number of the grammar is a token the printer takes, so none is left out. */
  lemma GrammarNumbersAreTokens(sign: string, integer: string, fraction: string, exponent: string)
    requires GrammarNumber(sign, integer, fraction, exponent)
    ensures WellFormed(Number(sign + integer + fraction + exponent))
  {
    DigitsAreNumberChars(integer);
    if fraction != "" {
      DigitsAreNumberChars(fraction[1..]);
      assert fraction == [fraction[0]] + fraction[1..];
    }
    ExponentIsNumberChars(exponent);
  }

  lemma ExponentIsNumberChars(exponent: string)
    requires GrammarNumber("", "0", "", exponent)
    ensures forall i | 0 <= i < |exponent| :: NumberChar(exponent[i])
  {
    if exponent != "" {
      if Digits(exponent[1..]) {
        DigitsAreNumberChars(exponent[1..]);
        assert exponent == [exponent[0]] + exponent[1..];
      } else {
        DigitsAreNumberChars(exponent[2..]);
        assert exponent == [exponent[0], exponent[1]] + exponent[2..];
      }
    }
  }

  lemma DigitsAreNumberChars(s: string)
    requires Digits(s)
    ensures forall i | 0 <= i < |s| :: NumberChar(s[i])
  {
  }

  // ---------- what follows ----------

  /** Parsing a print gives the value back. */
  lemma PrintParses(v: Json)
    requires WellFormed(v)
    ensures Parse(Print(v)) == Some(v)
  {
    PrintReads(v, "");
    assert Print(v) + "" == Print(v);
  }

  /** A quoted and escaped string can be told from any other by what is printed of it, whatever follows. */
  lemma QuoteCut(s: string, t: string, x: string, y: string)
    requires x != [] && y != [] && x[0] == y[0] == '"'
    requires EscapeAll(s) + x == EscapeAll(t) + y
    ensures s == t && x == y
  {
    assert x == "\"" + x[1..] && y == "\"" + y[1..];
    CharsRead(s, x[1..]);
    CharsRead(t, y[1..]);
  }

  /** A printed value can be told from any other by any text in which it is delimited. */
  lemma PrintCut(a: Json, b: Json, x: string, y: string)
    requires WellFormed(a) && WellFormed(b) && Delimited(x) && Delimited(y)
    requires Print(a) + x == Print(b) + y
    ensures a == b && x == y
  {
    PrintReads(a, x);
    PrintReads(b, y);
  }

  lemma PrintIsInjective(a: Json, b: Json)
    requires WellFormed(a) && WellFormed(b) && Print(a) == Print(b)
    ensures a == b
  {
    PrintParses(a);
    PrintParses(b);
  }

  /** A canonical text is JSON for the value it was made of up to key order, with the keys of every object ascending. */
  lemma CanonicalTextParses(v: Json)
    requires WellFormed(v)
    ensures Parse(CanonicalText(v)).Some?
    ensures var w := Parse(CanonicalText(v)).value; WellFormed(w) && KeysAscend(w) && Equivalent(v, w)
  {
    CanonicalIsPrintedNormal(v);
    NormalIsWellFormed(v);
    PrintParses(Normal(v));
    NormalAscends(v);
    AscendingIsNormal(Normal(v));
    NormalIffEquivalent(v, Normal(v));
  }

  /** Two parsed values have the same canonical text exactly when they are equal up to object key order. */
  lemma CanonicalIffEquivalent(a: Json, b: Json)
    requires WellFormed(a) && WellFormed(b)
    ensures CanonicalText(a) == CanonicalText(b) <==> Equivalent(a, b)
  {
    CanonicalIsPrintedNormal(a);
    CanonicalIsPrintedNormal(b);
    NormalIsWellFormed(a);
    NormalIsWellFormed(b);
    NormalIffEquivalent(a, b);
    if CanonicalText(a) == CanonicalText(b) { PrintIsInjective(Normal(a), Normal(b)); }
  }
}
