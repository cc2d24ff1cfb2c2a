/** A marked block kept up to date inside a file that belongs to the user. */
module ManagedBlock {
  import opened Wrappers

  const BEGIN := "# BEGIN CREWON LOCAL PROVIDER RUNTIME"
  const END := "# END CREWON LOCAL PROVIDER RUNTIME"

  /** `SubstringNotFound` is the error of a search that finds nothing; the other two are the program's own. */
  datatype Error = Malformed | Stale | SubstringNotFound

  // ---------- searching and stripping ----------

  predicate At<T(==)>(s: seq<T>, m: seq<T>, i: int) {
    0 <= i <= |s| - |m| && forall k | 0 <= k < |m| :: s[i + k] == m[k]
  }

  /** The number of occurrences, counted greedily from the left without overlaps. */
  function Count<T(==)>(s: seq<T>, m: seq<T>): nat
    requires |m| > 0
  {
    if |s| < |m| then 0
    else if At(s, m, 0) then 1 + Count(s[|m|..], m)
    else Count(s[1..], m)
  }

  function Index<T(==)>(s: seq<T>, m: seq<T>): (index: Option<nat>)
    requires |m| > 0
    ensures index.Some? ==> At(s, m, index.value)
  {
    if |s| < |m| then None
    else if At(s, m, 0) then Some(0)
    else
      var rest := Index(s[1..], m);
      if rest.None? then None else Some(rest.value + 1)
  }

  function StripLeft<T(==)>(s: seq<T>, x: T): seq<T> { if s != [] && s[0] == x then StripLeft(s[1..], x) else s }

  function StripRight<T(==)>(s: seq<T>, x: T): seq<T> {
    if s != [] && s[|s| - 1] == x then StripRight(s[..|s| - 1], x) else s
  }

  function Trim(s: string): string { StripRight(StripLeft(s, '\n'), '\n') }

  function TrimEnd(s: string): string { StripRight(s, '\n') }

  function Nonempty(parts: seq<string>): seq<string> {
    if parts == [] then [] else (if parts[0] == "" then [] else [parts[0]]) + Nonempty(parts[1..])
  }

  function Join(parts: seq<string>): string {
    if parts == [] then "" else if |parts| == 1 then parts[0] else parts[0] + "\n\n" + Join(parts[1..])
  }

  // ---------- the two operations ----------

  function ReplaceControlledBlock(existing: string, block: string): Result<string, Error> {
    var begins, ends := Count(existing, BEGIN), Count(existing, END);
    if begins != ends || begins > 1 then Failure(Malformed)
    else if begins == 1 then
      match Span(existing)
      case None => Failure(SubstringNotFound)
      case Some((start, stop)) => Success(Assemble(existing[..start], block, existing[stop..]))
    else
      var prefix := TrimEnd(existing);
      Success(if prefix != "" then prefix + "\n\n" + block + "\n" else block + "\n")
  }

  function Span(existing: string): (span: Option<(nat, nat)>)
    ensures span.Some? ==> span.value.0 <= span.value.1 <= |existing|
  {
    SpanBetween(existing, BEGIN, END)
  }

  /** Where the first begin marker starts and where the first end marker from there on stops. */
  function SpanBetween<T(==)>(s: seq<T>, begin: seq<T>, end: seq<T>): (span: Option<(nat, nat)>)
    requires |begin| > 0 && |end| > 0
    ensures span.Some? ==> span.value.0 <= span.value.1 <= |s|
  {
    var start := Index(s, begin);
    if start.None? then None else
    var length := Index(s[start.value..], end);
    if length.None? then None else Some((start.value, start.value + length.value + |end|))
  }

  function Assemble(before: string, block: string, after: string): string {
    Join(Nonempty([TrimEnd(before), block, Trim(after)])) + "\n"
  }

  function ValidateControlledBlock(existing: string, block: string): Result<(), Error> {
    if Count(existing, BEGIN) != 1 || Count(existing, END) != 1 then Failure(Malformed) else
    match Span(existing)
    case None => Failure(SubstringNotFound)
    case Some((start, stop)) => if existing[start..stop] != block then Failure(Stale) else Success(())
  }

  // ---------- counts and indices by position ----------

  /** No occurrence can overlap another. */
  ghost predicate Firm<T>(m: seq<T>) { |m| > 0 && forall k | 0 < k < |m| :: m[k] != m[0] }

  /** A marker stays on one line and cannot overlap itself. */
  ghost predicate Marker(m: string) { Firm(m) && '\n' !in m }

  /** Occurrences in a slice are the occurrences of the whole that lie inside it. */
  lemma Slice<T>(s: seq<T>, m: seq<T>, lo: nat, hi: nat, j: int)
    requires |m| > 0 && lo <= hi <= |s|
    ensures At(s[lo..hi], m, j) <==> j >= 0 && lo + j + |m| <= hi && At(s, m, lo + j)
  {
    assert forall k | 0 <= k < hi - lo :: s[lo..hi][k] == s[lo + k];
  }

  lemma Tail<T>(s: seq<T>, m: seq<T>, n: nat, j: int)
    requires |m| > 0 && n <= |s|
    ensures At(s[n..], m, j) <==> j >= 0 && At(s, m, n + j)
  {
    assert s[n..|s|] == s[n..];
    Slice(s, m, n, |s|, j);
  }

  lemma Letter<T>(s: seq<T>, m: seq<T>, i: int, p: int)
    requires At(s, m, i) && i <= p < i + |m|
    ensures s[p] == m[p - i] && s[p] in m
  {
    assert s[i + (p - i)] == m[p - i];
  }

  lemma {:induction false} IndexIsFirst<T>(s: seq<T>, m: seq<T>)
    requires |m| > 0
    ensures Index(s, m).Some? ==> forall j | 0 <= j < Index(s, m).value :: !At(s, m, j)
    ensures Index(s, m).None? ==> forall j :: !At(s, m, j)
    ensures Index(s, m).None? <==> Count(s, m) == 0
  {
    if |s| >= |m| && !At(s, m, 0) {
      IndexIsFirst(s[1..], m);
      forall j | At(s, m, j) ensures j > 0 && At(s[1..], m, j - 1) { Tail(s, m, 1, j - 1); }
    }
  }

  lemma NoOverlap<T>(s: seq<T>, m: seq<T>, i: int, j: int)
    requires Firm(m) && At(s, m, i) && At(s, m, j) && i < j
    ensures j >= i + |m|
  {
    Letter(s, m, j, j);
    if j < i + |m| { Letter(s, m, i, j); }
  }

  lemma {:induction false} TwoOccurrences<T>(s: seq<T>, m: seq<T>, i: int, j: int)
    requires Firm(m) && At(s, m, i) && At(s, m, j) && i < j
    ensures Count(s, m) >= 2
  {
    if At(s, m, 0) {
      NoOverlap(s, m, 0, j);
      Tail(s, m, |m|, j - |m|);
      if i == 0 {
        IndexIsFirst(s[|m|..], m);
      } else {
        NoOverlap(s, m, 0, i);
        Tail(s, m, |m|, i - |m|);
        TwoOccurrences(s[|m|..], m, i - |m|, j - |m|);
      }
    } else {
      Tail(s, m, 1, i - 1);
      Tail(s, m, 1, j - 1);
      TwoOccurrences(s[1..], m, i - 1, j - 1);
    }
  }

  lemma {:induction false} SecondOccurrence<T>(s: seq<T>, m: seq<T>) returns (j: int)
    requires |m| > 0 && Count(s, m) > 1
    ensures At(s, m, j) && Index(s, m).Some? && j != Index(s, m).value
  {
    if At(s, m, 0) {
      IndexIsFirst(s[|m|..], m);
      j := Index(s[|m|..], m).value;
      Tail(s, m, |m|, j);
      j := j + |m|;
    } else {
      j := SecondOccurrence(s[1..], m);
      Tail(s, m, 1, j);
      j := j + 1;
    }
  }

  /** Exactly one occurrence, at position i. */
  ghost predicate OnlyAt<T>(s: seq<T>, m: seq<T>, i: int) { At(s, m, i) && forall j | At(s, m, j) :: j == i }

  /** The greedy count is one exactly when there is a single occurrence, and the search then finds it. */
  lemma {:induction false} CountOne<T>(s: seq<T>, m: seq<T>)
    requires Firm(m)
    ensures Count(s, m) == 1 <==> exists i :: OnlyAt(s, m, i)
    ensures forall i | OnlyAt(s, m, i) :: Index(s, m) == Some(i)
  {
    IndexIsFirst(s, m);
    if Count(s, m) == 1 {
      var i := Index(s, m).value;
      forall j | At(s, m, j) ensures j == i {
        if i < j { TwoOccurrences(s, m, i, j); }
      }
      assert OnlyAt(s, m, i);
    } else if Count(s, m) > 1 {
      var j := SecondOccurrence(s, m);
      assert At(s, m, Index(s, m).value);
    }
  }

  /** An occurrence cannot span an element that the marker does not contain. */
  lemma Beside<T>(a: seq<T>, x: T, b: seq<T>, m: seq<T>, j: int)
    requires |m| > 0 && x !in m
    ensures At(a + [x] + b, m, j) <==> At(a, m, j) || At(b, m, j - |a| - 1)
  {
    var s := a + [x] + b;
    assert s[0..|a|] == a && s[|a| + 1..|s|] == b && s[|a|] == x;
    Slice(s, m, 0, |a|, j);
    Slice(s, m, |a| + 1, |s|, j - |a| - 1);
    if At(s, m, j) && j <= |a| < j + |m| { Letter(s, m, j, |a|); }
  }

  /** The text that replacement writes, with its three parts. */
  function Left(before: string): string { LeftOf(before, '\n') }

  function Right(after: string): string { RightOf(after, '\n') }

  function LeftOf<T(==)>(before: seq<T>, x: T): seq<T> { if before == [] then [] else before + [x, x] }

  function RightOf<T(==)>(after: seq<T>, x: T): seq<T> { if after == [] then [x] else [x, x] + (after + [x]) }

  function Composed(before: string, block: string, after: string): string { Left(before) + block + Right(after) }

  /** Nor can it span two such elements. */
  lemma BesideTwo<T>(a: seq<T>, x: T, b: seq<T>, m: seq<T>, j: int)
    requires |m| > 0 && x !in m
    ensures At(a + [x, x] + b, m, j) <==> At(a, m, j) || At(b, m, j - |a| - 2)
  {
    assert a + [x, x] + b == (a + [x]) + [x] + b;
    Beside(a + [x], x, b, m, j);
    assert a + [x] == a + [x] + [];
    Beside(a, x, [], m, j);
  }

  lemma AtTail<T>(a: seq<T>, x: T, m: seq<T>, j: int)
    requires |m| > 0 && x !in m
    ensures At(a + [x], m, j) <==> At(a, m, j)
  {
    assert a + [x] == a + [x] + [];
    Beside(a, x, [], m, j);
  }

  lemma OccurrencesInComposed(before: string, block: string, after: string, m: string, j: int)
    requires Marker(m) && (forall i :: !At(before, m, i)) && (forall i :: !At(after, m, i))
    ensures At(Composed(before, block, after), m, j) <==> At(block, m, j - |Left(before)|)
  {
    Regroup(Left(before), block, Right(after));
    LeftHasNone(before, '\n', block + Right(after), m, j);
    RightHasNone(block, after, '\n', m, j - |Left(before)|);
  }

  lemma Regroup<T>(a: seq<T>, b: seq<T>, c: seq<T>)
    ensures a + b + c == a + (b + c)
  {
  }

  lemma LeftHasNone<T>(before: seq<T>, x: T, tail: seq<T>, m: seq<T>, j: int)
    requires |m| > 0 && x !in m && !At(before, m, j)
    ensures At(LeftOf(before, x) + tail, m, j) <==> At(tail, m, j - |LeftOf(before, x)|)
  {
    if before == [] {
      assert LeftOf(before, x) + tail == tail;
    } else {
      BesideTwo(before, x, tail, m, j);
    }
  }

  lemma RightHasNone<T>(block: seq<T>, after: seq<T>, x: T, m: seq<T>, j: int)
    requires |m| > 0 && x !in m && !At(after, m, j - |block| - 2)
    ensures At(block + RightOf(after, x), m, j) <==> At(block, m, j)
  {
    if after == [] {
      AtTail(block, x, m, j);
    } else {
      BesideTwo(block, x, after + [x], m, j);
      AtTail(after, x, m, j - |block| - 2);
      Regroup(block, [x, x], after + [x]);
    }
  }

  // ---------- the markers of a text ----------

  ghost predicate NoMarkers(text: string) { (forall i :: !At(text, BEGIN, i)) && (forall j :: !At(text, END, j)) }

  /** One begin marker, at i, before one end marker, at j. */
  ghost predicate OneBlock(text: string, i: int, j: int) { OnlyAt(text, BEGIN, i) && OnlyAt(text, END, j) && i < j }

  ghost predicate HasOneBlock(text: string) { exists i, j :: OneBlock(text, i, j) }

  /** One end marker before one begin marker. */
  ghost predicate Reversed(text: string) { exists i, j :: OnlyAt(text, BEGIN, i) && OnlyAt(text, END, j) && j < i }

  /** A block starts with its only begin marker and ends with its only end marker. */
  ghost predicate BlockText(block: string) { OnlyAt(block, BEGIN, 0) && OnlyAt(block, END, |block| - |END|) }

  /** Two markers that start alike and differ in their third element. */
  ghost predicate Pair<T>(m: seq<T>, n: seq<T>) {
    Firm(m) && Firm(n) && |m| > 2 && |n| > 2 && m[0] == n[0] && m[2] != n[2]
  }

  lemma AreMarkers()
    ensures Marker(BEGIN) && Marker(END) && Pair(BEGIN, END)
  {
    BeginIsMarker();
    EndIsMarker();
  }

  lemma BeginIsMarker()
    ensures Marker(BEGIN) && |BEGIN| > 2 && BEGIN[0] == '#' && BEGIN[2] == 'B'
  {
  }

  lemma EndIsMarker()
    ensures Marker(END) && |END| > 2 && END[0] == '#' && END[2] == 'E'
  {
  }

  /** Such markers never overlap. */
  lemma Apart<T>(s: seq<T>, m: seq<T>, n: seq<T>, i: int, j: int)
    requires Pair(m, n) && At(s, m, i) && At(s, n, j)
    ensures i + |m| <= j || j + |n| <= i
  {
    Letter(s, m, i, i);
    Letter(s, n, j, j);
    Letter(s, m, i, i + 2);
    Letter(s, n, j, j + 2);
    if i < j < i + |m| { Letter(s, m, i, j); }
    if j < i < j + |n| { Letter(s, n, j, i); }
  }

  /** The span runs from the only begin marker to the only end marker, if that comes later. */
  lemma SpanOfOnly<T>(s: seq<T>, m: seq<T>, n: seq<T>, i: int, j: int)
    requires Pair(m, n) && OnlyAt(s, m, i) && OnlyAt(s, n, j)
    ensures i != j && SpanBetween(s, m, n) == if i < j then Some((i, j + |n|)) else None
  {
    Apart(s, m, n, i, j);
    EndFrom(s, n, i, j);
    StartAt(s, m, i);
  }

  lemma StartAt<T>(s: seq<T>, m: seq<T>, i: int)
    requires Firm(m) && OnlyAt(s, m, i)
    ensures Index(s, m) == Some(i)
  {
    CountOne(s, m);
  }

  /** The search for the end marker from position i on finds the only one there is, if it is not before i. */
  lemma EndFrom<T>(s: seq<T>, n: seq<T>, i: nat, j: int)
    requires Firm(n) && i <= |s| && OnlyAt(s, n, j)
    ensures Index(s[i..], n) == if i <= j then Some(j - i) else None
  {
    CountOne(s[i..], n);
    IndexIsFirst(s[i..], n);
    forall k ensures At(s[i..], n, k) <==> k >= 0 && i + k == j { Tail(s, n, i, k); }
    if i <= j { assert OnlyAt(s[i..], n, j - i); }
  }

  /** What the counts say, by position. */
  lemma CountsTellMarkers(text: string)
    ensures Count(text, BEGIN) == 0 && Count(text, END) == 0 <==> NoMarkers(text)
    ensures Count(text, BEGIN) == 1 && Count(text, END) == 1 <==> HasOneBlock(text) || Reversed(text)
  {
    AreMarkers();
    IndexIsFirst(text, BEGIN);
    IndexIsFirst(text, END);
    CountOne(text, BEGIN);
    CountOne(text, END);
    if Count(text, BEGIN) == 1 && Count(text, END) == 1 {
      var i :| OnlyAt(text, BEGIN, i);
      var j :| OnlyAt(text, END, j);
      SpanOfOnly(text, BEGIN, END, i, j);
      assert OneBlock(text, i, j) || j < i;
    }
  }

  lemma SpanTellsOrder(text: string)
    ensures forall i, j | OneBlock(text, i, j) :: Span(text) == Some((i, j + |END|))
    ensures Reversed(text) ==> Span(text).None? && !HasOneBlock(text)
  {
    AreMarkers();
    forall i, j | OnlyAt(text, BEGIN, i) && OnlyAt(text, END, j)
      ensures Span(text) == if i < j then Some((i, j + |END|)) else None
    {
      SpanOfOnly(text, BEGIN, END, i, j);
    }
  }

  /** Replacement succeeds exactly on texts with no marker or with one begin before one end; a text with its
      only end before its only begin makes the search fail, any other text is malformed. */
  lemma ReplaceSucceedsExactly(text: string, block: string)
    ensures ReplaceControlledBlock(text, block).Success? <==> NoMarkers(text) || HasOneBlock(text)
    ensures ReplaceControlledBlock(text, block) == Failure(SubstringNotFound) <==> Reversed(text)
  {
    CountsTellMarkers(text);
    SpanTellsOrder(text);
  }

  // ---------- stripping ----------

  ghost predicate All<T>(s: seq<T>, x: T) { forall k | 0 <= k < |s| :: s[k] == x }

  ghost predicate NotLast<T>(s: seq<T>, x: T) { s != [] ==> s[|s| - 1] != x }

  ghost predicate NotFirst<T>(s: seq<T>, x: T) { s != [] ==> s[0] != x }

  lemma {:induction false} StripRightCuts<T>(s: seq<T>, x: T)
    ensures var n := |StripRight(s, x)|;
            n <= |s| && StripRight(s, x) == s[..n] && All(s[n..], x) && NotLast(StripRight(s, x), x)
  {
    if s != [] && s[|s| - 1] == x {
      StripRightCuts(s[..|s| - 1], x);
      var n := |StripRight(s, x)|;
      forall k | n <= k < |s| ensures s[k] == x {
        if k < |s| - 1 { assert s[k] == s[..|s| - 1][n..][k - n]; }
      }
    }
  }

  lemma {:induction false} StripLeftCuts<T>(s: seq<T>, x: T)
    ensures var n := |s| - |StripLeft(s, x)|;
            0 <= n && StripLeft(s, x) == s[n..] && All(s[..n], x) && NotFirst(StripLeft(s, x), x)
  {
    if s != [] && s[0] == x {
      StripLeftCuts(s[1..], x);
      var n := |s| - |StripLeft(s, x)|;
      forall k | 0 <= k < n ensures s[k] == x {
        if k > 0 { assert s[k] == s[1..][..n - 1][k - 1]; }
      }
      assert s[1..][n - 1..] == s[n..];
    }
  }

  /** A text is its trimmed core between two runs of the trimmed element. */
  lemma TrimSplits<T>(s: seq<T>, x: T) returns (lead: seq<T>, trail: seq<T>)
    ensures s == lead + StripRight(StripLeft(s, x), x) + trail && All(lead, x) && All(trail, x)
    ensures NotFirst(StripRight(StripLeft(s, x), x), x) && NotLast(StripRight(StripLeft(s, x), x), x)
  {
    StripLeftCuts(s, x);
    StripRightCuts(StripLeft(s, x), x);
    lead := s[..|s| - |StripLeft(s, x)|];
    trail := StripLeft(s, x)[|StripRight(StripLeft(s, x), x)|..];
  }

  lemma StripRightAppend<T>(s: seq<T>, x: T)
    ensures StripRight(s + [x], x) == StripRight(s, x)
  {
    assert (s + [x])[..|s|] == s;
  }

  lemma StripLeftPrepend<T>(s: seq<T>, x: T)
    ensures StripLeft([x] + s, x) == StripLeft(s, x)
  {
    assert ([x] + s)[1..] == s;
  }

  lemma TrimLeft<T>(before: seq<T>, x: T)
    requires NotLast(before, x)
    ensures StripRight(LeftOf(before, x), x) == before
  {
    StripRightAppend(before, x);
    StripRightAppend(before + [x], x);
    assert before + [x, x] == before + [x] + [x];
  }

  lemma TrimRight<T>(after: seq<T>, x: T)
    requires NotLast(after, x) && NotFirst(after, x)
    ensures StripRight(StripLeft(RightOf(after, x), x), x) == after
  {
    if after == [] {
      assert [x] == [x] + [];
      StripLeftPrepend([], x);
    } else {
      StripRightAppend(after, x);
      StripLeftPrepend(after + [x], x);
      StripLeftPrepend([x] + (after + [x]), x);
      assert [x, x] + (after + [x]) == [x] + ([x] + (after + [x]));
    }
  }

  // ---------- what replacement keeps ----------

  /** The user's text around the block, without the newlines at the seams. */
  function Around(text: string): (string, string) {
    match Span(text)
    case None => (TrimEnd(text), "")
    case Some((start, stop)) => (TrimEnd(text[..start]), Trim(text[stop..]))
  }

  ghost predicate Tidy(before: string, after: string) {
    NoMarkers(before) && NoMarkers(after) && NotLast(before, '\n') && NotLast(after, '\n') && NotFirst(after, '\n')
  }

  lemma NoMarkersInSlice(text: string, lo: nat, hi: nat)
    requires lo <= hi <= |text|
    requires forall i | At(text, BEGIN, i) :: i < lo || hi < i + |BEGIN|
    requires forall j | At(text, END, j) :: j < lo || hi < j + |END|
    ensures NoMarkers(text[lo..hi])
  {
    forall k ensures !At(text[lo..hi], BEGIN, k) && !At(text[lo..hi], END, k) {
      Slice(text, BEGIN, lo, hi, k);
      Slice(text, END, lo, hi, k);
    }
  }

  lemma AroundIsTidy(text: string)
    requires NoMarkers(text) || HasOneBlock(text)
    ensures Tidy(Around(text).0, Around(text).1)
  {
    if NoMarkers(text) {
      IndexIsFirst(text, BEGIN);
      StartIsTidy(text, |text|);
      assert text[..|text|] == text;
    } else {
      var i, j :| OneBlock(text, i, j);
      AreMarkers();
      Apart(text, BEGIN, END, i, j);
      SpanTellsOrder(text);
      StartIsTidy(text, i);
      EndIsTidy(text, j + |END|);
    }
  }

  lemma StartIsTidy(text: string, hi: nat)
    requires hi <= |text|
    requires forall i | At(text, BEGIN, i) :: hi < i + |BEGIN|
    requires forall j | At(text, END, j) :: hi < j + |END|
    ensures NoMarkers(TrimEnd(text[..hi])) && NotLast(TrimEnd(text[..hi]), '\n')
  {
    StripRightCuts(text[..hi], '\n');
    var n := |TrimEnd(text[..hi])|;
    NoMarkersInSlice(text, 0, n);
    assert text[0..n] == text[..hi][..n];
  }

  lemma EndIsTidy(text: string, lo: nat)
    requires lo <= |text|
    requires forall i | At(text, BEGIN, i) :: i < lo
    requires forall j | At(text, END, j) :: j < lo
    ensures NoMarkers(Trim(text[lo..])) && NotFirst(Trim(text[lo..]), '\n') && NotLast(Trim(text[lo..]), '\n')
  {
    var lead, trail := TrimSplits(text[lo..], '\n');
    var from := lo + |lead|;
    var to := from + |Trim(text[lo..])|;
    NoMarkersInSlice(text, from, to);
    SliceOfParts(text, lo, lead, Trim(text[lo..]), trail);
  }

  lemma SliceOfParts<T>(s: seq<T>, lo: nat, lead: seq<T>, middle: seq<T>, trail: seq<T>)
    requires lo <= |s| && s[lo..] == lead + middle + trail
    ensures lo + |lead| + |middle| <= |s| && s[lo + |lead|..lo + |lead| + |middle|] == middle
  {
    assert s[lo + |lead|..lo + |lead| + |middle|] == s[lo..][|lead|..|lead| + |middle|];
  }

  /** Replacement writes the user's text around the new block. */
  lemma ReplaceComposes(text: string, block: string)
    requires (NoMarkers(text) || HasOneBlock(text)) && block != ""
    ensures ReplaceControlledBlock(text, block) == Success(Composed(Around(text).0, block, Around(text).1))
  {
    CountsTellMarkers(text);
    SpanTellsOrder(text);
    IndexIsFirst(text, BEGIN);
    if NoMarkers(text) {
      assert "" + block == block;
    } else {
      var (start, stop) := Span(text).value;
      AssembleComposes(TrimEnd(text[..start]), block, Trim(text[stop..]));
    }
  }

  lemma AssembleComposes(before: string, block: string, after: string)
    requires block != ""
    ensures Join(Nonempty([before, block, after])) + "\n" == Composed(before, block, after)
  {
    var rest := Nonempty([block, after]);
    NonemptyCons(before, [block, after]);
    assert [before] + [block, after] == [before, block, after];
    JoinLast(block, after);
    JoinFirst(before, rest);
    assert (Left(before) + Join(rest)) + "\n" == Left(before) + (Join(rest) + "\n");
    assert Left(before) + (block + Right(after)) == Left(before) + block + Right(after);
  }

  lemma JoinFirst(before: string, rest: seq<string>)
    requires rest != []
    ensures Join((if before == "" then [] else [before]) + rest) == Left(before) + Join(rest)
  {
    if before == "" {
      assert [] + rest == rest && "" + Join(rest) == Join(rest);
    } else {
      JoinCons(before, rest);
    }
  }

  lemma JoinLast(block: string, after: string)
    requires block != ""
    ensures Nonempty([block, after]) != [] && Join(Nonempty([block, after])) + "\n" == block + Right(after)
  {
    NonemptyCons(after, []);
    NonemptyCons(block, [after]);
    assert [block] + [after] == [block, after] && [after] + [] == [after];
    if after == "" {
      assert Nonempty([block, after]) == [block];
      JoinCons(block, []);
    } else {
      assert Nonempty([block, after]) == [block] + [after];
      JoinCons(block, [after]);
      assert block + "\n\n" + after + "\n" == block + Right(after);
    }
  }

  lemma NonemptyCons(part: string, parts: seq<string>)
    ensures Nonempty([part] + parts) == (if part == "" then [] else [part]) + Nonempty(parts)
  {
    assert ([part] + parts)[1..] == parts;
  }

  lemma JoinCons(part: string, parts: seq<string>)
    ensures Join([part]) == part
    ensures parts != [] ==> Join([part] + parts) == part + "\n\n" + Join(parts)
    ensures |parts| == 1 ==> Join([part] + parts) == part + "\n\n" + parts[0]
  {
    assert ([part] + parts)[1..] == parts;
  }

  /** A text composed around a block has that block as its one block, and the same text around it. */
  lemma ComposedHasItsBlock(before: string, block: string, after: string)
    requires Tidy(before, after) && BlockText(block)
    ensures var text := Composed(before, block, after);
            && HasOneBlock(text) && Around(text) == (before, after)
            && Span(text).Some? && text[Span(text).value.0..Span(text).value.1] == block
  {
    BlockInComposed(before, block, after);
    var text, n := Composed(before, block, after), |Left(before)|;
    SpanTellsOrder(text);
    TrimLeft(before, '\n');
    TrimRight(after, '\n');
    Parts(Left(before), block, Right(after));
  }

  lemma Parts<T>(a: seq<T>, b: seq<T>, c: seq<T>)
    ensures (a + b + c)[..|a|] == a && (a + b + c)[|a| + |b|..] == c && (a + b + c)[|a|..|a| + |b|] == b
  {
  }

  lemma BlockInComposed(before: string, block: string, after: string)
    requires Tidy(before, after) && BlockText(block)
    ensures OneBlock(Composed(before, block, after), |Left(before)|, |Left(before)| + |block| - |END|)
  {
    AreMarkers();
    var text, n := Composed(before, block, after), |Left(before)|;
    Apart(block, BEGIN, END, 0, |block| - |END|);
    forall k ensures At(text, BEGIN, k) <==> k == n { OccurrencesInComposed(before, block, after, BEGIN, k); }
    forall k ensures At(text, END, k) <==> k == n + |block| - |END| {
      OccurrencesInComposed(before, block, after, END, k);
    }
  }

  /** The one block of a text, if it has one: what stands from its begin to the end of its end marker. */
  ghost predicate IsBlockAt(text: string, block: string, i: int, j: int) {
    OneBlock(text, i, j) && j + |END| <= |text| && text[i..j + |END|] == block
  }

  /** Validation accepts a text only for the block that stands between its one begin and its one end marker. */
  lemma ValidateSucceedsExactly(text: string, block: string)
    ensures ValidateControlledBlock(text, block).Success? <==> exists i, j :: IsBlockAt(text, block, i, j)
  {
    if ValidateControlledBlock(text, block).Success? { ValidatedHasBlock(text, block); }
    if i, j :| IsBlockAt(text, block, i, j) { BlockIsValidated(text, block, i, j); }
  }

  lemma ValidatedHasBlock(text: string, block: string)
    requires ValidateControlledBlock(text, block).Success?
    ensures exists i, j :: IsBlockAt(text, block, i, j)
  {
    CountsTellMarkers(text);
    if HasOneBlock(text) {
      var i, j :| OneBlock(text, i, j);
      SpanOfBlock(text, i, j);
      assert IsBlockAt(text, block, i, j);
    } else {
      SpanTellsOrder(text);
    }
  }

  lemma SpanOfBlock(text: string, i: int, j: int)
    requires OneBlock(text, i, j)
    ensures Span(text) == Some((i, j + |END|))
  {
    SpanTellsOrder(text);
  }

  lemma BlockIsValidated(text: string, block: string, i: int, j: int)
    requires IsBlockAt(text, block, i, j)
    ensures ValidateControlledBlock(text, block).Success?
  {
    CountsTellMarkers(text);
    SpanTellsOrder(text);
  }

  lemma ValidatedIsBlock(text: string, i: int, j: int)
    requires OneBlock(text, i, j) && j + |END| <= |text|
    ensures BlockText(text[i..j + |END|])
  {
    AreMarkers();
    Apart(text, BEGIN, END, i, j);
    var block := text[i..j + |END|];
    forall k ensures At(block, BEGIN, k) <==> k == 0 { Slice(text, BEGIN, i, j + |END|, k); }
    forall k ensures At(block, END, k) <==> k == j - i { Slice(text, END, i, j + |END|, k); }
  }

  lemma BlockValidates(before: string, block: string, after: string)
    requires Tidy(before, after) && BlockText(block)
    ensures ValidateControlledBlock(Composed(before, block, after), block).Success?
  {
    ComposedHasItsBlock(before, block, after);
    CountsTellMarkers(Composed(before, block, after));
  }

  lemma ValidatedBlocks(text: string, block: string)
    requires ValidateControlledBlock(text, block).Success?
    ensures BlockText(block)
  {
    ValidateSucceedsExactly(text, block);
    var i, j :| IsBlockAt(text, block, i, j);
    ValidatedIsBlock(text, i, j);
  }

  /** Validation accepts what replacement wrote exactly when the block is one: it starts with its only begin
      marker and ends with its only end marker. */
  lemma ValidationAcceptsReplacement(text: string, block: string)
    requires ReplaceControlledBlock(text, block).Success?
    ensures ValidateControlledBlock(ReplaceControlledBlock(text, block).value, block).Success? <==> BlockText(block)
  {
    if BlockText(block) {
      ReplaceSucceedsExactly(text, block);
      BlockIsNotEmpty(block);
      ReplaceComposes(text, block);
      AroundIsTidy(text);
      BlockValidates(Around(text).0, block, Around(text).1);
    } else if ValidateControlledBlock(ReplaceControlledBlock(text, block).value, block).Success? {
      ValidatedBlocks(ReplaceControlledBlock(text, block).value, block);
    }
  }

  lemma BlockIsNotEmpty(block: string)
    requires BlockText(block)
    ensures block != ""
  {
    AreMarkers();
  }

  /** Replacing again forgets the first block: in particular, replacement is idempotent. */
  lemma LastReplacementWins(text: string, first: string, second: string)
    requires ReplaceControlledBlock(text, first).Success? && BlockText(first) && second != ""
    ensures ReplaceControlledBlock(ReplaceControlledBlock(text, first).value, second)
         == ReplaceControlledBlock(text, second)
  {
    BlockIsNotEmpty(first);
    ReplaceSucceedsExactly(text, first);
    ReplaceComposes(text, first);
    ReplaceComposes(text, second);
    AroundIsTidy(text);
    ComposedHasItsBlock(Around(text).0, first, Around(text).1);
    ReplaceComposes(ReplaceControlledBlock(text, first).value, second);
  }

  /** What trimming takes away at the seams of a text with a hole in it. */
  lemma Seams<T>(s: seq<T>, start: nat, stop: nat, x: T) returns (seam: seq<T>, lead: seq<T>, trail: seq<T>)
    requires start <= |s| && stop <= |s|
    ensures s[..start] == StripRight(s[..start], x) + seam
    ensures s[stop..] == lead + StripRight(StripLeft(s[stop..], x), x) + trail
    ensures All(seam, x) && All(lead, x) && All(trail, x)
  {
    StripRightCuts(s[..start], x);
    seam := s[..start][|StripRight(s[..start], x)|..];
    lead, trail := TrimSplits(s[stop..], x);
  }

  lemma AroundBlock(text: string, i: int, j: int)
    requires OneBlock(text, i, j)
    ensures i < j <= |text| - |END|
    ensures Around(text) == (TrimEnd(text[..i]), Trim(text[j + |END|..]))
  {
    SpanTellsOrder(text);
  }

  /** The text outside the block survives, in order, except for the newlines next to the block and at the end. */
  lemma OutsideSurvives(text: string, block: string, i: int, j: int)
    returns (before: string, after: string, seam: string, lead: string, trail: string)
    requires OneBlock(text, i, j) && block != ""
    ensures ReplaceControlledBlock(text, block) == Success(Composed(before, block, after))
    ensures i < j <= |text| - |END| && text[..i] == before + seam && text[j + |END|..] == lead + after + trail
    ensures All(seam, '\n') && All(lead, '\n') && All(trail, '\n')
  {
    AroundBlock(text, i, j);
    ReplaceAround(text, block, i, j);
    before, after := Around(text).0, Around(text).1;
    seam, lead, trail := Seams(text, i, j + |END|, '\n');
  }

  lemma ReplaceAround(text: string, block: string, i: int, j: int)
    requires OneBlock(text, i, j) && block != ""
    ensures ReplaceControlledBlock(text, block) == Success(Composed(Around(text).0, block, Around(text).1))
  {
    assert HasOneBlock(text);
    ReplaceComposes(text, block);
  }
}
