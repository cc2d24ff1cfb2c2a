/** Copying the rows an iterator yields in batches, reading rows back in batches, and comparing forms.

    `prepare` turns a source row into the values sent and the form expected of it, or refuses it. */
module BatchCopy {
  import opened Wrappers

  const BATCH_SIZE: nat := 128

  datatype Prepared<S, F> = Prepared(sent: S, form: F)

  datatype CopyError = SourceIncomplete | RowInvalid | MaintenanceInvalid | InsertIncomplete | RowVerificationFailed

  datatype Report<F> = Report(rows: nat, digest: seq<F>)

  function MapAll<R, P>(rows: seq<R>, f: R -> Option<P>): (r: Option<seq<P>>)
    ensures r.Some? ==> |r.value| == |rows|
    ensures rows == [] ==> r == Some([])
  {
    if rows == [] then Some([]) else
    var first, rest := f(rows[0]), MapAll(rows[1..], f);
    if first.None? || rest.None? then None else Some([first.value] + rest.value)
  }

  function Forms<S, F>(rows: seq<Prepared<S, F>>): (r: seq<F>)
    ensures |r| == |rows|
  {
    if rows == [] then [] else [rows[0].form] + Forms(rows[1..])
  }

  function Sent<S, F>(rows: seq<Prepared<S, F>>): (r: seq<S>)
    ensures |r| == |rows|
  {
    if rows == [] then [] else [rows[0].sent] + Sent(rows[1..])
  }

  function Prefix<T>(rows: seq<T>, n: nat): seq<T> { if |rows| <= n then rows else rows[..n] }

  function Drop<T>(rows: seq<T>, n: nat): seq<T> { if |rows| <= n then [] else rows[n..] }

  /** The batches a loop that counts to `count` in steps of the batch size takes from an iterator. */
  function Batches<T>(rows: seq<T>, count: int): seq<seq<T>>
    decreases count
  {
    if count <= 0 then [] else [Prefix(rows, BATCH_SIZE)] + Batches(Drop(rows, BATCH_SIZE), count - BATCH_SIZE)
  }

  function Flatten<T>(batches: seq<seq<T>>): seq<T> { if batches == [] then [] else batches[0] + Flatten(batches[1..]) }

  function RoundUp(count: int): nat { if count <= 0 then 0 else BATCH_SIZE + RoundUp(count - BATCH_SIZE) }

  lemma {:induction false} RoundUpIsCeiling(count: nat)
    ensures RoundUp(count) == (count + BATCH_SIZE - 1) / BATCH_SIZE * BATCH_SIZE
    ensures RoundUp(count) >= count && (RoundUp(count) == count <==> count % BATCH_SIZE == 0)
  {
    if count > BATCH_SIZE { RoundUpIsCeiling(count - BATCH_SIZE); }
  }

  lemma {:induction false} MapAllAppend<R, P>(a: seq<R>, b: seq<R>, f: R -> Option<P>)
    ensures MapAll(a, f).Some? && MapAll(b, f).Some? ==>
              MapAll(a + b, f) == Some(MapAll(a, f).value + MapAll(b, f).value)
    ensures MapAll(a, f).None? || MapAll(b, f).None? ==> MapAll(a + b, f) == None
  {
    if a == [] {
      assert a + b == b;
      assert MapAll(b, f).Some? ==> [] + MapAll(b, f).value == MapAll(b, f).value;
    } else {
      assert (a + b)[0] == a[0] && (a + b)[1..] == a[1..] + b;
      MapAllAppend(a[1..], b, f);
      if MapAll(a, f).Some? && MapAll(b, f).Some? {
        Associate([f(a[0]).value], MapAll(a[1..], f).value, MapAll(b, f).value);
      }
    }
  }

  lemma {:induction false} MapAllAt<R, P>(rows: seq<R>, f: R -> Option<P>, i: nat)
    requires i < |rows| && MapAll(rows, f).Some?
    ensures f(rows[i]) == Some(MapAll(rows, f).value[i])
  {
    if i > 0 { MapAllAt(rows[1..], f, i - 1); }
  }

  lemma {:induction false} MapAllFrom<R, P>(rows: seq<R>, f: R -> Option<P>, values: seq<P>)
    requires |rows| == |values| && forall i | 0 <= i < |rows| :: f(rows[i]) == Some(values[i])
    ensures MapAll(rows, f) == Some(values)
  {
    if rows != [] {
      MapAllFrom(rows[1..], f, values[1..]);
      assert values == [values[0]] + values[1..];
    }
  }

  lemma MapAllIs<R, P>(rows: seq<R>, f: R -> Option<P>, values: seq<P>)
    requires |rows| == |values|
    ensures MapAll(rows, f) == Some(values) <==> forall i | 0 <= i < |rows| :: f(rows[i]) == Some(values[i])
  {
    if MapAll(rows, f) == Some(values) {
      forall i | 0 <= i < |rows| ensures f(rows[i]) == Some(values[i]) { MapAllAt(rows, f, i); }
    } else if forall i | 0 <= i < |rows| :: f(rows[i]) == Some(values[i]) {
      MapAllFrom(rows, f, values);
    }
  }

  lemma {:induction false} FormsAt<S, F>(rows: seq<Prepared<S, F>>, i: nat)
    requires i < |rows|
    ensures Forms(rows)[i] == rows[i].form && Sent(rows)[i] == rows[i].sent
  {
    if i > 0 { FormsAt(rows[1..], i - 1); }
  }

  lemma Associate<T>(a: seq<T>, b: seq<T>, c: seq<T>)
    ensures a + (b + c) == (a + b) + c
  {
  }

  lemma {:induction false} FormsAppend<S, F>(a: seq<Prepared<S, F>>, b: seq<Prepared<S, F>>)
    ensures Forms(a + b) == Forms(a) + Forms(b) && Sent(a + b) == Sent(a) + Sent(b)
  {
    if a == [] {
      assert a + b == b;
    } else {
      assert (a + b)[0] == a[0] && (a + b)[1..] == a[1..] + b;
      FormsAppend(a[1..], b);
    }
  }

  lemma {:induction false} FlattenSnoc<T>(batches: seq<seq<T>>, b: seq<T>)
    ensures Flatten(batches + [b]) == Flatten(batches) + b
  {
    if batches == [] {
      assert batches + [b] == [b];
    } else {
      assert (batches + [b])[0] == batches[0] && (batches + [b])[1..] == batches[1..] + [b];
      FlattenSnoc(batches[1..], b);
    }
  }

  lemma TakeStep<T>(rows: seq<T>, count: int)
    requires count > 0
    ensures Prefix(rows, RoundUp(count))
         == Prefix(rows, BATCH_SIZE) + Prefix(Drop(rows, BATCH_SIZE), RoundUp(count - BATCH_SIZE))
  {
  }

  /** Batches cut the iterator's rows into consecutive pieces, and reach no further than the rounded count. */
  lemma {:induction false} BatchesPartition<T>(rows: seq<T>, count: int)
    ensures Flatten(Batches(rows, count)) == Prefix(rows, RoundUp(count))
    ensures forall b | b in Batches(rows, count) :: |b| <= 128
    ensures |rows| >= count ==> forall b | b in Batches(rows, count) :: b != []
    decreases count
  {
    if count > 0 {
      BatchesPartition(Drop(rows, BATCH_SIZE), count - BATCH_SIZE);
      TakeStep(rows, count);
    }
  }

  /** What has to hold of a batch for the loop to go on: it is not empty, every row converts, the batch suits
      its table, and the target reports every row written. */
  predicate BatchCopies<R, P>(batch: seq<R>, prepare: R -> Option<P>, fits: seq<R> -> bool, written: nat) {
    batch != [] && MapAll(batch, prepare).Some? && fits(batch) && written == |batch|
  }

  ghost predicate AllCopy<R, P>(
    batches: seq<seq<R>>, prepare: R -> Option<P>, fits: seq<R> -> bool, written: nat -> nat, from: nat)
  {
    forall i | 0 <= i < |batches| :: BatchCopies(batches[i], prepare, fits, written(from + i))
  }

  /** The loop completes from here: every batch it still takes can be copied. */
  ghost predicate Completes<R, P>(
    rest: seq<R>, left: int, prepare: R -> Option<P>, fits: seq<R> -> bool, written: nat -> nat, from: nat)
  {
    AllCopy(Batches(rest, left), prepare, fits, written, from)
  }

  lemma AllCopyStep<R, P>(
    rest: seq<R>, count: int, prepare: R -> Option<P>, fits: seq<R> -> bool, written: nat -> nat, from: nat)
    requires count > 0
    ensures Completes(rest, count, prepare, fits, written, from)
       <==> BatchCopies(Prefix(rest, BATCH_SIZE), prepare, fits, written(from))
            && Completes(Drop(rest, BATCH_SIZE), count - BATCH_SIZE, prepare, fits, written, from + 1)
  {
    var all, tail := Batches(rest, count), Batches(Drop(rest, BATCH_SIZE), count - BATCH_SIZE);
    if AllCopy(all, prepare, fits, written, from) {
      assert BatchCopies(all[0], prepare, fits, written(from + 0));
      forall i | 0 <= i < |tail| ensures BatchCopies(tail[i], prepare, fits, written(from + 1 + i)) {
        assert BatchCopies(all[i + 1], prepare, fits, written(from + (i + 1)));
      }
    }
  }

  /** A completed loop has converted every row it took. */
  lemma {:induction false} CompletedConverts<R, P>(
    rest: seq<R>, left: int, prepare: R -> Option<P>, fits: seq<R> -> bool, written: nat -> nat, from: nat)
    requires Completes(rest, left, prepare, fits, written, from)
    ensures MapAll(Prefix(rest, RoundUp(left)), prepare).Some?
    decreases left
  {
    if left > 0 {
      AllCopyStep(rest, left, prepare, fits, written, from);
      CompletedConverts(Drop(rest, BATCH_SIZE), left - BATCH_SIZE, prepare, fits, written, from + 1);
      TakeStep(rest, left);
      MapAllAppend(Prefix(rest, BATCH_SIZE), Prefix(Drop(rest, BATCH_SIZE), RoundUp(left - BATCH_SIZE)), prepare);
    }
  }

  lemma OneBatch<R, P>(rows: seq<R>, prepare: R -> Option<P>, fits: seq<R> -> bool, written: nat -> nat)
    requires 1 <= |rows| <= BATCH_SIZE && BatchCopies(rows, prepare, fits, written(0))
    ensures Completes(rows, |rows|, prepare, fits, written, 0)
  {
    AllCopyStep(rows, |rows|, prepare, fits, written, 0);
  }

  datatype Progress<R, S, F> = Progress(done: seq<R>, rest: seq<R>, prepared: seq<Prepared<S, F>>, batches: seq<seq<S>>)

  /** After some batches: what is done and what is left make up the source, and what was sent is prepared from it. */
  ghost predicate Copied<R, S, F>(
    source: seq<R>, count: int, left: int, prepare: R -> Option<Prepared<S, F>>, p: Progress<R, S, F>)
  {
    && p.done + Prefix(p.rest, RoundUp(left)) == Prefix(source, RoundUp(count))
    && MapAll(p.done, prepare) == Some(p.prepared)
    && Flatten(p.batches) == Sent(p.prepared)
    && (forall b | b in p.batches :: 1 <= |b| <= BATCH_SIZE)
  }

  function Next<R, S, F>(p: Progress<R, S, F>, rows: seq<R>, prepared: seq<Prepared<S, F>>): Progress<R, S, F> {
    Progress(p.done + rows, Drop(p.rest, BATCH_SIZE), p.prepared + prepared, p.batches + [Sent(prepared)])
  }

  lemma CopiedStep<R, S, F>(source: seq<R>, count: int, left: int, prepare: R -> Option<Prepared<S, F>>,
                            p: Progress<R, S, F>, rows: seq<R>, prepared: seq<Prepared<S, F>>)
    requires Copied(source, count, left, prepare, p) && left > 0
    requires rows == Prefix(p.rest, BATCH_SIZE) != [] && MapAll(rows, prepare) == Some(prepared)
    ensures Copied(source, count, left - BATCH_SIZE, prepare, Next(p, rows, prepared))
    ensures Forms(Next(p, rows, prepared).prepared) == Forms(p.prepared) + Forms(prepared)
  {
    MapAllAppend(p.done, rows, prepare);
    FormsAppend(p.prepared, prepared);
    FlattenSnoc(p.batches, Sent(prepared));
    PartsStep(p.done, p.rest, left);
  }

  lemma PartsStep<R>(done: seq<R>, rest: seq<R>, left: int)
    requires left > 0
    ensures (done + Prefix(rest, BATCH_SIZE)) + Prefix(Drop(rest, BATCH_SIZE), RoundUp(left - BATCH_SIZE))
         == done + Prefix(rest, RoundUp(left))
  {
    TakeStep(rest, left);
    Associate(done, Prefix(rest, BATCH_SIZE), Prefix(Drop(rest, BATCH_SIZE), RoundUp(left - BATCH_SIZE)));
  }

  /** One batch: converted, checked against its table, sent, and its row count compared. */
  method CopyBatch<R(==), S, F>(rows: seq<R>, prepare: R -> Option<Prepared<S, F>>, fits: seq<R> -> bool, written: nat)
    returns (r: Result<seq<Prepared<S, F>>, CopyError>)
    ensures r.Success? <==> BatchCopies(rows, prepare, fits, written)
    ensures r.Success? ==> MapAll(rows, prepare) == Some(r.value)
    ensures r.Failure? ==>
              r.error == if rows == [] then SourceIncomplete else if MapAll(rows, prepare).None? then RowInvalid
                         else if !fits(rows) then MaintenanceInvalid else InsertIncomplete
  {
    if rows == [] { return Failure(SourceIncomplete); }
    var prepared := MapAll(rows, prepare);
    if prepared.None? { return Failure(RowInvalid); }
    if !fits(rows) { return Failure(MaintenanceInvalid); }
    if written != |rows| { return Failure(InsertIncomplete); }
    r := Success(prepared.value);
  }

  /** The copy loop: takes the source's rows in batches, converts and sends them, and expects their forms. */
  method CopyRows<R(==), S, F>(source: seq<R>, count: nat, prepare: R -> Option<Prepared<S, F>>, fits: seq<R> -> bool,
                           written: nat -> nat)
    returns (r: Result<seq<F>, CopyError>, batches: seq<seq<S>>)
    ensures r.Success? <==> Completes(source, count, prepare, fits, written, 0)
    ensures r.Success? ==>
      (var prepared := MapAll(Prefix(source, RoundUp(count)), prepare);
       prepared.Some? && r.value == Forms(prepared.value) && Flatten(batches) == Sent(prepared.value)
       && forall b | b in batches :: 1 <= |b| <= 128)
  {
    var expected: seq<F> := [];
    batches := [];
    var rest, offset := source, 0;
    ghost var p: Progress<R, S, F> := Progress([], source, [], []);
    ghost var left: int := count;
    StartCopied(source, count, prepare);
    while offset < count
      invariant left == count - offset && p.rest == rest && p.batches == batches
      invariant Copying(source, count, left, prepare, fits, written, p, expected)
      decreases left
    {
      var rows := Prefix(rest, BATCH_SIZE);
      var prepared := CopyBatch(rows, prepare, fits, written(|batches|));
      CopyingFails(source, count, left, prepare, fits, written, p, expected);
      if prepared.Failure? { return Failure(prepared.error), batches; }
      CopyingStep(source, count, left, prepare, fits, written, p, expected, prepared.value);
      p := Next(p, rows, prepared.value);
      expected := expected + Forms(prepared.value);
      batches := batches + [Sent(prepared.value)];
      rest := Drop(rest, BATCH_SIZE);
      offset := offset + BATCH_SIZE;
      left := left - BATCH_SIZE;
    }
    EndCopied(source, count, left, prepare, fits, written, p);
    r := Success(expected);
  }

  /** The loop's state: what is expected is what was sent, and the copy completes exactly when the rest does. */
  ghost predicate Copying<R, S, F>(source: seq<R>, count: nat, left: int, prepare: R -> Option<Prepared<S, F>>,
                                   fits: seq<R> -> bool, written: nat -> nat, p: Progress<R, S, F>, expected: seq<F>)
  {
    && Copied(source, count, left, prepare, p) && expected == Forms(p.prepared)
    && (Completes(source, count, prepare, fits, written, 0)
        <==> Completes(p.rest, left, prepare, fits, written, |p.batches|))
  }

  lemma CopyingFails<R, S, F>(source: seq<R>, count: nat, left: int, prepare: R -> Option<Prepared<S, F>>,
                              fits: seq<R> -> bool, written: nat -> nat, p: Progress<R, S, F>, expected: seq<F>)
    requires Copying(source, count, left, prepare, fits, written, p, expected) && left > 0
    ensures !BatchCopies(Prefix(p.rest, BATCH_SIZE), prepare, fits, written(|p.batches|))
            ==> !Completes(source, count, prepare, fits, written, 0)
  {
    AllCopyStep(p.rest, left, prepare, fits, written, |p.batches|);
  }

  lemma CopyingStep<R, S, F>(source: seq<R>, count: nat, left: int, prepare: R -> Option<Prepared<S, F>>,
                             fits: seq<R> -> bool, written: nat -> nat, p: Progress<R, S, F>, expected: seq<F>,
                             prepared: seq<Prepared<S, F>>)
    requires Copying(source, count, left, prepare, fits, written, p, expected) && left > 0
    requires BatchCopies(Prefix(p.rest, BATCH_SIZE), prepare, fits, written(|p.batches|))
    requires MapAll(Prefix(p.rest, BATCH_SIZE), prepare) == Some(prepared)
    ensures Copying(source, count, left - BATCH_SIZE, prepare, fits, written,
                    Next(p, Prefix(p.rest, BATCH_SIZE), prepared), expected + Forms(prepared))
  {
    AllCopyStep(p.rest, left, prepare, fits, written, |p.batches|);
    CopiedStep(source, count, left, prepare, p, Prefix(p.rest, BATCH_SIZE), prepared);
  }

  lemma EndCopied<R, S, F>(source: seq<R>, count: nat, left: int, prepare: R -> Option<Prepared<S, F>>,
                           fits: seq<R> -> bool, written: nat -> nat, p: Progress<R, S, F>)
    requires left <= 0 && Copied(source, count, left, prepare, p)
    ensures MapAll(Prefix(source, RoundUp(count)), prepare) == Some(p.prepared)
    ensures Completes(p.rest, left, prepare, fits, written, |p.batches|)
  {
    assert p.done + [] == p.done;
  }

  lemma StartCopied<R, S, F>(source: seq<R>, count: nat, prepare: R -> Option<Prepared<S, F>>)
    ensures Copied(source, count, count, prepare, Progress([], source, [], []))
  {
    assert [] + Prefix(source, RoundUp(count)) == Prefix(source, RoundUp(count));
  }

  /** The read-back loop: fetches the stored rows in batches and takes their forms. */
  method ReadRows<T, F>(stored: seq<T>, count: nat, form: T -> Option<F>)
    returns (actual: Option<seq<F>>, readRows: nat)
    ensures actual == MapAll(Prefix(stored, RoundUp(count)), form)
    ensures actual.Some? ==> readRows == |Prefix(stored, RoundUp(count))|
  {
    var forms: seq<F> := [];
    readRows := 0;
    var rest, offset := stored, 0;
    ghost var done: seq<T> := [];
    ghost var left: int := count;
    assert done + Prefix(rest, RoundUp(left)) == Prefix(stored, RoundUp(count));
    while offset < count
      invariant left == count - offset
      invariant ReadSoFar(stored, count, left, form, done, rest, forms) && readRows == |done|
      decreases left
    {
      var page := Prefix(rest, BATCH_SIZE);
      var pageForms := MapAll(page, form);
      ReadStep(stored, count, left, form, done, rest, forms);
      if pageForms.None? { return None, readRows; }
      forms := forms + pageForms.value;
      readRows := readRows + |page|;
      done := done + page;
      rest := Drop(rest, BATCH_SIZE);
      offset := offset + BATCH_SIZE;
      left := left - BATCH_SIZE;
    }
    assert done + [] == done;
    actual := Some(forms);
  }

  ghost predicate ReadSoFar<T, F>(
    stored: seq<T>, count: int, left: int, form: T -> Option<F>, done: seq<T>, rest: seq<T>, forms: seq<F>)
  {
    MapAll(done, form) == Some(forms) && done + Prefix(rest, RoundUp(left)) == Prefix(stored, RoundUp(count))
  }

  lemma ReadStep<T, F>(
    stored: seq<T>, count: int, left: int, form: T -> Option<F>, done: seq<T>, rest: seq<T>, forms: seq<F>)
    requires left > 0 && ReadSoFar(stored, count, left, form, done, rest, forms)
    ensures var page := Prefix(rest, BATCH_SIZE);
            var pageForms := MapAll(page, form);
            && (pageForms.None? ==> MapAll(Prefix(stored, RoundUp(count)), form).None?)
            && (pageForms.Some? ==>
                  ReadSoFar(stored, count, left - BATCH_SIZE, form, done + page, Drop(rest, BATCH_SIZE),
                            forms + pageForms.value))
  {
    var page, later := Prefix(rest, BATCH_SIZE), Prefix(Drop(rest, BATCH_SIZE), RoundUp(left - BATCH_SIZE));
    PartsStep(done, rest, left);
    MapAllAppend(done, page, form);
    MapAllAppend(done + page, later, form);
  }

  /** When the copy of a table is accepted, in terms of what the two stores hold. */
  ghost predicate Accepts<R, S, T, F>(source: seq<R>, count: nat, prepare: R -> Option<Prepared<S, F>>,
                                      fits: seq<R> -> bool, written: nat -> nat, stored: seq<T>, form: T -> Option<F>)
  {
    var taken, read := MapAll(Prefix(source, RoundUp(count)), prepare), MapAll(Prefix(stored, RoundUp(count)), form);
    && Completes(source, count, prepare, fits, written, 0)
    && taken.Some? && read == Some(Forms(taken.value)) && |read.value| == count
  }

  /** One table: copied, read back and compared. A report is given exactly when the two stores agree. */
  method CopyTable<R(==), S, T, F(==)>(source: seq<R>, count: nat, prepare: R -> Option<Prepared<S, F>>,
                                       fits: seq<R> -> bool, written: nat -> nat, stored: seq<T>, form: T -> Option<F>)
    returns (r: Result<Report<F>, CopyError>, batches: seq<seq<S>>)
    ensures r.Success? <==> Accepts(source, count, prepare, fits, written, stored, form)
    ensures r.Failure? && Completes(source, count, prepare, fits, written, 0) ==>
              r.error == if MapAll(Prefix(stored, RoundUp(count)), form).None? then RowInvalid
                         else RowVerificationFailed
    ensures r.Success? ==>
      (var prepared := MapAll(Prefix(source, RoundUp(count)), prepare).value;
       && r.value == Report(count, Forms(prepared)) && Flatten(batches) == Sent(prepared)
       && forall b | b in batches :: 1 <= |b| <= 128)
  {
    var expected;
    expected, batches := CopyRows(source, count, prepare, fits, written);
    if expected.Failure? { return Failure(expected.error), batches; }
    var actual, readRows := ReadRows(stored, count, form);
    if actual.None? { return Failure(RowInvalid), batches; }
    if readRows != count || actual.value != expected.value { return Failure(RowVerificationFailed), batches; }
    r := Success(Report(count, expected.value));
  }

  /** With the count taken in the same snapshot, an accepted copy has sent every source row once, in order, in
      batches of 1 to 128, and the rows it read back have the source rows' forms. */
  lemma AcceptedCopyIsComplete<R, S, T, F>(source: seq<R>, prepare: R -> Option<Prepared<S, F>>, fits: seq<R> -> bool,
                                           written: nat -> nat, stored: seq<T>, form: T -> Option<F>)
    requires Accepts(source, |source|, prepare, fits, written, stored, form)
    ensures Flatten(Batches(source, |source|)) == source
    ensures forall b | b in Batches(source, |source|) :: 1 <= |b| <= 128
    ensures MapAll(source, prepare).Some? && |stored| >= |source|
    ensures MapAll(stored[..|source|], form) == Some(Forms(MapAll(source, prepare).value))
  {
    BatchesPartition(source, |source|);
    RoundUpIsCeiling(|source|);
    assert Prefix(source, RoundUp(|source|)) == source;
    assert Prefix(stored, RoundUp(|source|)) == stored[..|source|];
  }

  /** The read-back stops at the rounded count, so an accepted copy agrees with the whole target exactly when the
      target holds no row beyond the counted ones. */
  lemma AcceptedCopyReadsEverything<R, S, T, F>(
    source: seq<R>, prepare: R -> Option<Prepared<S, F>>, fits: seq<R> -> bool, written: nat -> nat, stored: seq<T>,
    form: T -> Option<F>)
    requires Accepts(source, |source|, prepare, fits, written, stored, form)
    ensures MapAll(stored, form) == Some(Forms(MapAll(source, prepare).value)) <==> |stored| == |source|
    ensures |source| % 128 != 0 ==> |stored| == |source|
  {
    AcceptedCopyIsComplete(source, prepare, fits, written, stored, form);
    RoundUpIsCeiling(|source|);
    if |stored| == |source| { assert stored[..|source|] == stored; }
  }

  /** After a full last batch, any further rows of the target go unread. */
  lemma FullBatchHidesRows<R, S, T, F>(
    source: seq<R>, prepare: R -> Option<Prepared<S, F>>, fits: seq<R> -> bool, written: nat -> nat, stored: seq<T>,
    form: T -> Option<F>, extra: seq<T>)
    requires Accepts(source, |source|, prepare, fits, written, stored, form) && |source| % 128 == 0
    ensures Accepts(source, |source|, prepare, fits, written, stored + extra, form)
  {
    AcceptedCopyIsComplete(source, prepare, fits, written, stored, form);
    RoundUpIsCeiling(|source|);
    assert Prefix(stored + extra, |source|) == Prefix(stored, |source|);
  }

  /** Whether a target with unread rows can be accepted depends on the source's row count alone: acceptance
      forces the target to hold no further row exactly when the count is no multiple of the batch size. */
  lemma ReadBackIsExact<R, S, T(!new), F>(
    source: seq<R>, prepare: R -> Option<Prepared<S, F>>, fits: seq<R> -> bool, written: nat -> nat, stored: seq<T>,
    form: T -> Option<F>, extra: T)
    requires Accepts(source, |source|, prepare, fits, written, stored, form)
    ensures (forall more :: Accepts(source, |source|, prepare, fits, written, more, form) ==> |more| == |source|)
       <==> |source| % 128 != 0
  {
    if |source| % 128 == 0 {
      AcceptedCopyIsComplete(source, prepare, fits, written, stored, form);
      FullBatchHidesRows(source, prepare, fits, written, stored, form, [extra]);
      assert Accepts(source, |source|, prepare, fits, written, stored + [extra], form);
    } else {
      forall more | Accepts(source, |source|, prepare, fits, written, more, form) ensures |more| == |source| {
        AcceptedCopyReadsEverything(source, prepare, fits, written, more, form);
      }
    }
  }
}
