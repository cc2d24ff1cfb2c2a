/** Dependency order of the captured tables of a snapshot. */
module TableOrder {
  import opened Wrappers

  datatype ForeignKey<T> = ForeignKey(child: T, parent: T)

  datatype OrderError = DependencyCycle

  /** The outbox's trigger fills the deduplication table, so that edge is added to the declared keys. */
  const OUTBOX_EDGE := ForeignKey("outbox_deduplication", "outbox")

  predicate Distinct<T(==)>(tables: seq<T>) {
    forall i, j | 0 <= i < j < |tables| :: tables[i] != tables[j]
  }

  function Names<T(==)>(tables: seq<T>): set<T> { set t | t in tables }

  /** `child` must come after `parent`, another captured table. */
  predicate DependsOn<T(==)>(edges: seq<ForeignKey<T>>, captured: set<T>, child: T, parent: T) {
    ForeignKey(child, parent) in edges && parent != child && child in captured && parent in captured
  }

  predicate Blocked<T(==)>(edges: seq<ForeignKey<T>>, pending: set<T>, table: T) {
    exists fk | fk in edges :: fk.child == table && fk.parent != table && fk.parent in pending
  }

  predicate ParentsFirst<T(==)>(edges: seq<ForeignKey<T>>, captured: set<T>, order: seq<T>) {
    forall i, j | 0 <= i < |order| && 0 <= j < |order| && DependsOn(edges, captured, order[i], order[j]) :: j < i
  }

  predicate Walk<T(==)>(edges: seq<ForeignKey<T>>, captured: set<T>, walk: seq<T>) {
    forall i | 0 <= i < |walk| - 1 :: DependsOn(edges, captured, walk[i], walk[i + 1])
  }

  /** A walk along dependencies back to its start; no table depends on itself, so it meets at least two. */
  predicate ClosedWalk<T(==)>(edges: seq<ForeignKey<T>>, captured: set<T>, walk: seq<T>) {
    walk != [] && Walk(edges, captured, walk) && DependsOn(edges, captured, walk[|walk| - 1], walk[0])
  }

  predicate Cycle<T(==)>(edges: seq<ForeignKey<T>>, captured: set<T>, walk: seq<T>) {
    ClosedWalk(edges, captured, walk) && Distinct(walk) && |walk| >= 2
  }

  function Position<T(==)>(order: seq<T>, table: T): (i: nat)
    requires table in order
    ensures i < |order| && order[i] == table
  {
    if order[0] == table then 0 else 1 + Position(order[1..], table)
  }

  /** In an order that puts parents first, positions never rise along a walk. */
  lemma {:induction false} WalkFalls<T>(
    edges: seq<ForeignKey<T>>, captured: set<T>, order: seq<T>, walk: seq<T>, n: nat)
    requires ParentsFirst(edges, captured, order) && Walk(edges, captured, walk) && n < |walk|
    requires forall t | t in walk :: t in order
    ensures Position(order, walk[n]) <= Position(order, walk[0])
  {
    if n > 0 {
      WalkFalls(edges, captured, order, walk, n - 1);
      assert DependsOn(edges, captured, walk[n - 1], walk[n]);
    }
  }

  lemma OrderedHasNoWalk<T>(edges: seq<ForeignKey<T>>, captured: set<T>, order: seq<T>, walk: seq<T>)
    requires captured <= Names(order) && ParentsFirst(edges, captured, order)
    ensures !ClosedWalk(edges, captured, walk)
  {
    if ClosedWalk(edges, captured, walk) {
      WalkStaysCaptured(edges, captured, walk);
      WalkFalls(edges, captured, order, walk, |walk| - 1);
      assert false;
    }
  }

  lemma WalkStaysCaptured<T>(edges: seq<ForeignKey<T>>, captured: set<T>, walk: seq<T>)
    requires ClosedWalk(edges, captured, walk)
    ensures forall t | t in walk :: t in captured
  {
    forall i | 0 <= i < |walk| ensures walk[i] in captured {
      if i < |walk| - 1 { assert DependsOn(edges, captured, walk[i], walk[i + 1]); }
    }
  }

  lemma {:induction false} PathFits<T>(pending: set<T>, path: seq<T>)
    requires Distinct(path) && forall t | t in path :: t in pending
    ensures |path| <= |pending|
    decreases |path|
  {
    if path != [] {
      forall t | t in path[1..] ensures t in pending - {path[0]} {
        var i :| 0 <= i < |path[1..]| && path[1..][i] == t;
        assert path[i + 1] == t;
      }
      PathFits(pending - {path[0]}, path[1..]);
    }
  }

  /** When every pending table waits for another pending one, following parents must close a cycle. */
  lemma FindCycle<T>(edges: seq<ForeignKey<T>>, pending: set<T>, path: seq<T>) returns (walk: seq<T>)
    requires path != [] && Distinct(path) && Walk(edges, pending, path) && forall t | t in path :: t in pending
    requires forall t | t in pending :: Blocked(edges, pending, t)
    ensures Cycle(edges, pending, walk)
    decreases |pending| - |path|
  {
    var last := path[|path| - 1];
    var parent := BlockingParent(edges, pending, last);
    if parent in path {
      var i := Position(path, parent);
      walk := path[i..];
      Suffix(edges, pending, path, i);
    } else {
      Extended(edges, pending, path, parent);
      PathFits(pending, path + [parent]);
      walk := FindCycle(edges, pending, path + [parent]);
    }
  }

  lemma BlockingParent<T>(edges: seq<ForeignKey<T>>, pending: set<T>, table: T) returns (parent: T)
    requires table in pending && Blocked(edges, pending, table)
    ensures DependsOn(edges, pending, table, parent)
  {
    var fk :| fk in edges && fk.child == table && fk.parent != table && fk.parent in pending;
    parent := fk.parent;
    assert fk == ForeignKey(table, parent);
  }

  lemma Suffix<T>(edges: seq<ForeignKey<T>>, pending: set<T>, path: seq<T>, i: nat)
    requires Walk(edges, pending, path) && Distinct(path) && i < |path|
    ensures Walk(edges, pending, path[i..]) && Distinct(path[i..])
  {
    forall k | 0 <= k < |path[i..]| - 1 ensures DependsOn(edges, pending, path[i..][k], path[i..][k + 1]) {
      assert DependsOn(edges, pending, path[i + k], path[i + k + 1]);
    }
  }

  lemma Extended<T>(edges: seq<ForeignKey<T>>, pending: set<T>, path: seq<T>, parent: T)
    requires path != [] && Walk(edges, pending, path) && Distinct(path) && parent !in path
    requires DependsOn(edges, pending, path[|path| - 1], parent)
    ensures Walk(edges, pending, path + [parent]) && Distinct(path + [parent])
  {
    var q := path + [parent];
    forall k | 0 <= k < |q| - 1 ensures DependsOn(edges, pending, q[k], q[k + 1]) {
      if k < |path| - 1 { assert DependsOn(edges, pending, path[k], path[k + 1]); }
    }
  }

  lemma MoreCaptured<T>(edges: seq<ForeignKey<T>>, pending: set<T>, captured: set<T>, walk: seq<T>)
    requires Cycle(edges, pending, walk) && pending <= captured
    ensures Cycle(edges, captured, walk)
  {
    forall i | 0 <= i < |walk| - 1 ensures DependsOn(edges, captured, walk[i], walk[i + 1]) {
      assert DependsOn(edges, pending, walk[i], walk[i + 1]);
    }
  }

  /** The loop's state: what is ordered waits for nothing pending, and the two parts make up the tables. */
  ghost predicate Ordering<T>(edges: seq<ForeignKey<T>>, tables: seq<T>, ordered: seq<T>, pending: seq<T>) {
    && Distinct(pending)
    && multiset(ordered) + multiset(pending) == multiset(tables)
    && Names(ordered) + Names(pending) == Names(tables) && Names(ordered) !! Names(pending)
    && ParentsFirst(edges, Names(tables), ordered)
    && forall t | t in ordered :: !Blocked(edges, Names(pending), t)
  }

  /** Moving an element from one part to the other keeps what the two parts hold. */
  lemma Moved<T>(ordered: seq<T>, pending: seq<T>, i: nat)
    requires Distinct(pending) && i < |pending|
    ensures var next, rest := pending[i], pending[..i] + pending[i + 1..];
            && multiset(pending) == multiset(rest) + multiset{next}
            && Names(pending) == Names(rest) + {next} && next !in rest && Distinct(rest)
            && Names(ordered + [next]) == Names(ordered) + {next}
  {
    assert pending == pending[..i] + [pending[i]] + pending[i + 1..];
  }

  lemma OrderingStep<T>(edges: seq<ForeignKey<T>>, tables: seq<T>, ordered: seq<T>, pending: seq<T>, i: nat)
    requires Ordering(edges, tables, ordered, pending) && i < |pending| && !Blocked(edges, Names(pending), pending[i])
    ensures Ordering(edges, tables, ordered + [pending[i]], pending[..i] + pending[i + 1..])
  {
    var next, rest := pending[i], pending[..i] + pending[i + 1..];
    Moved(ordered, pending, i);
    forall t | t in ordered + [next] ensures !Blocked(edges, Names(rest), t) {
      assert !Blocked(edges, Names(pending), t);
    }
    NextKeepsOrder(edges, tables, ordered, pending, next);
  }

  lemma NextKeepsOrder<T>(edges: seq<ForeignKey<T>>, tables: seq<T>, ordered: seq<T>, pending: seq<T>, next: T)
    requires Ordering(edges, tables, ordered, pending) && next in pending && !Blocked(edges, Names(pending), next)
    ensures ParentsFirst(edges, Names(tables), ordered + [next])
  {
    var q, all := ordered + [next], Names(tables);
    forall t | t in ordered ensures !DependsOn(edges, all, t, next) {
      assert !Blocked(edges, Names(pending), t);
    }
    forall i, j | 0 <= i < |q| && 0 <= j < |q| && DependsOn(edges, all, q[i], q[j]) ensures j < i {
      if i < |ordered| && j < |ordered| {
        assert DependsOn(edges, all, ordered[i], ordered[j]);
      }
    }
  }

  lemma StuckOnCycle<T>(edges: seq<ForeignKey<T>>, tables: seq<T>, ordered: seq<T>, pending: seq<T>)
    requires Ordering(edges, tables, ordered, pending) && pending != []
    requires forall t | t in pending :: Blocked(edges, Names(pending), t)
    ensures exists walk :: Cycle(edges, Names(tables), walk)
  {
    var walk := FindCycle(edges, Names(pending), [pending[0]]);
    MoreCaptured(edges, Names(pending), Names(tables), walk);
  }

  lemma OrderedHasNoWalks<T>(edges: seq<ForeignKey<T>>, tables: seq<T>, ordered: seq<T>)
    requires Ordering(edges, tables, ordered, [])
    ensures forall walk :: !ClosedWalk(edges, Names(tables), walk)
  {
    forall walk ensures !ClosedWalk(edges, Names(tables), walk) {
      OrderedHasNoWalk(edges, Names(tables), ordered, walk);
    }
  }

  /** The order is a permutation of the tables with every captured parent before its child, and it is
      refused exactly when the edges close a cycle through two or more captured tables. */
  method TopologicalOrder<T(==)>(tables: seq<T>, edges: seq<ForeignKey<T>>) returns (r: Result<seq<T>, OrderError>)
    requires Distinct(tables)
    ensures r.Success? ==> multiset(r.value) == multiset(tables) && ParentsFirst(edges, Names(tables), r.value)
    ensures r.Failure? ==> exists walk :: Cycle(edges, Names(tables), walk)
    ensures r.Success? ==> forall walk :: !ClosedWalk(edges, Names(tables), walk)
  {
    var ordered, pending := [], tables;
    while pending != []
      invariant Ordering(edges, tables, ordered, pending)
      decreases |pending|
    {
      var i := 0;
      while i < |pending| && Blocked(edges, Names(pending), pending[i])
        invariant 0 <= i <= |pending|
        invariant forall k | 0 <= k < i :: Blocked(edges, Names(pending), pending[k])
      {
        i := i + 1;
      }
      if i == |pending| {
        StuckOnCycle(edges, tables, ordered, pending);
        return Failure(DependencyCycle);
      }
      OrderingStep(edges, tables, ordered, pending, i);
      ordered := ordered + [pending[i]];
      pending := pending[..i] + pending[i + 1..];
    }
    OrderedHasNoWalks(edges, tables, ordered);
    return Success(ordered);
  }

  method OrderTables(tables: seq<string>, foreignKeys: seq<ForeignKey<string>>)
    returns (r: Result<seq<string>, OrderError>)
    requires Distinct(tables)
    ensures r.Success? ==> multiset(r.value) == multiset(tables)
                           && ParentsFirst(foreignKeys + [OUTBOX_EDGE], Names(tables), r.value)
    ensures r.Failure? <==> exists walk :: Cycle(foreignKeys + [OUTBOX_EDGE], Names(tables), walk)
    ensures r.Failure? <==> exists walk :: ClosedWalk(foreignKeys + [OUTBOX_EDGE], Names(tables), walk)
  {
    r := TopologicalOrder(tables, foreignKeys + [OUTBOX_EDGE]);
  }
}
