/** Keyset reads: "the first `limit` items strictly after the cursor" of a list in a fixed strict order.

    A cursor is represented by its rank in that order, so `rank(item)` is the cursor of an item. */
module Listing {
  import opened Wrappers

  ghost predicate Ordered<T>(items: seq<T>, rank: T -> int) {
    forall i, j | 0 <= i < j < |items| :: rank(items[i]) < rank(items[j])
  }

  function After<T>(items: seq<T>, rank: T -> int, before: Option<int>): seq<T> {
    if items == [] then []
    else (if before.None? || before.value < rank(items[0]) then [items[0]] else []) + After(items[1..], rank, before)
  }

  function Prefix<T>(items: seq<T>, limit: nat): seq<T> { if |items| <= limit then items else items[..limit] }

  function Page<T>(items: seq<T>, rank: T -> int, before: Option<int>, limit: nat): seq<T> {
    Prefix(After(items, rank, before), limit)
  }

  /** The cursor stands just after the first k items. */
  predicate At<T>(items: seq<T>, rank: T -> int, cursor: Option<int>, k: int) {
    0 <= k <= |items| && cursor == if k == 0 then None else Some(rank(items[k - 1]))
  }

  lemma {:induction false} AfterPosition<T>(items: seq<T>, rank: T -> int, before: Option<int>, k: nat)
    requires Ordered(items, rank) && k <= |items|
    requires forall i | 0 <= i < |items| :: (before.None? || before.value < rank(items[i])) <==> k <= i
    ensures After(items, rank, before) == items[k..]
  {
    if items != [] {
      AfterPosition(items[1..], rank, before, if k == 0 then 0 else k - 1);
    }
  }

  /** On an ordered list a read resumes exactly where its cursor stands. */
  lemma PageResumes<T>(items: seq<T>, rank: T -> int, cursor: Option<int>, k: nat, limit: nat)
    requires Ordered(items, rank) && At(items, rank, cursor, k)
    ensures After(items, rank, cursor) == items[k..]
    ensures Page(items, rank, cursor, limit) == items[k..if k + limit < |items| then k + limit else |items|]
  {
    AfterPosition(items, rank, cursor, k);
  }

  /** A read returns only what is listed. */
  lemma {:induction false} AfterIsListed<T>(items: seq<T>, rank: T -> int, before: Option<int>)
    ensures forall item | item in After(items, rank, before) :: item in items
  {
    if items != [] { AfterIsListed(items[1..], rank, before); }
  }
}
