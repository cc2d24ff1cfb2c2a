/** Pages cut to a byte limit by trimming a suffix, and following their cursors through a whole list.

    `bytes` gives the encoded size of the response that carries these items and this continuation. */
module CreativePage {
  import opened Wrappers
  import opened Listing

  const MAX_RESPONSE_BYTES := 60 * 1024

  datatype Error = ResponseLimit

  datatype Response<T> = Response(items: seq<T>, continuation: Option<int>)

  /** The response with the first `length` items: the given continuation when nothing is trimmed, else the
      cursor of the last item kept. */
  function Cut<T>(items: seq<T>, continuation: Option<int>, cursorOf: T -> int, length: nat): Response<T>
    requires length <= |items|
  {
    Response(items[..length],
      if length == |items| then continuation else if length == 0 then None else Some(cursorOf(items[length - 1])))
  }

  predicate Fits<T>(response: Response<T>, bytes: (seq<T>, Option<int>) -> nat) {
    bytes(response.items, response.continuation) <= MAX_RESPONSE_BYTES
  }

  /** The longest fitting response of at most `length` items; an empty one may not stand for a nonempty list. */
  function Bounded<T>(items: seq<T>, continuation: Option<int>, cursorOf: T -> int,
                      bytes: (seq<T>, Option<int>) -> nat, length: nat): Result<Response<T>, Error>
    requires length <= |items|
  {
    var response := Cut(items, continuation, cursorOf, length);
    if Fits(response, bytes) then
      if length == 0 && |items| > 0 then Failure(ResponseLimit) else Success(response)
    else if length == 0 then Failure(ResponseLimit)
    else Bounded(items, continuation, cursorOf, bytes, length - 1)
  }

  method BoundedCreativePage<T>(items: seq<T>, continuation: Option<int>, cursorOf: T -> int,
                                bytes: (seq<T>, Option<int>) -> nat) returns (page: Result<Response<T>, Error>)
    ensures page == Bounded(items, continuation, cursorOf, bytes, |items|)
    ensures LongestFitting(items, continuation, cursorOf, bytes, |items|, page)
  {
    BoundedIsLongestFitting(items, continuation, cursorOf, bytes, |items|);
    var length := |items|;
    while length >= 0
      invariant -1 <= length <= |items|
      invariant length >= 0 ==>
        Bounded(items, continuation, cursorOf, bytes, |items|) == Bounded(items, continuation, cursorOf, bytes, length)
      invariant length == -1 ==> Bounded(items, continuation, cursorOf, bytes, |items|) == Failure(ResponseLimit)
    {
      var response := Cut(items, continuation, cursorOf, length);
      if Fits(response, bytes) {
        if length == 0 && |items| > 0 { return Failure(ResponseLimit); }
        return Success(response);
      }
      length := length - 1;
    }
    return Failure(ResponseLimit);
  }

  /** The result is the longest of the prefixes of at most `most` items whose response fits; it is an error
      exactly when none fits, an empty prefix of a nonempty list not counting. */
  ghost predicate LongestFitting<T>(items: seq<T>, continuation: Option<int>, cursorOf: T -> int,
                                    bytes: (seq<T>, Option<int>) -> nat, most: nat, page: Result<Response<T>, Error>)
    requires most <= |items|
  {
    if page.Failure? then
      forall n: nat | n <= most && (n > 0 || items == []) :: !Fits(Cut(items, continuation, cursorOf, n), bytes)
    else
      var length := |page.value.items|;
      && length <= most && (length > 0 || items == [])
      && page.value == Cut(items, continuation, cursorOf, length) && Fits(page.value, bytes)
      && forall n: nat | length < n <= most :: !Fits(Cut(items, continuation, cursorOf, n), bytes)
  }

  lemma {:induction false} BoundedIsLongestFitting<T>(items: seq<T>, continuation: Option<int>, cursorOf: T -> int,
                                                      bytes: (seq<T>, Option<int>) -> nat, length: nat)
    requires length <= |items|
    ensures LongestFitting(items, continuation, cursorOf, bytes, length,
                           Bounded(items, continuation, cursorOf, bytes, length))
  {
    if length > 0 && !Fits(Cut(items, continuation, cursorOf, length), bytes) {
      BoundedIsLongestFitting(items, continuation, cursorOf, bytes, length - 1);
    }
  }

  // ---------- following cursors ----------

  /** One request: read by limit and cursor, continue after a full page, cut to the byte limit. */
  function Request<T>(list: seq<T>, rank: T -> int, bytes: (seq<T>, Option<int>) -> nat, cursor: Option<int>,
                      limit: nat): Result<Response<T>, Error>
    requires limit > 0
  {
    var items := Page(list, rank, cursor, limit);
    Bounded(items, if |items| == limit then Some(rank(items[|items| - 1])) else None, rank, bytes, |items|)
  }

  datatype Reading<T> = Reading(pages: seq<seq<T>>, finished: bool)

  /** Follow the returned cursors until one is null, for at most so many requests. */
  function Follow<T>(ask: Option<int> -> Result<Response<T>, Error>, cursor: Option<int>, requests: nat)
    : Result<Reading<T>, Error>
    decreases requests
  {
    if requests == 0 then Success(Reading([], false)) else
    var response := ask(cursor);
    if response.Failure? then Failure(response.error)
    else if response.value.continuation.None? then Success(Reading([response.value.items], true))
    else Prepend(response.value.items, Follow(ask, response.value.continuation, requests - 1))
  }

  /** A request of the route, as a function of its cursor. */
  function Requester<T>(list: seq<T>, rank: T -> int, bytes: (seq<T>, Option<int>) -> nat, limit: nat)
    : Option<int> -> Result<Response<T>, Error>
    requires limit > 0
  {
    (cursor: Option<int>) => Request(list, rank, bytes, cursor, limit)
  }

  function Prepend<T>(page: seq<T>, rest: Result<Reading<T>, Error>): Result<Reading<T>, Error> {
    if rest.Failure? then rest else Success(Reading([page] + rest.value.pages, rest.value.finished))
  }

  function Concat<T>(pages: seq<seq<T>>): seq<T> { if pages == [] then [] else pages[0] + Concat(pages[1..]) }

  /** Every response with a single item fits, whether it ends the list or not, and so does the empty last page. */
  ghost predicate SinglesFit<T>(list: seq<T>, rank: T -> int, bytes: (seq<T>, Option<int>) -> nat) {
    && Fits(Response([], None), bytes)
    && forall i | 0 <= i < |list| ::
         Fits(Response([list[i]], None), bytes) && Fits(Response([list[i]], Some(rank(list[i]))), bytes)
  }

  /** A response to a read from position k on is the next stretch of the list; it ends the reading only at the
      end of the list, is empty only there, and otherwise hands over the cursor where it stops. */
  ghost predicate NextStretch<T>(list: seq<T>, rank: T -> int, limit: nat, k: nat, r: Response<T>) {
    var m := |r.items|;
    && k + m <= |list| && m <= limit && r.items == list[k..k + m] && (m == 0 ==> k == |list|)
    && (if r.continuation.None? then k + m == |list| else m > 0 && At(list, rank, r.continuation, k + m))
  }

  /** What a request from position k on yields: the next stretch, in a response that fits; it cannot fail when
      single items fit. */
  ghost predicate Serves<T>(list: seq<T>, rank: T -> int, bytes: (seq<T>, Option<int>) -> nat, limit: nat, k: nat,
                            r: Result<Response<T>, Error>)
  {
    if r.Failure? then !SinglesFit(list, rank, bytes)
    else NextStretch(list, rank, limit, k, r.value) && Fits(r.value, bytes)
  }

  lemma RequestAt<T>(list: seq<T>, rank: T -> int, bytes: (seq<T>, Option<int>) -> nat, cursor: Option<int>,
                     limit: nat, k: nat)
    requires limit > 0 && Ordered(list, rank) && At(list, rank, cursor, k)
    ensures Serves(list, rank, bytes, limit, k, Request(list, rank, bytes, cursor, limit))
  {
    PageResumes(list, rank, cursor, k, limit);
    BoundedAt(list, rank, bytes, limit, k, Page(list, rank, cursor, limit));
  }

  lemma BoundedAt<T>(list: seq<T>, rank: T -> int, bytes: (seq<T>, Option<int>) -> nat, limit: nat, k: nat,
                     items: seq<T>)
    requires limit > 0 && k <= |list| && items == list[k..if k + limit < |list| then k + limit else |list|]
    ensures var continuation := if |items| == limit then Some(rank(items[|items| - 1])) else None;
            Serves(list, rank, bytes, limit, k, Bounded(items, continuation, rank, bytes, |items|))
  {
    var continuation := if |items| == limit then Some(rank(items[|items| - 1])) else None;
    var r := Bounded(items, continuation, rank, bytes, |items|);
    BoundedIsLongestFitting(items, continuation, rank, bytes, |items|);
    if r.Success? {
      CutIsNextStretch(list, rank, limit, k, items, continuation, |r.value.items|);
    } else if SinglesFit(list, rank, bytes) {
      ShortestFits(list, rank, bytes, items, continuation, k);
    }
  }

  lemma CutIsNextStretch<T>(list: seq<T>, rank: T -> int, limit: nat, k: nat, items: seq<T>,
                            continuation: Option<int>, m: nat)
    requires limit > 0 && k <= |list| && items == list[k..if k + limit < |list| then k + limit else |list|]
    requires continuation == if |items| == limit then Some(rank(items[|items| - 1])) else None
    requires m <= |items| && (m > 0 || items == [])
    ensures NextStretch(list, rank, limit, k, Cut(items, continuation, rank, m))
  {
    assert items[..m] == list[k..k + m];
    if m > 0 { assert items[m - 1] == list[k + m - 1]; }
  }

  /** The shortest allowed response to a read always fits when single items do. */
  lemma ShortestFits<T>(list: seq<T>, rank: T -> int, bytes: (seq<T>, Option<int>) -> nat, items: seq<T>,
                        continuation: Option<int>, k: nat)
    requires SinglesFit(list, rank, bytes) && k + |items| <= |list| && items == list[k..k + |items|]
    requires continuation.Some? ==> items != [] && continuation.value == rank(items[|items| - 1])
    ensures Fits(Cut(items, continuation, rank, if items == [] then 0 else 1), bytes)
  {
    if items != [] { assert items[..1] == [list[k]]; }
  }

  /** What following cursors from position k on with so many requests achieves. */
  ghost predicate Covers<T>(list: seq<T>, limit: nat, k: nat, requests: nat, r: Reading<T>)
    requires k <= |list|
  {
    && PagesFrom(list, r.pages, limit, k) && |r.pages| <= |list| - k + 1
    && (r.finished ==> Concat(r.pages) == list[k..]) && (requests > |list| - k ==> r.finished)
  }

  /** A reading that does not fail covers the list, and it cannot fail when single items fit. */
  ghost predicate Reads<T>(
    list: seq<T>, limit: nat, k: nat, requests: nat, fits: bool, result: Result<Reading<T>, Error>)
    requires k <= |list|
  {
    if result.Failure? then !fits else Covers(list, limit, k, requests, result.value)
  }

  /** A request from any cursor that stands in the list yields the next stretch, and cannot fail if `fits`. */
  ghost predicate Asks<T>(
    ask: Option<int> -> Result<Response<T>, Error>, list: seq<T>, rank: T -> int, limit: nat, fits: bool)
  {
    forall cursor, k: int {:trigger ask(cursor), At(list, rank, cursor, k)} | At(list, rank, cursor, k) ::
      if ask(cursor).Failure? then !fits else NextStretch(list, rank, limit, k, ask(cursor).value)
  }

  lemma RequesterAsks<T>(list: seq<T>, rank: T -> int, bytes: (seq<T>, Option<int>) -> nat, limit: nat, fits: bool)
    requires limit > 0 && Ordered(list, rank) && (fits ==> SinglesFit(list, rank, bytes))
    ensures Asks(Requester(list, rank, bytes, limit), list, rank, limit, fits)
  {
    var ask := Requester(list, rank, bytes, limit);
    forall cursor, k: int | At(list, rank, cursor, k)
      ensures if ask(cursor).Failure? then !fits else NextStretch(list, rank, limit, k, ask(cursor).value)
    {
      RequestAt(list, rank, bytes, cursor, limit, k);
    }
  }

  lemma {:induction false} FollowFrom<T>(ask: Option<int> -> Result<Response<T>, Error>, list: seq<T>, rank: T -> int,
                                         cursor: Option<int>, limit: nat, requests: nat, k: nat, fits: bool)
    requires Asks(ask, list, rank, limit, fits) && At(list, rank, cursor, k)
    ensures Reads(list, limit, k, requests, fits, Follow(ask, cursor, requests))
    decreases requests
  {
    if requests == 0 {
      NoPages(list, limit, k, fits);
    } else if ask(cursor).Success? {
      var r := ask(cursor).value;
      if r.continuation.None? {
        LastPage(list, rank, limit, k, requests, fits, r);
      } else {
        FollowFrom(ask, list, rank, r.continuation, limit, requests - 1, k + |r.items|, fits);
        MorePages(list, rank, limit, k, requests, fits, r, Follow(ask, r.continuation, requests - 1));
      }
    }
  }

  lemma NoPages<T>(list: seq<T>, limit: nat, k: nat, fits: bool)
    requires k <= |list|
    ensures Reads(list, limit, k, 0, fits, Success(Reading([], false)))
  {
  }

  lemma LastPage<T>(list: seq<T>, rank: T -> int, limit: nat, k: nat, requests: nat, fits: bool, r: Response<T>)
    requires k <= |list| && NextStretch(list, rank, limit, k, r) && r.continuation.None?
    ensures Reads(list, limit, k, requests, fits, Success(Reading([r.items], true)))
  {
    assert [r.items][1..] == [];
  }

  lemma MorePages<T>(list: seq<T>, rank: T -> int, limit: nat, k: nat, requests: nat, fits: bool, r: Response<T>,
                     rest: Result<Reading<T>, Error>)
    requires requests > 0 && k <= |list| && NextStretch(list, rank, limit, k, r) && r.continuation.Some?
    requires Reads(list, limit, k + |r.items|, requests - 1, fits, rest)
    ensures Reads(list, limit, k, requests, fits, Prepend(r.items, rest))
  {
    if rest.Success? {
      assert ([r.items] + rest.value.pages)[1..] == rest.value.pages;
      assert list[k..] == r.items + list[k + |r.items|..];
    }
  }

  /** The pages are consecutive stretches of the list from position k on, none empty but possibly the last, at
      the end of the list. */
  ghost predicate PagesFrom<T>(list: seq<T>, pages: seq<seq<T>>, limit: nat, k: nat)
    decreases |pages|
  {
    pages != [] ==>
      var m := |pages[0]|;
      && k + m <= |list| && m <= limit && pages[0] == list[k..k + m]
      && (m == 0 ==> k == |list| && |pages| == 1)
      && PagesFrom(list, pages[1..], limit, k + m)
  }

  /** Following cursors from null to null yields every item exactly once, in order, whenever no request fails. */
  lemma FinishedReadingIsComplete<T>(
    list: seq<T>, rank: T -> int, bytes: (seq<T>, Option<int>) -> nat, limit: nat, requests: nat)
    requires limit > 0 && Ordered(list, rank)
    requires Follow(Requester(list, rank, bytes, limit), None, requests).Success?
    ensures var reading := Follow(Requester(list, rank, bytes, limit), None, requests).value;
            && PagesFrom(list, reading.pages, limit, 0)
            && (reading.finished ==> Concat(reading.pages) == list)
            && (requests > |list| ==> reading.finished)
  {
    RequesterAsks(list, rank, bytes, limit, false);
    FollowFrom(Requester(list, rank, bytes, limit), list, rank, None, limit, requests, 0, false);
  }

  /** No request fails, and |list| + 1 requests are enough, when every single-item response fits. */
  lemma EveryItemOnce<T>(list: seq<T>, rank: T -> int, bytes: (seq<T>, Option<int>) -> nat, limit: nat)
    requires limit > 0 && Ordered(list, rank) && SinglesFit(list, rank, bytes)
    ensures var r := Follow(Requester(list, rank, bytes, limit), None, |list| + 1);
            r.Success? && r.value.finished && Concat(r.value.pages) == list && |r.value.pages| <= |list| + 1
  {
    RequesterAsks(list, rank, bytes, limit, true);
    FollowFrom(Requester(list, rank, bytes, limit), list, rank, None, limit, |list| + 1, 0, true);
  }
}
