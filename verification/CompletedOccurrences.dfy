/** The scheduler's bounded, insertion-ordered memory of completed occurrences. SHA-256 identities are
    represented by the tuples they digest. */
module CompletedOccurrences {
  import opened Wrappers

  datatype AutomationIdentity = AutomationIdentity(tenantId: string, spaceId: string, automationId: string)

  datatype OccurrenceIdentity = OccurrenceIdentity(
    scheduledFor: int, definitionDigest: string, actorId: string, principalId: Option<string>)

  datatype Entry = Entry(automation: AutomationIdentity, occurrence: OccurrenceIdentity)

  /** A JavaScript Map in insertion order. */
  function Lookup(map_: seq<Entry>, automation: AutomationIdentity): Option<OccurrenceIdentity> {
    if map_ == [] then None
    else if map_[0].automation == automation then Some(map_[0].occurrence)
    else Lookup(map_[1..], automation)
  }

  function Delete(map_: seq<Entry>, automation: AutomationIdentity): seq<Entry> {
    if map_ == [] then []
    else (if map_[0].automation == automation then [] else [map_[0]]) + Delete(map_[1..], automation)
  }

  function Remember(map_: seq<Entry>, e: Entry, limit: nat): seq<Entry> {
    if limit == 0 then map_ else
    var renewed := Delete(map_, e.automation) + [e];
    if |renewed| > limit then renewed[1..] else renewed
  }

  /** Independently: of a history of remembered identities, the latest occurrence of each automation,
      ordered by recency. */
  function Latest(history: seq<Entry>): seq<Entry> {
    if history == [] then []
    else (if Lookup(history[1..], history[0].automation).Some? then [] else [history[0]]) + Latest(history[1..])
  }

  function MostRecent(history: seq<Entry>, limit: nat): seq<Entry> { Suffix(Latest(history), limit) }

  function Suffix(s: seq<Entry>, limit: nat): (t: seq<Entry>)
    ensures |t| <= limit
  {
    if |s| <= limit then s else s[|s| - limit..]
  }

  lemma {:induction false} LookupAppend(a: seq<Entry>, b: seq<Entry>, k: AutomationIdentity)
    ensures Lookup(a + b, k) == if Lookup(a, k).Some? then Lookup(a, k) else Lookup(b, k)
  {
    if a == [] {
      assert a + b == b;
    } else {
      assert (a + b)[1..] == a[1..] + b;
      LookupAppend(a[1..], b, k);
    }
  }

  lemma {:induction false} DeleteAppend(a: seq<Entry>, b: seq<Entry>, k: AutomationIdentity)
    ensures Delete(a + b, k) == Delete(a, k) + Delete(b, k)
  {
    if a == [] {
      assert a + b == b;
    } else {
      assert (a + b)[1..] == a[1..] + b;
      DeleteAppend(a[1..], b, k);
    }
  }

  lemma {:induction false} LatestSnoc(history: seq<Entry>, e: Entry)
    ensures Latest(history + [e]) == Delete(Latest(history), e.automation) + [e]
  {
    if history == [] {
      assert history + [e] == [e];
    } else {
      assert (history + [e])[1..] == history[1..] + [e];
      LatestSnoc(history[1..], e);
      LookupAppend(history[1..], [e], history[0].automation);
      DeleteAppend(if Lookup(history[1..], history[0].automation).Some? then [] else [history[0]],
                   Latest(history[1..]), e.automation);
    }
  }

  predicate DistinctKeys(map_: seq<Entry>) {
    forall i, j | 0 <= i < j < |map_| :: map_[i].automation != map_[j].automation
  }

  lemma {:induction false} LookupFinds(map_: seq<Entry>, k: AutomationIdentity)
    ensures Lookup(map_, k).Some? <==> exists i :: 0 <= i < |map_| && map_[i].automation == k
    ensures Lookup(map_, k).Some? ==> Entry(k, Lookup(map_, k).value) in map_
  {
    if map_ != [] {
      LookupFinds(map_[1..], k);
      if i :| 0 <= i < |map_[1..]| && map_[1..][i].automation == k { assert map_[i + 1].automation == k; }
    }
  }

  lemma {:induction false} LatestDistinct(history: seq<Entry>)
    ensures DistinctKeys(Latest(history))
    ensures forall e | e in Latest(history) :: e in history
  {
    if history != [] {
      var rest, k := history[1..], history[0].automation;
      LatestDistinct(rest);
      LookupFinds(rest, k);
      if Lookup(rest, k).None? {
        forall i | 0 <= i < |Latest(rest)| ensures Latest(rest)[i].automation != k {
          assert Latest(rest)[i] in rest;
        }
      }
    }
  }

  /** Deleting a key from distinct entries removes at most one of them. */
  lemma {:induction false} DeleteCount(map_: seq<Entry>, k: AutomationIdentity)
    requires DistinctKeys(map_)
    ensures |Delete(map_, k)| == |map_| - (if Lookup(map_, k).Some? then 1 else 0)
    ensures Lookup(map_, k).None? ==> Delete(map_, k) == map_
  {
    if map_ != [] {
      DeleteCount(map_[1..], k);
      LookupFinds(map_[1..], k);
    }
  }

  /** Remembering keeps the last entries up to the limit. */
  lemma RememberKeepsLast(b: seq<Entry>, e: Entry, limit: nat)
    requires DistinctKeys(b) && 0 < limit && |b| <= limit
    ensures Remember(b, e, limit) == Suffix(Delete(b, e.automation) + [e], limit)
    ensures |Delete(b, e.automation) + [e]| >= |b|
  {
    DeleteCount(b, e.automation);
    LookupFinds(b, e.automation);
  }

  lemma RememberSuffix(a: seq<Entry>, b: seq<Entry>, e: Entry, limit: nat)
    requires DistinctKeys(a + b) && 0 < limit && |b| <= limit && (a != [] ==> |b| == limit)
    ensures Remember(b, e, limit) == Suffix(Delete(a + b, e.automation) + [e], limit)
  {
    LaterKeysDistinct(a, b);
    RememberKeepsLast(b, e, limit);
    DeleteAppend(a, b, e.automation);
    var earlier, later := Delete(a, e.automation), Delete(b, e.automation);
    assert (earlier + later) + [e] == earlier + (later + [e]);
    if a == [] {
      assert earlier + (later + [e]) == later + [e];
    } else {
      SuffixOfSum(earlier, later + [e], limit);
    }
  }

  lemma LaterKeysDistinct(a: seq<Entry>, b: seq<Entry>)
    requires DistinctKeys(a + b)
    ensures DistinctKeys(b)
  {
    assert forall i | 0 <= i < |b| :: b[i] == (a + b)[|a| + i];
  }

  /** A tail at least as long as the limit alone decides what the limit keeps. */
  lemma SuffixOfSum(earlier: seq<Entry>, kept: seq<Entry>, limit: nat)
    requires limit <= |kept|
    ensures Suffix(earlier + kept, limit) == Suffix(kept, limit)
  {
    assert (earlier + kept)[|earlier| + |kept| - limit..] == kept[|kept| - limit..];
  }

  /** The map after remembering one more identity is again the reference function of the history. */
  lemma RememberIsMostRecent(history: seq<Entry>, e: Entry, limit: nat)
    requires limit > 0
    ensures Remember(MostRecent(history, limit), e, limit) == MostRecent(history + [e], limit)
  {
    var all := Latest(history);
    var cut := |all| - |MostRecent(history, limit)|;
    assert all == all[..cut] + all[cut..];
    LatestDistinct(history);
    LatestSnoc(history, e);
    RememberSuffix(all[..cut], all[cut..], e, limit);
  }
}
