/** The candle cache: each refresh downloads from the last cached candle on and merges. */
module CandleCache {
  import opened Prelude
  import opened Resampling

  datatype CacheError = OutOfOrder | Overlap | NoCache

  // What one refresh writes back.  The last cached candle was still forming: the new one with
  // the same time replaces it.
  function Merged(cached: Option<seq<Bar>>, latest: seq<Bar>): Result<seq<Bar>, CacheError> {
    if cached.None? || cached.value == [] || latest == [] then
      Success((if cached.Some? then cached.value else []) + latest)
    else
      var last := cached.value[|cached.value| - 1];
      if latest[0].at == last.at then Success(cached.value[..|cached.value| - 1] + latest)
      else if latest[0].at < last.at then Failure(Overlap)
      else Success(cached.value + latest)
  }

  // What the exchange shows at some moment: final candles, then one that may still change.
  ghost predicate Snapshot(final: seq<Bar>, s: seq<Bar>) {
    && 0 < |s| <= |final|
    && (forall i | 0 <= i < |s| - 1 :: s[i] == final[i])
    && s[|s| - 1].at == final[|s| - 1].at
  }

  // The rows of a snapshot from the time of the last cached candle on; a first download takes all.
  ghost predicate FromLast(s: seq<Bar>, cached: Option<seq<Bar>>, latest: seq<Bar>) {
    if cached.None? || cached.value == [] then latest == s
    else
      && |latest| <= |s|
      && latest == s[|s| - |latest|..]
      && forall i | 0 <= i < |s| :: i >= |s| - |latest| <==> s[i].at >= cached.value[|cached.value| - 1].at
  }

  class Cache {
    var stored: Option<seq<Bar>>

    constructor ()
      ensures stored == None
    {
      stored := None;
    }

    method CheckOrder(rows: seq<Bar>) returns (ok: bool)
      ensures ok <==> Ascending(rows)
    {
      ok := CheckStructure(rows, 1);
      assert forall x: int :: x % 1 == 0;
    }

    // The last row, still forming, is stored but not returned.
    method Load(refresh: bool, latest: seq<Bar>) returns (r: Result<seq<Bar>, CacheError>)
      modifies this
      ensures old(stored).Some? && !Ascending(old(stored).value) ==> r == Failure(OutOfOrder) && stored == old(stored)
      ensures (old(stored).Some? ==> Ascending(old(stored).value)) && refresh ==>
                if Merged(old(stored), latest).Success? then
                  stored == Some(Merged(old(stored), latest).value)
                  && r == Success(WithoutLast(Merged(old(stored), latest).value))
                else r == Failure(Overlap) && stored == old(stored)
      ensures !refresh ==> stored == old(stored)
      ensures !refresh && stored.None? ==> r == Failure(NoCache)
      ensures !refresh && stored.Some? && Ascending(stored.value) ==> r == Success(WithoutLast(stored.value))
    {
      if stored.Some? {
        var ok := CheckOrder(stored.value);
        if !ok {
          return Failure(OutOfOrder);
        }
      }
      if !refresh {
        return if stored.None? then Failure(NoCache) else Success(WithoutLast(stored.value));
      }
      var kept := if stored.Some? then stored.value else [];
      if kept != [] && latest != [] {
        if latest[0].at == kept[|kept| - 1].at {
          kept := kept[..|kept| - 1];
        } else if latest[0].at <= kept[|kept| - 1].at {
          return Failure(Overlap);
        }
      }
      stored := Some(kept + latest);
      r := Success(WithoutLast(stored.value));
    }
  }

  function WithoutLast(rows: seq<Bar>): seq<Bar> {
    if rows == [] then [] else rows[..|rows| - 1]
  }

  // A merge is refused exactly when the new rows reach back before the last cached one; otherwise the
  // cached rows before the first new one stay, and the new ones follow.
  lemma {:induction false} MergeKeepsEarlier(cached: seq<Bar>, latest: seq<Bar>)
    requires Ascending(cached) && cached != [] && latest != []
    ensures Merged(Some(cached), latest).Success? <==> cached[|cached| - 1].at <= latest[0].at
    ensures Merged(Some(cached), latest).Success? ==>
              exists k :: 0 <= k <= |cached| && Merged(Some(cached), latest).value == cached[..k] + latest
                          && forall i | 0 <= i < |cached| :: i < k <==> cached[i].at < latest[0].at
  {
    var n := |cached|;
    if cached[n - 1].at <= latest[0].at {
      var k := if cached[n - 1].at == latest[0].at then n - 1 else n;
      assert cached[..n] == cached;
      assert Merged(Some(cached), latest).value == cached[..k] + latest;
    }
  }

  // A refresh turns one snapshot into the next: only the forming candle is replaced.
  lemma RefreshIsDownload(final: seq<Bar>, cached: seq<Bar>, whole: seq<Bar>, latest: seq<Bar>)
    requires Ascending(final) && Snapshot(final, cached) && Snapshot(final, whole) && |cached| <= |whole|
    requires FromLast(whole, Some(cached), latest)
    ensures Merged(Some(cached), latest) == Success(whole)
  {
    var n := |cached|;
    SnapshotTimes(final, cached);
    SnapshotTimes(final, whole);
    var k := |whole| - |latest|;
    assert whole[n - 1].at == cached[n - 1].at;
    CutAt(whole, k, n);
    assert k == n - 1 && latest == whole[n - 1..];
    assert cached[..n - 1] == whole[..n - 1];
    assert whole == whole[..n - 1] + whole[n - 1..];
  }

  lemma CutAt(whole: seq<Bar>, k: nat, n: nat)
    requires Ascending(whole) && 0 < n <= |whole| && k <= |whole|
    requires forall i | 0 <= i < |whole| :: i >= k <==> whole[i].at >= whole[n - 1].at
    ensures k == n - 1
  {
    var x := whole[n - 1];
    assert n - 1 >= k <==> whole[n - 1].at >= x.at;
    if n > 1 {
      assert whole[n - 2].at < x.at;
      assert n - 2 >= k <==> whole[n - 2].at >= x.at;
    }
  }

  lemma SnapshotTimes(final: seq<Bar>, s: seq<Bar>)
    requires Ascending(final) && Snapshot(final, s)
    ensures Ascending(s) && forall i | 0 <= i < |s| :: s[i].at == final[i].at
  {
  }

  // The cache after each of a series of refreshes.
  ghost predicate Refreshes(final: seq<Bar>, snapshots: seq<seq<Bar>>, states: seq<Option<seq<Bar>>>,
                            latest: seq<seq<Bar>>) {
    && |states| == |snapshots| + 1 && |latest| == |snapshots| && states[0] == None
    && (forall k | 0 <= k < |snapshots| :: Snapshot(final, snapshots[k]))
    && (forall k | 0 <= k < |snapshots| - 1 :: |snapshots[k]| <= |snapshots[k + 1]|)
    && (forall k | 0 <= k < |snapshots| :: FromLast(snapshots[k], states[k], latest[k]))
    && forall k | 0 <= k < |snapshots| && Merged(states[k], latest[k]).Success? ::
         states[k + 1] == Some(Merged(states[k], latest[k]).value)
  }

  // However often it was refreshed, the cache is what one download at the last refresh gives,
  // and the rows handed out are final.
  lemma {:induction false} AnyRefreshesAreOneDownload(final: seq<Bar>, snapshots: seq<seq<Bar>>,
                                                      states: seq<Option<seq<Bar>>>, latest: seq<seq<Bar>>,
                                                      k: nat)
    requires Ascending(final) && Refreshes(final, snapshots, states, latest) && k < |snapshots|
    ensures states[k + 1] == Some(snapshots[k]) && WithoutLast(snapshots[k]) == final[..|snapshots[k]| - 1]
  {
    hide Merged, FromLast, Snapshot;
    RefreshAt(final, snapshots, states, latest, k);
    if k == 0 {
      FirstRefresh(final, snapshots[0], latest[0]);
    } else {
      AnyRefreshesAreOneDownload(final, snapshots, states, latest, k - 1);
      RefreshIsDownload(final, snapshots[k - 1], snapshots[k], latest[k]);
    }
    FinalRows(final, snapshots[k]);
  }

  // What the series says of refresh k.
  lemma RefreshAt(final: seq<Bar>, snapshots: seq<seq<Bar>>, states: seq<Option<seq<Bar>>>, latest: seq<seq<Bar>>,
                  k: nat)
    requires Refreshes(final, snapshots, states, latest) && k < |snapshots|
    ensures Snapshot(final, snapshots[k]) && FromLast(snapshots[k], states[k], latest[k])
    ensures Merged(states[k], latest[k]).Success? ==> states[k + 1] == Some(Merged(states[k], latest[k]).value)
    ensures k == 0 ==> states[0] == None
    ensures k > 0 ==> Snapshot(final, snapshots[k - 1]) && |snapshots[k - 1]| <= |snapshots[k]|
  {
    hide Merged, FromLast, Snapshot;
  }

  lemma FirstRefresh(final: seq<Bar>, whole: seq<Bar>, latest: seq<Bar>)
    requires Snapshot(final, whole) && FromLast(whole, None, latest)
    ensures Merged(None, latest) == Success(whole)
  {
    assert [] + latest == latest;
  }

  lemma FinalRows(final: seq<Bar>, s: seq<Bar>)
    requires Snapshot(final, s)
    ensures 0 < |s| <= |final| && WithoutLast(s) == final[..|s| - 1]
  {
  }
}
