// The capped list of recently opened assets (src/app/quick_launch_preferences.rs).
module RecentAssets {
  import opened Common

  datatype RecentAsset = RecentAsset(assetId: string, openedAt: int)

  function OtherThan(id: string): RecentAsset -> bool {
    (a: RecentAsset) => a.assetId != id
  }

  function Truncate<T>(s: seq<T>, cap: nat): seq<T> {
    if |s| <= cap then s else s[..cap]
  }

  // The list after one open.
  function Recorded(existing: seq<RecentAsset>, open: RecentAsset, cap: nat): seq<RecentAsset> {
    if cap == 0 then [] else Truncate([open] + Filter(existing, OtherThan(open.assetId)), cap)
  }

  method RecordRecentAssetOpened(existing: seq<RecentAsset>, assetId: string, openedAt: int, cap: nat)
    returns (updated: seq<RecentAsset>)
    ensures updated == Recorded(existing, RecentAsset(assetId, openedAt), cap)
  {
    if cap == 0 {
      return [];
    }
    updated := [RecentAsset(assetId, openedAt)];
    for k := 0 to |existing|
      invariant updated == [RecentAsset(assetId, openedAt)] + Filter(existing[..k], OtherThan(assetId))
    {
      FilterAppend(existing[..k], existing[k], OtherThan(assetId));
      assert existing[..k + 1] == existing[..k] + [existing[k]];
      if existing[k].assetId != assetId {
        updated := updated + [existing[k]];
      }
    }
    assert existing[..|existing|] == existing;
    if |updated| > cap {
      updated := updated[..cap];
    }
  }

  // The list after a whole history of opens, oldest first.
  function AfterHistory(opens: seq<RecentAsset>, cap: nat): seq<RecentAsset> {
    if opens == [] then [] else Recorded(AfterHistory(opens[..|opens| - 1], cap), opens[|opens| - 1], cap)
  }

  // ---------------------------------------------------------------- the declarative reading

  // Open i is the latest of its asset.
  predicate IsLatest(opens: seq<RecentAsset>, i: nat) {
    i < |opens| && forall j :: i < j < |opens| ==> opens[j].assetId != opens[i].assetId
  }

  // Every asset once, with its latest open, newest first.
  function Distinct(opens: seq<RecentAsset>): seq<RecentAsset> {
    if opens == [] then []
    else
      var last := opens[|opens| - 1];
      [last] + Filter(Distinct(opens[..|opens| - 1]), OtherThan(last.assetId))
  }

  // idx lists the latest opens of all assets, newest first.
  ghost predicate ListsLatest(opens: seq<RecentAsset>, idx: seq<nat>) {
    && (forall k :: 0 <= k < |idx| ==> IsLatest(opens, idx[k]))
    && Descends(idx)
    && (forall i: nat :: IsLatest(opens, i) ==> i in idx)
  }

  ghost predicate UniqueAssets(s: seq<RecentAsset>) {
    forall j, k :: 0 <= j < k < |s| ==> s[j].assetId != s[k].assetId
  }

  // Among distinct assets a filter drops one at most.
  lemma {:induction false} FilterDropsOne(s: seq<RecentAsset>, id: string)
    requires UniqueAssets(s)
    ensures |Filter(s, OtherThan(id))| >= |s| - 1
  {
    if s != [] {
      if s[0].assetId == id {
        FilterAll(s[1..], OtherThan(id));
      } else {
        FilterDropsOne(s[1..], id);
      }
    }
  }

  lemma {:induction false} DistinctIsUnique(opens: seq<RecentAsset>)
    ensures UniqueAssets(Distinct(opens))
  {
    if opens != [] {
      var n := |opens| - 1;
      DistinctIsUnique(opens[..n]);
      var e := FilterEmbeds(Distinct(opens[..n]), OtherThan(opens[n].assetId));
    }
  }

  // Forgetting what lies past the cap before recording changes nothing.
  lemma TruncateThenRecord(s: seq<RecentAsset>, open: RecentAsset, cap: nat)
    requires UniqueAssets(s)
    ensures Recorded(Truncate(s, cap), open, cap) == Recorded(s, open, cap)
  {
    if 0 < cap < |s| {
      var keep := OtherThan(open.assetId);
      assert s == s[..cap] + s[cap..];
      FilterConcat(s[..cap], s[cap..], keep);
      FilterDropsOne(s[..cap], open.assetId);
      var near, far := Filter(s[..cap], keep), Filter(s[cap..], keep);
      assert ([open] + (near + far))[..cap] == ([open] + near)[..cap];
    }
  }

  // After any history from an empty list, the list is the distinct assets, newest first, cut at the cap.
  lemma {:induction false} HistoryIsCappedDistinct(opens: seq<RecentAsset>, cap: nat)
    ensures AfterHistory(opens, cap) == Truncate(Distinct(opens), cap)
  {
    if opens != [] {
      var n := |opens| - 1;
      HistoryIsCappedDistinct(opens[..n], cap);
      DistinctIsUnique(opens[..n]);
      TruncateThenRecord(Distinct(opens[..n]), opens[n], cap);
    }
  }

  lemma LatestIsUnique(opens: seq<RecentAsset>, i: nat, k: nat)
    requires IsLatest(opens, i) && IsLatest(opens, k) && opens[i].assetId == opens[k].assetId
    ensures i == k
  {
  }

  // Carries a listing of the history so far past one more open.
  ghost function Relisted(older: seq<nat>, e: seq<nat>, n: nat): (idx: seq<nat>)
    requires forall k :: 0 <= k < |e| ==> e[k] < |older|
    ensures |idx| == |e| + 1 && idx[0] == n
    ensures forall k :: 0 <= k < |e| ==> idx[k + 1] == older[e[k]]
  {
    [n] + seq(|e|, k requires 0 <= k < |e| => older[e[k]])
  }

  lemma StillLatest(opens: seq<RecentAsset>, i: nat)
    requires i + 1 < |opens|
    ensures IsLatest(opens, i) <==>
            IsLatest(opens[..|opens| - 1], i) && opens[i].assetId != opens[|opens| - 1].assetId
  {
    if IsLatest(opens[..|opens| - 1], i) && opens[i].assetId != opens[|opens| - 1].assetId {
      forall j | i < j < |opens| ensures opens[j].assetId != opens[i].assetId {
        if j < |opens| - 1 {
          assert opens[..|opens| - 1][j] == opens[j];
        }
      }
    }
  }

  // older lists the latest opens before the last one, and e picks the ones that are still the latest.
  ghost predicate Survivors(opens: seq<RecentAsset>, older: seq<nat>, e: seq<nat>) {
    && opens != []
    && (forall k :: 0 <= k < |older| ==> IsLatest(opens[..|opens| - 1], older[k]))
    && (forall k :: 0 <= k < |e| ==> e[k] < |older| && opens[older[e[k]]].assetId != opens[|opens| - 1].assetId)
  }

  lemma RelistedAreLatest(opens: seq<RecentAsset>, older: seq<nat>, e: seq<nat>, k: nat)
    requires Survivors(opens, older, e) && k <= |e|
    ensures IsLatest(opens, Relisted(older, e, |opens| - 1)[k])
  {
    if k > 0 {
      var i := older[e[k - 1]];
      assert IsLatest(opens[..|opens| - 1], i);
      StillLatest(opens, i);
    }
  }

  ghost predicate Descends(idx: seq<nat>) {
    forall j, k :: 0 <= j < k < |idx| ==> idx[j] > idx[k]
  }

  lemma RelistedDescends(older: seq<nat>, e: seq<nat>, n: nat)
    requires Embeds(e, |older|) && Descends(older)
    requires forall k :: 0 <= k < |older| ==> older[k] < n
    ensures Descends(Relisted(older, e, n))
  {
    forall j, k | 0 <= j < k < |Relisted(older, e, n)| ensures Relisted(older, e, n)[j] > Relisted(older, e, n)[k] {
      RelistedBefore(older, e, n, j, k);
    }
  }

  lemma RelistedBefore(older: seq<nat>, e: seq<nat>, n: nat, j: nat, k: nat)
    requires Embeds(e, |older|) && Descends(older) && j < k <= |e|
    requires forall i :: 0 <= i < |older| ==> older[i] < n
    ensures Relisted(older, e, n)[j] > Relisted(older, e, n)[k]
  {
    var picked := older[e[k - 1]];
    assert Relisted(older, e, n)[k] == picked < n;
    if j > 0 {
      PickedDescend(older, e, j - 1, k - 1);
      assert Relisted(older, e, n)[j] == older[e[j - 1]];
    }
  }

  lemma PickedDescend(older: seq<nat>, e: seq<nat>, j: nat, k: nat)
    requires Embeds(e, |older|) && j < k < |e| && Descends(older)
    ensures older[e[j]] > older[e[k]]
  {
    assert e[j] < e[k];
  }

  lemma RelistedIsComplete(opens: seq<RecentAsset>, older: seq<nat>, e: seq<nat>, i: nat, at: nat, m: nat)
    requires Survivors(opens, older, e) && IsLatest(opens, i) && i + 1 < |opens|
    requires at < |older| && older[at] == i && m < |e| && opens[older[e[m]]].assetId == opens[i].assetId
    ensures i in Relisted(older, e, |opens| - 1)
  {
    StillLatest(opens, i);
    LatestIsUnique(opens[..|opens| - 1], older[e[m]], i);
    assert Relisted(older, e, |opens| - 1)[m + 1] == i;
  }

  // The assets listed so far and the ones kept of them, read off the history.
  ghost predicate Linked(opens: seq<RecentAsset>, older: seq<nat>, e: seq<nat>) {
    && opens != []
    && var n := |opens| - 1;
    && var earlier := Distinct(opens[..n]);
    && var kept := Filter(earlier, OtherThan(opens[n].assetId));
    && |earlier| == |older| && |kept| == |e| && Embeds(e, |older|)
    && (forall k :: 0 <= k < |older| ==> older[k] < n && earlier[k] == opens[older[k]])
    && (forall k :: 0 <= k < |e| ==> kept[k] == earlier[e[k]] && earlier[e[k]].assetId != opens[n].assetId)
  }

  lemma RelistedMatches(opens: seq<RecentAsset>, older: seq<nat>, e: seq<nat>)
    requires Linked(opens, older, e)
    ensures var idx := Relisted(older, e, |opens| - 1);
            && |idx| == |Distinct(opens)|
            && forall k :: 0 <= k < |idx| ==> idx[k] < |opens| && Distinct(opens)[k] == opens[idx[k]]
  {
    DistinctSplits(opens);
    forall k | 0 <= k < |Relisted(older, e, |opens| - 1)|
      ensures Relisted(older, e, |opens| - 1)[k] < |opens|
      ensures Distinct(opens)[k] == opens[Relisted(older, e, |opens| - 1)[k]]
    {
      RelistedMatchesAt(opens, older, e, Distinct(opens[..|opens| - 1]), k);
    }
  }

  lemma DistinctSplits(opens: seq<RecentAsset>)
    requires opens != []
    ensures var last := opens[|opens| - 1];
            Distinct(opens) == [last] + Filter(Distinct(opens[..|opens| - 1]), OtherThan(last.assetId))
  {
  }

  lemma RelistedMatchesAt(opens: seq<RecentAsset>, older: seq<nat>, e: seq<nat>, earlier: seq<RecentAsset>, k: nat)
    requires Linked(opens, older, e) && earlier == Distinct(opens[..|opens| - 1]) && k <= |e|
    ensures var idx, kept := Relisted(older, e, |opens| - 1), Filter(earlier, OtherThan(opens[|opens| - 1].assetId));
            idx[k] < |opens| && ([opens[|opens| - 1]] + kept)[k] == opens[idx[k]]
  {
    if k > 0 {
      assert Filter(earlier, OtherThan(opens[|opens| - 1].assetId))[k - 1] == earlier[e[k - 1]];
    }
  }

  lemma LatestIsListed(opens: seq<RecentAsset>, older: seq<nat>, e: seq<nat>, i: nat)
    requires Survivors(opens, older, e) && Linked(opens, older, e)
    requires IsLatest(opens, i) && i + 1 < |opens| && i in older
    ensures i in Relisted(older, e, |opens| - 1)
  {
    var n := |opens| - 1;
    var earlier, keep := Distinct(opens[..n]), OtherThan(opens[n].assetId);
    StillLatest(opens, i);
    var at :| 0 <= at < |older| && older[at] == i;
    FilterHas(earlier, keep, at);
    var m :| 0 <= m < |e| && Filter(earlier, keep)[m] == earlier[at];
    RelistedIsComplete(opens, older, e, i, at, m);
  }

  // The distinct assets are the latest opens of all assets opened, each once, newest first.
  lemma {:induction false} DistinctListsLatest(opens: seq<RecentAsset>) returns (idx: seq<nat>)
    ensures |idx| == |Distinct(opens)| && ListsLatest(opens, idx)
    ensures forall k :: 0 <= k < |idx| ==> Distinct(opens)[k] == opens[idx[k]]
  {
    if opens == [] {
      idx := [];
    } else {
      var n := |opens| - 1;
      var older := DistinctListsLatest(opens[..n]);
      var e := FilterIndices(Distinct(opens[..n]), OtherThan(opens[n].assetId));
      assert Linked(opens, older, e);
      idx := Relisted(older, e, n);
      RelistedMatches(opens, older, e);
      RelistedListsLatest(opens, older, e);
    }
  }

  lemma RelistedListsLatest(opens: seq<RecentAsset>, older: seq<nat>, e: seq<nat>)
    requires Linked(opens, older, e) && ListsLatest(opens[..|opens| - 1], older)
    ensures ListsLatest(opens, Relisted(older, e, |opens| - 1))
  {
    var n := |opens| - 1;
    var idx := Relisted(older, e, n);
    assert Survivors(opens, older, e);
    RelistedDescends(older, e, n);
    forall k | 0 <= k < |idx| ensures IsLatest(opens, idx[k]) {
      RelistedAreLatest(opens, older, e, k);
    }
    forall i: nat | IsLatest(opens, i) ensures i in idx {
      RelistedCovers(opens, older, e, i);
    }
  }

  lemma RelistedCovers(opens: seq<RecentAsset>, older: seq<nat>, e: seq<nat>, i: nat)
    requires Survivors(opens, older, e) && Linked(opens, older, e) && IsLatest(opens, i)
    requires IsLatest(opens[..|opens| - 1], i) ==> i in older
    ensures i in Relisted(older, e, |opens| - 1)
  {
    assert Relisted(older, e, |opens| - 1)[0] == |opens| - 1;
    if i < |opens| - 1 {
      StillLatest(opens, i);
      LatestIsListed(opens, older, e, i);
    }
  }

  // Both readings together: entry k of the list is the k-th newest latest open, for as many as fit.
  lemma RecentListMeaning(opens: seq<RecentAsset>, cap: nat) returns (idx: seq<nat>)
    ensures ListsLatest(opens, idx) && |AfterHistory(opens, cap)| == Min(cap, |idx|)
    ensures forall k :: 0 <= k < |AfterHistory(opens, cap)| ==> AfterHistory(opens, cap)[k] == opens[idx[k]]
  {
    HistoryIsCappedDistinct(opens, cap);
    idx := DistinctListsLatest(opens);
  }
}
