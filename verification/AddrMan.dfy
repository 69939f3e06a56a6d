/** CAddrMan: addresses spread over new and tried buckets, with several indexes kept in step. */
module AddrManager {
  import opened Basics
  import opened AddrTables
  import opened AddrStore
  import Arith

  /** Tried within the last minute. */
  ghost predicate JustTried(i: Info, now: int) { i.lastTry != 0 && now - i.lastTry <= 60 }

  /** No use: seen more than ten minutes in the future, never, or more than 30 days ago; or tried three times and never a
      success; or tried ten times with no success in the last 7 days. */
  ghost predicate NoUse(i: Info, now: int) {
    || i.address.time - now > 600 || i.address.time == 0 || now - i.address.time > 2_592_000
    || (i.attempts >= 3 && i.lastSuccess == 0) || (i.attempts >= 10 && now - i.lastSuccess > 604_800)
  }

  ghost predicate DueToGo(i: Info, now: int) { NoUse(i, now) && !JustTried(i, now) }

  lemma TerribleIsDue(i: Info, now: int)
    ensures IsTerrible(i, now) <==> DueToGo(i, now)
  {
  }

  /** The entry ShrinkNew removes from a bucket: the first terrible one, or else the one seen longest ago among
      four drawn at random. */
  method ChooseVictim(ids: seq<Id>, mapInfo: InfoMap, now: int, n: seq<nat>) returns (victim: Id, code: int)
    requires |ids| > 0 && forall i :: 0 <= i < |ids| ==> ids[i] in mapInfo
    requires |n| == 4 && forall k :: 0 <= k < 4 ==> n[k] < |ids|
    ensures victim in ids && (code == 0 || code == 1)
    ensures code == 0 ==> exists i :: 0 <= i < |ids| && FirstTerrible(ids, mapInfo, now, i) && victim == ids[i]
    ensures code == 1 ==> forall i :: 0 <= i < |ids| ==> !DueToGo(mapInfo[ids[i]], now)
    ensures code == 1 ==> exists k :: 0 <= k < 4 && victim == ids[n[k]] && Oldest(ids, mapInfo, n, k, |ids|)
  {
    for i := 0 to |ids|
      invariant forall j :: 0 <= j < i ==> !DueToGo(mapInfo[ids[j]], now)
    {
      TerribleIsDue(mapInfo[ids[i]], now);
      if IsTerrible(mapInfo[ids[i]], now) {
        assert FirstTerrible(ids, mapInfo, now, i);
        return ids[i], 0;
      }
    }
    var nOldest := None;
    ghost var found := 0;
    for nI := 0 to |ids|
      invariant nOldest.None? ==> forall k :: 0 <= k < 4 ==> n[k] >= nI
      invariant nOldest.Some? ==> 0 <= found < 4 && n[found] < nI && nOldest.value == ids[n[found]] && Oldest(ids, mapInfo, n, found, nI)
    {
      if nI == n[0] || nI == n[1] || nI == n[2] || nI == n[3] {
        if nOldest.None? || mapInfo[ids[nI]].address.time < mapInfo[nOldest.value].address.time {
          nOldest := Some(ids[nI]);
          found := if nI == n[0] then 0 else if nI == n[1] then 1 else if nI == n[2] then 2 else 3;
        }
      }
    }
    assert n[0] < |ids|;
    return nOldest.value, 1;
  }

  /** Of the places drawn among the first `size`, the `k`th holds the entry seen longest ago, or the first such. */
  ghost predicate Oldest(ids: seq<Id>, m: InfoMap, n: seq<nat>, k: int, size: nat)
    requires |n| == 4 && 0 <= k < 4 && forall j :: 0 <= j < 4 ==> n[j] < |ids| && ids[n[j]] in m
  {
    forall j :: 0 <= j < 4 && n[j] < size ==>
      var a, b := m[ids[n[k]]].address.time, m[ids[n[j]]].address.time; a < b || (a == b && n[k] <= n[j])
  }

  ghost predicate FirstTerrible(ids: seq<Id>, mapInfo: InfoMap, now: int, i: int)
    requires forall k :: 0 <= k < |ids| ==> ids[k] in mapInfo
    requires 0 <= i < |ids|
  {
    DueToGo(mapInfo[ids[i]], now) && forall j :: 0 <= j < i ==> !DueToGo(mapInfo[ids[j]], now)
  }

  /** The oldest of the entries at four drawn places. */
  ghost predicate OldestDrawn(ids: seq<Id>, m: InfoMap, n: seq<nat>, v: Id) {
    && |n| == 4 && (forall k :: 0 <= k < 4 ==> n[k] < |ids| && ids[n[k]] in m)
    && exists k :: 0 <= k < 4 && v == ids[n[k]] && Oldest(ids, m, n, k, |ids|)
  }

  /** Which entry a full new bucket gives up: of those due to go the one with the lowest id; if there is none, the one
      seen longest ago of four drawn. */
  ghost predicate RightVictim(bucket: set<Id>, m: InfoMap, now: int, n: seq<nat>, v: Id) {
    && v in bucket && (forall x :: x in bucket ==> x in m)
    && if exists x :: x in bucket && DueToGo(m[x], now)
       then DueToGo(m[v], now) && forall x :: x in bucket && DueToGo(m[x], now) ==> v <= x
       else exists ids :: Lists(ids, bucket) && OldestDrawn(ids, m, n, v)
  }

  /** So for each entry of the bucket: one just tried goes only if no other is due; one seen within 30 days, not from the
      future and with a success in the last 7 days goes only if none is due, and then as the oldest drawn; and one of no use
      that was not just tried goes unless one with a lower id is due. */
  lemma WhoGoes(bucket: set<Id>, m: InfoMap, now: int, n: seq<nat>, v: Id, x: Id)
    requires RightVictim(bucket, m, now, n, v) && x in bucket
    ensures m[v].lastTry != 0 && m[v].lastTry >= now - 60 ==> !DueToGo(m[x], now)
    ensures now - 2_592_000 <= m[v].address.time <= now + 600 && m[v].address.time != 0
            && now - 604_800 <= m[v].lastSuccess && m[v].lastSuccess != 0 ==>
              !DueToGo(m[x], now) && exists ids :: Lists(ids, bucket) && OldestDrawn(ids, m, n, v)
    ensures (m[x].lastTry == 0 || m[x].lastTry < now - 60)
            && (|| (m[x].attempts >= 3 && m[x].lastSuccess == 0)
                || (m[x].attempts >= 10 && m[x].lastSuccess < now - 604_800)
                || m[x].address.time > now + 600 || m[x].address.time == 0 || m[x].address.time < now - 2_592_000) ==>
              v <= x && DueToGo(m[v], now)
  {
  }

  lemma VictimIsRight(ids: seq<Id>, bucket: set<Id>, m: InfoMap, now: int, n: seq<nat>, v: Id, code: int)
    requires Lists(ids, bucket) && v in ids && forall i :: 0 <= i < |ids| ==> ids[i] in m
    requires code == 0 ==> exists i :: 0 <= i < |ids| && FirstTerrible(ids, m, now, i) && v == ids[i]
    requires code != 0 ==> (forall i :: 0 <= i < |ids| ==> !DueToGo(m[ids[i]], now)) && OldestDrawn(ids, m, n, v)
    ensures RightVictim(bucket, m, now, n, v)
  {
    hide DueToGo, OldestDrawn;
    forall x | x in bucket ensures exists i :: 0 <= i < |ids| && ids[i] == x {
      assert x in ids;
    }
    if code == 0 {
      var i :| 0 <= i < |ids| && FirstTerrible(ids, m, now, i) && v == ids[i];
      forall x | x in bucket && DueToGo(m[x], now) ensures v <= x {
        var j :| 0 <= j < |ids| && ids[j] == x;
        assert j >= i;
      }
      assert v in bucket && DueToGo(m[v], now);
    }
  }

  /** The choice looks at no entry outside the bucket. */
  lemma VictimStays(bucket: set<Id>, m: InfoMap, m': InfoMap, now: int, n: seq<nat>, v: Id)
    requires RightVictim(bucket, m, now, n, v) && forall x :: x in bucket && x in m ==> x in m' && m'[x] == m[x]
    ensures RightVictim(bucket, m', now, n, v)
  {
    hide DueToGo;
    if !exists x :: x in bucket && DueToGo(m[x], now) {
      var ids :| Lists(ids, bucket) && OldestDrawn(ids, m, n, v);
      forall k | 0 <= k < 4 ensures ids[n[k]] in bucket {
        assert ids[n[k]] in ids;
      }
      assert OldestDrawn(ids, m', n, v);
    }
  }

  function Inspected(size: nat): nat { if size < TRIED_ENTRIES_INSPECT_ON_EVICT then size else TRIED_ENTRIES_INSPECT_ON_EVICT }

  predicate DrawsOk(draws: seq<nat>, size: nat) {
    && |draws| == TRIED_ENTRIES_INSPECT_ON_EVICT
    && forall i :: 0 <= i < Inspected(size) ==> draws[i] < size - i
  }

  /** The bucket after the first `k` draws, each swapping an entry to the front part. */
  function AfterDraws(bucket: seq<Id>, draws: seq<nat>, k: nat): (s: seq<Id>)
    requires DrawsOk(draws, |bucket|) && k <= Inspected(|bucket|)
    ensures |s| == |bucket|
  {
    if k == 0 then bucket
    else
      var s, i := AfterDraws(bucket, draws, k - 1), k - 1;
      s[i + draws[i] := s[i]][i := s[i + draws[i]]]
  }

  /** The first of the front `k` with the least recent success. */
  function LeastRecent(m: InfoMap, s: seq<Id>, k: nat): (f: nat)
    requires 0 < k <= |s| && forall i :: 0 <= i < k ==> s[i] in m
    ensures f < k && forall i :: 0 <= i < k ==> m[s[f]].lastSuccess <= m[s[i]].lastSuccess
  {
    if k == 1 then 0
    else
      var f := LeastRecent(m, s, k - 1);
      if m[s[k - 1]].lastSuccess < m[s[f]].lastSuccess then k - 1 else f
  }

  lemma {:induction false} LeastRecentOfFront(m: InfoMap, s: seq<Id>, t: seq<Id>, k: nat)
    requires 0 < k <= |s| && k <= |t| && s[..k] == t[..k] && forall i :: 0 <= i < k ==> s[i] in m
    ensures forall i :: 0 <= i < k ==> t[i] == s[i]
    ensures LeastRecent(m, t, k) == LeastRecent(m, s, k)
  {
    assert forall i :: 0 <= i < k ==> t[i] == t[..k][i] == s[..k][i] == s[i];
    if k > 1 {
      assert s[..k - 1] == s[..k][..k - 1] && t[..k - 1] == t[..k][..k - 1];
      LeastRecentOfFront(m, s, t, k - 1);
    }
  }

  predicate AllKnown(m: InfoMap, s: seq<Id>) {
    forall i :: 0 <= i < |s| ==> s[i] in m
  }

  /** The bucket as SelectTried leaves it, and the place it returns: the one its oldest entry was drawn from. */
  function Picked(m: InfoMap, bucket: seq<Id>, draws: seq<nat>): (r: (seq<Id>, nat))
    requires bucket != [] && DrawsOk(draws, |bucket|)
    requires AllKnown(m, AfterDraws(bucket, draws, Inspected(|bucket|)))
    ensures |r.0| == |bucket| && r.1 < |bucket|
  {
    var s := AfterDraws(bucket, draws, Inspected(|bucket|));
    var f := LeastRecent(m, s, Inspected(|bucket|));
    (s, f + draws[f])
  }

  /** Which entry a full tried bucket gives up. */
  ghost predicate RightEvictee(m: InfoMap, bucket: seq<Id>, draws: seq<nat>, e: Option<Id>) {
    e.Some? ==>
      && bucket != [] && DrawsOk(draws, |bucket|)
      && AllKnown(m, AfterDraws(bucket, draws, Inspected(|bucket|)))
      && var p := Picked(m, bucket, draws);
      e.value == p.0[p.1]
  }

  /** It need not be the oldest entry inspected: drawn to the front of a full bucket from the second place, the oldest
      stays, and the entry it was swapped with goes. */
  lemma OldestKept(m: InfoMap, bucket: seq<Id>, draws: seq<nat>)
    requires |bucket| == TRIED_BUCKET_SIZE && AllKnown(m, bucket)
    requires forall i :: 0 <= i < 4 && i != 1 ==> m[bucket[1]].lastSuccess < m[bucket[i]].lastSuccess
    requires DrawsOk(draws, |bucket|) && draws[0] == 1 && draws[1] == draws[2] == draws[3] == 0
    ensures AllKnown(m, AfterDraws(bucket, draws, 4))
    ensures var p := Picked(m, bucket, draws);
            && p.0[0] == bucket[1] && LeastRecent(m, p.0, 4) == 0 && p.0[p.1] == bucket[0]
            && m[bucket[1]].lastSuccess < m[bucket[0]].lastSuccess
    ensures RightEvictee(m, bucket, draws, Some(bucket[0]))
  {
    OneSwap(bucket, draws);
    SecondIsOldest(m, bucket, bucket[1 := bucket[0]][0 := bucket[1]]);
    hide AfterDraws, LeastRecent;
  }

  lemma OneSwap(bucket: seq<Id>, draws: seq<nat>)
    requires |bucket| == TRIED_BUCKET_SIZE && DrawsOk(draws, |bucket|)
    requires draws[0] == 1 && draws[1] == draws[2] == draws[3] == 0
    ensures AfterDraws(bucket, draws, 4) == bucket[1 := bucket[0]][0 := bucket[1]]
  {
    DrawsStart(bucket, draws);
    forall i | 0 <= i < 4 { DrawsStep(bucket, draws, i); }
    hide AfterDraws;
    assert AfterDraws(bucket, draws, 1) == bucket[1 := bucket[0]][0 := bucket[1]];
    forall i | 1 <= i < 4 ensures AfterDraws(bucket, draws, i + 1) == AfterDraws(bucket, draws, i) { }
  }

  lemma SecondIsOldest(m: InfoMap, bucket: seq<Id>, s: seq<Id>)
    requires |bucket| == TRIED_BUCKET_SIZE && AllKnown(m, bucket) && s == bucket[1 := bucket[0]][0 := bucket[1]]
    requires forall i :: 0 <= i < 4 && i != 1 ==> m[bucket[1]].lastSuccess < m[bucket[i]].lastSuccess
    ensures AllKnown(m, s) && LeastRecent(m, s, 4) == 0
  {
    forall i | 0 <= i < |s| ensures s[i] in m {
      assert bucket[i] in m && bucket[0] in m && bucket[1] in m;
    }
    assert forall i :: 0 < i < 4 ==> m[s[0]].lastSuccess < m[s[i]].lastSuccess;
    assert LeastRecent(m, s, 1) == 0 && LeastRecent(m, s, 2) == 0 && LeastRecent(m, s, 3) == 0;
  }

  lemma DistinctPlaces(s: seq<Id>, i: int, j: int)
    requires Distinct(s) && 0 <= i < j < |s|
    ensures s[i] != s[j]
  {
  }

  ghost predicate Shuffled(s: seq<Id>, t: seq<Id>) {
    |t| == |s| && multiset(t) == multiset(s) && (Distinct(s) ==> Distinct(t))
  }

  lemma SwapPermutes(bucket: seq<Id>, s: seq<Id>, i: int, j: int)
    requires 0 <= i <= j < |s| && Distinct(bucket) && Shuffled(bucket, s)
    ensures Shuffled(bucket, s[j := s[i]][i := s[j]])
  {
    assert multiset(s[j := s[i]][i := s[j]]) == multiset(s);
  }

  lemma SameMembers(s: seq<Id>, t: seq<Id>)
    requires Shuffled(s, t)
    ensures forall x :: x in t <==> x in s
  {
    forall x ensures x in t <==> x in s {
      assert x in multiset(t) <==> x in multiset(s);
    }
  }

  /** SelectTried's shuffle. The place returned is the one the oldest entry inspected was drawn from, and holds it exactly if
      that draw left it in its place. */
  method PickTried(bucket: seq<Id>, mapInfo: InfoMap, draws: seq<nat>) returns (vTried: seq<Id>, nOldestPos: int)
    requires Distinct(bucket) && forall i :: 0 <= i < |bucket| ==> bucket[i] in mapInfo
    requires DrawsOk(draws, |bucket|)
    ensures vTried == AfterDraws(bucket, draws, Inspected(|bucket|))
    ensures multiset(vTried) == multiset(bucket) && Distinct(vTried) && forall x :: x in vTried <==> x in bucket
    ensures forall i :: 0 <= i < |vTried| ==> vTried[i] in mapInfo
    ensures bucket == [] ==> nOldestPos == -1
    ensures bucket != [] ==>
              var f := LeastRecent(mapInfo, vTried, Inspected(|bucket|));
              && nOldestPos == f + draws[f] < |vTried|
              && (vTried[nOldestPos] == vTried[f] <==> draws[f] == 0)
  {
    vTried, nOldestPos := bucket, -1;
    ghost var found := 0;
    hide Shuffled, Distinct, LeastRecent, AfterDraws;
    ShuffledSelf(bucket);
    DrawsStart(bucket, draws);
    var nOldest := None;
    for i := 0 to Inspected(|bucket|)
      invariant Shuffled(bucket, vTried) && |vTried| == |bucket| && vTried == AfterDraws(bucket, draws, i)
      invariant i == 0 <==> nOldest.None?
      invariant i == 0 ==> nOldestPos == -1
      invariant forall j :: 0 <= j < |vTried| ==> vTried[j] in mapInfo
      invariant i > 0 ==> found == LeastRecent(mapInfo, vTried, i) && nOldest == Some(vTried[found])
                          && nOldestPos == found + draws[found] < |bucket|
    {
      var nPos := draws[i] + i;
      var nTemp := vTried[nPos];
      ghost var before := vTried;
      SwapPermutes(bucket, vTried, i, nPos);
      vTried := vTried[nPos := vTried[i]];
      vTried := vTried[i := nTemp];
      DrawsStep(bucket, draws, i);
      LeastRecentStep(mapInfo, before, vTried, i);
      if nOldest.None? || mapInfo[nTemp].lastSuccess < mapInfo[nOldest.value].lastSuccess {
        nOldest, nOldestPos, found := Some(nTemp), nPos, i;
      }
    }
    SameMembers(bucket, vTried);
    ShuffledMeans(bucket, vTried);
    if bucket != [] && draws[found] != 0 { DistinctPlaces(vTried, found, nOldestPos); }
  }

  lemma DrawsStart(bucket: seq<Id>, draws: seq<nat>)
    requires DrawsOk(draws, |bucket|)
    ensures AfterDraws(bucket, draws, 0) == bucket
  {
  }

  lemma DrawsStep(bucket: seq<Id>, draws: seq<nat>, i: nat)
    requires DrawsOk(draws, |bucket|) && i < Inspected(|bucket|)
    ensures i + draws[i] < |bucket|
    ensures var s := AfterDraws(bucket, draws, i);
            AfterDraws(bucket, draws, i + 1) == s[i + draws[i] := s[i]][i := s[i + draws[i]]]
  {
  }

  lemma LeastRecentStep(m: InfoMap, s: seq<Id>, t: seq<Id>, i: nat)
    requires i < |s| == |t| && s[..i] == t[..i] && (forall j :: 0 <= j < |s| ==> s[j] in m) && forall j :: 0 <= j < |t| ==> t[j] in m
    ensures i == 0 ==> LeastRecent(m, t, 1) == 0
    ensures i > 0 ==>
              var f := LeastRecent(m, s, i);
              t[f] == s[f] && LeastRecent(m, t, i + 1) == if m[t[i]].lastSuccess < m[s[f]].lastSuccess then i else f
  {
    if i > 0 {
      LeastRecentOfFront(m, s, t, i);
    }
  }

  lemma ShuffledSelf(s: seq<Id>)
    ensures Shuffled(s, s)
  {
  }

  lemma ShuffledMeans(s: seq<Id>, t: seq<Id>)
    requires Shuffled(s, t) && Distinct(s)
    ensures |t| == |s| && multiset(t) == multiset(s) && Distinct(t)
  {
  }

  /** Take an id out of every new bucket, counting down its references. */
  method EraseEverywhere(vvNew: seq<set<Id>>, n: Id, refCount: int) returns (vv: seq<set<Id>>, count: int)
    ensures vv == Without(vvNew, n) && count == refCount - |Holders(vvNew, n)|
  {
    vv, count := vvNew, refCount;
    for b := 0 to |vvNew|
      invariant |vv| == |vvNew|
      invariant forall c :: 0 <= c < |vv| ==> vv[c] == if c < b then vvNew[c] - {n} else vvNew[c]
      invariant count == refCount - |Holders(vvNew, n)| + |Holders(vv, n)|
    {
      if n in vv[b] {
        HoldersRemove(vv, b, n);
        vv := vv[b := vv[b] - {n}];
        count := count - 1;
      }
    }
    assert vv == Without(vvNew, n);
    HoldersWithout(vvNew, n);
  }

  lemma MembersAreNew(m: InfoMap, vvNew: seq<set<Id>>, ex: Option<Id>, b: nat, n: Id)
    requires NewOk(m, vvNew, ex) && b < |vvNew| && n in vvNew[b]
    ensures |vvNew| == NEW_BUCKET_COUNT && n in m && !m[n].inTried
    ensures Some(n) != ex ==> m[n].refCount == |Holders(vvNew, n)| >= 1
  {
  }

  lemma TriedShape(h: Hashes, m: InfoMap, vvTried: seq<seq<Id>>, k: nat)
    requires TriedOk(h, m, vvTried) && k < TRIED_BUCKET_COUNT
    ensures |vvTried| == TRIED_BUCKET_COUNT && |vvTried[k]| <= TRIED_BUCKET_SIZE
    ensures forall i :: 0 <= i < |vvTried[k]| ==> vvTried[k][i] in m && m[vvTried[k][i]].inTried
  {
    assert BucketOk(h, m, vvTried[k], k);
  }

  lemma NewShape(m: InfoMap, vvNew: seq<set<Id>>, ex: Option<Id>)
    requires NewOk(m, vvNew, ex)
    ensures |vvNew| == NEW_BUCKET_COUNT
  {
  }

  lemma NoHolders(vv: seq<set<Id>>, n: Id)
    requires Holders(vv, n) == {}
    ensures forall b :: 0 <= b < |vv| ==> n !in vv[b]
  {
    forall b | 0 <= b < |vv| ensures n !in vv[b] {
      assert b !in Holders(vv, n);
    }
  }

  lemma NotTriedIsHeld(m: InfoMap, vvNew: seq<set<Id>>, n: Id)
    requires NewOk(m, vvNew, None) && n in m && !m[n].inTried
    ensures Holders(vvNew, n) != {} && |vvNew| == NEW_BUCKET_COUNT
  {
  }

  /** Times stay good with an entry set or added that has good ones. */
  lemma UpdateTimes(m: InfoMap, n: Id, i: Info)
    requires TimesOk(m)
    ensures TimesOk(m[n := i]) <==> i.lastTry >= 0 && i.lastSuccess >= 0 && (i.inTried ==> i.lastSuccess != 0)
    ensures n in m ==> m[n].lastTry >= 0 && m[n].lastSuccess >= 0 && (m[n].inTried ==> m[n].lastSuccess != 0)
  {
    assert m[n := i][n] == i;
  }

  class CAddrMan {
    var hash: Hashes
    var nIdCount: int
    var mapInfo: InfoMap
    var mapAddr: map<NetAddr, Id>
    var vRandom: seq<Id>
    var nTried: int
    var vvTried: seq<seq<Id>>
    var nNew: int
    var vvNew: seq<set<Id>>

    /** All tables in step, except that the bucket membership of `ex` may be in transit. */
    ghost predicate Linked(ex: Option<Id>)
      reads this
    {
      && IndexOk(mapInfo, mapAddr, vRandom)
      && TriedOk(hash, mapInfo, vvTried)
      && NewOk(mapInfo, vvNew, ex)
      && CountsOk(mapInfo, vRandom, nTried, nNew, nIdCount)
    }

    /** What Check_ verifies, plus the bucket sizes. */
    ghost predicate Valid()
      reads this
    {
      Linked(None) && TimesOk(mapInfo)
    }

    constructor (hash: Hashes)
      ensures Valid() && this.hash == hash && mapInfo == map[]
    {
      this.hash := hash;
      nIdCount, nTried, nNew := 0, 0, 0;
      mapInfo, mapAddr, vRandom := map[], map[], [];
      vvTried := seq(TRIED_BUCKET_COUNT, _ => []);
      vvNew := seq(NEW_BUCKET_COUNT, _ => {});
      new;
      assert TriedIds(mapInfo) == {} && NewIds(mapInfo) == {};
    }

    /** Find by address, ignoring the port. */
    method Find(ip: NetAddr) returns (r: Option<Id>)
      requires IndexOk(mapInfo, mapAddr, vRandom)
      ensures r.None? ==> ip !in mapAddr && forall n :: n in mapInfo ==> mapInfo[n].address.ip != ip
      ensures r.Some? ==> ip in mapAddr && r.value == mapAddr[ip] && r.value in mapInfo && mapInfo[r.value].address.ip == ip
    {
      if ip in mapAddr {
        return Some(mapAddr[ip]);
      }
      return None;
    }

    /** Create: a new entry at the end of vRandom, in no bucket yet. */
    method Create(addr: Address, source: NetAddr) returns (nId: Id)
      requires Linked(None) && addr.ip !in mapAddr
      modifies this`nIdCount, this`mapInfo, this`mapAddr, this`vRandom
      ensures nId == old(nIdCount) && nId !in old(mapInfo) && nIdCount == nId + 1
      ensures mapInfo == old(mapInfo)[nId := Info(addr, source, 0, 0, 0, 0, false, |old(vRandom)|)]
      ensures IndexOk(mapInfo, mapAddr, vRandom) && TriedOk(hash, mapInfo, vvTried) && NewOk(mapInfo, vvNew, Some(nId))
      ensures CountsOk(mapInfo, vRandom, nTried, nNew + 1, nIdCount)
      ensures Holders(vvNew, nId) == {}
    {
      hide IndexOk, TriedOk, NewOk, TriedIds, NewIds;
      nId := nIdCount;
      assert nId !in mapInfo;
      ghost var i := Info(addr, source, 0, 0, 0, 0, false, |vRandom|);
      AppendNewcomer(mapInfo, mapAddr, vRandom, nId, i);
      NewcomerKeepsTables(hash, mapInfo, nId, i, vvTried, vvNew);
      nIdCount := nIdCount + 1;
      mapInfo := mapInfo[nId := Info(addr, source, 0, 0, 0, 0, false, |vRandom|)];
      mapAddr := mapAddr[addr.ip := nId];
      vRandom := vRandom + [nId];
    }

    /** Swap two places of vRandom. */
    method SwapRandom(nRndPos1: int, nRndPos2: int)
      requires IndexOk(mapInfo, mapAddr, vRandom) && 0 <= nRndPos1 < |vRandom| && 0 <= nRndPos2 < |vRandom|
      modifies this`mapInfo, this`vRandom
      ensures IndexOk(mapInfo, mapAddr, vRandom)
      ensures vRandom == old(vRandom)[nRndPos1 := old(vRandom)[nRndPos2]][nRndPos2 := old(vRandom)[nRndPos1]]
      ensures OnlyMoved(old(mapInfo), mapInfo)
    {
      if nRndPos1 == nRndPos2 {
        return;
      }
      PlacesSwapped(mapInfo, mapAddr, vRandom, nRndPos1, nRndPos2);
      hide IndexOk;
      var nId1, nId2 := vRandom[nRndPos1], vRandom[nRndPos2];
      mapInfo := mapInfo[nId1 := mapInfo[nId1].(randomPos := nRndPos2)][nId2 := mapInfo[nId2].(randomPos := nRndPos1)];
      vRandom := vRandom[nRndPos1 := nId2][nRndPos2 := nId1];
    }

    /** Erase an entry from every index. */
    method Erase(n: Id)
      requires IndexOk(mapInfo, mapAddr, vRandom) && n in mapInfo
      modifies this`mapInfo, this`mapAddr, this`vRandom
      ensures IndexOk(mapInfo, mapAddr, vRandom) && |vRandom| == old(|vRandom|) - 1
      ensures mapInfo.Keys == old(mapInfo.Keys) - {n} && OthersMoved(old(mapInfo), mapInfo, n)
    {
      SwapRandom(mapInfo[n].randomPos, |vRandom| - 1);
      DropLast(mapInfo, mapAddr, vRandom);
      hide IndexOk;
      vRandom := vRandom[..|vRandom| - 1];
      mapAddr := mapAddr - {mapInfo[n].address.ip};
      mapInfo := mapInfo - {n};
    }

    /** Lower the count of `n`, erasing it from every index when nothing is left. */
    method Unref(n: Id)
      requires IndexOk(mapInfo, mapAddr, vRandom) && n in mapInfo
      modifies this`mapInfo, this`mapAddr, this`vRandom, this`nNew
      ensures IndexOk(mapInfo, mapAddr, vRandom) && OthersMoved(old(mapInfo), mapInfo, n)
      ensures if old(mapInfo[n]).refCount == 1 then
                mapInfo.Keys == old(mapInfo.Keys) - {n} && |vRandom| == old(|vRandom|) - 1 && nNew == old(nNew) - 1
              else
                && mapInfo == old(mapInfo[n := mapInfo[n].(refCount := mapInfo[n].refCount - 1)])
                && vRandom == old(vRandom) && nNew == old(nNew)
    {
      var count := mapInfo[n].refCount - 1;
      if count == 0 {
        Erase(n);
        nNew := nNew - 1;
      } else {
        mapInfo := mapInfo[n := mapInfo[n].(refCount := count)];
      }
    }

    /** Take `n` out of a new bucket, and out of the manager when that was its last one. */
    method LeaveBucket(nUBucket: nat, n: Id, ghost ex: Option<Id>)
      requires Linked(ex) && nUBucket < |vvNew| && n in vvNew[nUBucket] && Some(n) != ex
      modifies this`mapInfo, this`mapAddr, this`vRandom, this`nNew, this`vvNew
      ensures Linked(ex)
      ensures vvNew == old(vvNew)[nUBucket := old(vvNew[nUBucket]) - {n}]
      ensures mapInfo.Keys == old(mapInfo.Keys) - (if old(mapInfo[n]).refCount == 1 then {n} else {})
      ensures OthersMoved(old(mapInfo), mapInfo, n)
      ensures old(mapInfo[n]).refCount > 1 ==> mapInfo[n] == old(mapInfo[n]).(refCount := old(mapInfo[n]).refCount - 1)
    {
      hide IndexOk, TriedOk, NewOk, TriedIds, NewIds;
      ghost var m := mapInfo;
      MembersAreNew(mapInfo, vvNew, ex, nUBucket, n);
      if m[n].refCount > 1 {
        OneHolderLess(hash, mapInfo, vvTried, vvNew, nUBucket, n, ex);
      }
      Unref(n);
      if m[n].refCount == 1 {
        ErasedTables(hash, m, mapInfo, vvTried, vvNew, nUBucket, n, ex);
      }
      vvNew := vvNew[nUBucket := vvNew[nUBucket] - {n}];
    }

    /** Make room in a new bucket, by ChooseVictim. The only place that forgets addresses. */
    method ShrinkNew(nUBucket: nat, now: int, n: seq<nat>, ghost ex: Option<Id>) returns (code: int, ghost victim: Id)
      requires Linked(ex) && nUBucket < |vvNew| && vvNew[nUBucket] != {}
      requires forall k :: k in vvNew[nUBucket] ==> Some(k) != ex
      requires |n| == 4 && forall k :: 0 <= k < 4 ==> n[k] < |vvNew[nUBucket]|
      modifies this`mapInfo, this`mapAddr, this`vRandom, this`nNew, this`vvNew
      ensures Linked(ex)
      ensures victim in old(vvNew[nUBucket]) && victim in old(mapInfo)
      ensures vvNew == old(vvNew)[nUBucket := old(vvNew[nUBucket]) - {victim}]
      ensures mapInfo.Keys == old(mapInfo.Keys) - (if old(mapInfo[victim]).refCount == 1 then {victim} else {})
      ensures OthersMoved(old(mapInfo), mapInfo, victim)
      ensures old(mapInfo[victim]).refCount > 1 ==>
                mapInfo[victim] == old(mapInfo[victim]).(refCount := old(mapInfo[victim]).refCount - 1)
      ensures RightVictim(old(vvNew[nUBucket]), old(mapInfo), now, n, victim)
    {
      hide RightVictim, DueToGo;
      var vNew := ListSet(vvNew[nUBucket]);
      assert vNew != [];
      forall i | 0 <= i < |vNew| ensures vNew[i] in vvNew[nUBucket] && vNew[i] in mapInfo {
        assert vNew[i] in vNew;
      }
      var nOldest;
      nOldest, code := ChooseVictim(vNew, mapInfo, now, n);
      victim := nOldest;
      VictimIsRight(vNew, vvNew[nUBucket], mapInfo, now, n, victim, code);
      LeaveBucket(nUBucket, nOldest, ex);
    }

    /** What SelectTried does to the tried table, and where it points. */
    method SelectTried(nKBucket: nat, draws: seq<nat>) returns (nOldestPos: int)
      requires TriedOk(hash, mapInfo, vvTried) && nKBucket < |vvTried| && DrawsOk(draws, |vvTried[nKBucket]|)
      modifies this`vvTried
      ensures TriedOk(hash, mapInfo, vvTried)
      ensures var was := old(vvTried[nKBucket]);
              && vvTried == old(vvTried)[nKBucket := AfterDraws(was, draws, Inspected(|was|))]
              && Distinct(vvTried[nKBucket]) && (forall x :: x in vvTried[nKBucket] <==> x in was)
              && multiset(vvTried[nKBucket]) == multiset(was)
      ensures if vvTried[nKBucket] == [] then nOldestPos == -1 else 0 <= nOldestPos < |vvTried[nKBucket]|
      ensures vvTried[nKBucket] != [] ==> RightEvictee(mapInfo, old(vvTried[nKBucket]), draws, Some(vvTried[nKBucket][nOldestPos]))
    {
      TriedShape(hash, mapInfo, vvTried, nKBucket);
      assert BucketOk(hash, mapInfo, vvTried[nKBucket], nKBucket);
      hide TriedOk, BucketOk, DrawsOk, AfterDraws, LeastRecent;
      var vTried;
      vTried, nOldestPos := PickTried(vvTried[nKBucket], mapInfo, draws);
      ShuffleKeepsTried(hash, mapInfo, vvTried, nKBucket, vTried);
      vvTried := vvTried[nKBucket := vTried];
    }

    /** MakeTried when the tried bucket has place. */
    method PushTried(nId: Id, info: Info, vv: seq<set<Id>>, nKBucket: nat)
      requires Linked(None) && nId in mapInfo && !mapInfo[nId].inTried
      requires info == mapInfo[nId].(refCount := 0) && vv == Without(vvNew, nId)
      requires nKBucket == TriedBucket(hash, info.address) && |vvTried[nKBucket]| < TRIED_BUCKET_SIZE
      modifies this`mapInfo, this`vvTried, this`vvNew, this`nTried, this`nNew
      ensures Linked(None)
      ensures vvTried == old(vvTried)[nKBucket := old(vvTried[nKBucket]) + [nId]] && vvNew == vv
      ensures mapInfo == old(mapInfo)[nId := Promoted(old(mapInfo[nId]))]
      ensures Exchanged(old(vvTried[nKBucket]), vvTried[nKBucket], None, nId)
    {
      hide TriedOk, NewOk, TriedIds, NewIds, IndexOk, Exchanged;
      ghost var m := mapInfo;
      TriedShape(hash, m, vvTried, nKBucket);
      PushKeeps(hash, m, vvTried, nKBucket, nId);
      PromotionKeepsTables(hash, m, vvTried, vvNew, nId, vvTried[nKBucket] + [nId]);
      MovedKeepsIndex(m, m[nId := Promoted(m[nId])], mapAddr, vRandom);
      vvNew := vv;
      nNew := nNew - 1;
      vvTried := vvTried[nKBucket := vvTried[nKBucket] + [nId]];
      nTried := nTried + 1;
      mapInfo := mapInfo[nId := info.(inTried := true)];
    }

    /** MakeTried when the tried bucket is full: overwrite place nPos of it. */
    method ReplaceTried(nId: Id, info: Info, vv: seq<set<Id>>, nOrigin: nat, nKBucket: nat, nPos: nat)
      returns (ghost e: Id)
      requires Linked(None) && nOrigin < |vvNew| == NEW_BUCKET_COUNT && nId in vvNew[nOrigin]
      requires nId in mapInfo && |vvTried| == TRIED_BUCKET_COUNT
      requires info == mapInfo[nId].(refCount := 0) && vv == Without(vvNew, nId)
      requires nKBucket == TriedBucket(hash, info.address) && nPos < |vvTried[nKBucket]|
      modifies this`mapInfo, this`vvTried, this`vvNew, this`nTried, this`nNew
      ensures Linked(None)
      ensures e == old(vvTried[nKBucket][nPos]) && e in old(mapInfo) && e != nId
      ensures vvTried == old(vvTried)[nKBucket := old(vvTried[nKBucket])[nPos := nId]]
      ensures Exchanged(old(vvTried[nKBucket]), vvTried[nKBucket], Some(e), nId)
      ensures mapInfo == Swapped(old(mapInfo), nId, e)
      ensures var b := Refuge(hash, old(mapInfo[e]), vv, nOrigin); vvNew == vv[b := vv[b] + {e}]
    {
      hide TriedOk, NewOk, TriedIds, NewIds, IndexOk, Exchanged;
      var nOld := vvTried[nKBucket][nPos];
      e := nOld;
      ReplaceKeepsTables(hash, mapInfo, vvTried, vvNew, nId, nOrigin, nPos);
      SwapKeepsIndex(mapInfo, nId, nOld, mapAddr, vRandom);
      vvNew := vv;
      nNew := nNew - 1;
      var nUBucket := NewBucket(hash, mapInfo[nOld].address, mapInfo[nOld].source);
      var infoOld := mapInfo[nOld].(inTried := false, refCount := 1);
      if |vvNew[nUBucket]| < NEW_BUCKET_SIZE {
        vvNew := vvNew[nUBucket := vvNew[nUBucket] + {nOld}];
      } else {
        vvNew := vvNew[nOrigin := vvNew[nOrigin] + {nOld}];
      }
      nNew := nNew + 1;
      vvTried := vvTried[nKBucket := vvTried[nKBucket][nPos := nId]];
      mapInfo := mapInfo[nId := info.(inTried := true)][nOld := infoOld];
    }

    /** Move a new entry that has just succeeded into its tried bucket. A full bucket gives up one entry, which
        returns to its own new bucket, or to the place just left when that is full. Only then are places drawn. */
    method MakeTried(nId: Id, nOrigin: nat, draws: seq<nat>) returns (ghost evicted: Option<Id>)
      requires Linked(None) && nOrigin < |vvNew| && nId in vvNew[nOrigin]
      requires DrawsOk(draws, TRIED_BUCKET_SIZE)
      modifies this`mapInfo, this`vvTried, this`vvNew, this`nTried, this`nNew
      ensures Linked(None)
      ensures TriedAfter(hash, old(mapInfo), old(vvTried), vvTried, nId, evicted)
      ensures RightEvictee(old(mapInfo), old(vvTried[TriedBucket(hash, mapInfo[nId].address)]), draws, evicted)
      ensures EntriesAfter(old(mapInfo), mapInfo, nId, evicted)
      ensures NewAfter(hash, old(mapInfo), old(vvNew), vvNew, nId, nOrigin, evicted) && evicted != Some(nId)
      ensures var k := TriedBucket(hash, old(mapInfo[nId]).address);
              |vvTried[k]| == if evicted.Some? then |old(vvTried)[k]| else |old(vvTried)[k]| + 1
    {
      hide TriedOk, NewOk, IndexOk, CountsOk, TriedIds, NewIds, DrawsOk, Distinct, Picked, AfterDraws, Without, Refuge;
      MembersAreNew(mapInfo, vvNew, None, nOrigin, nId);
      var nKBucket := TriedBucket(hash, mapInfo[nId].address);
      TriedShape(hash, mapInfo, vvTried, nKBucket);
      var vv, info := EraseReferences(vvNew, nId, mapInfo[nId]);
      assert info.refCount == 0 && !info.inTried;
      if |vvTried[nKBucket]| < TRIED_BUCKET_SIZE {
        evicted := None;
        PushTried(nId, info, vv, nKBucket);
        return;
      }
      var nPos := SelectTried(nKBucket, draws);
      ghost var e := ReplaceTried(nId, info, vv, nOrigin, nKBucket, nPos);
      evicted := Some(e);
    }

    /** Shrink a new bucket that is full. */
    method MakeRoom(nUBucket: nat, now: int, n: seq<nat>, ghost ex: Id) returns (ghost victim: Option<Id>)
      requires Linked(Some(ex)) && nUBucket < |vvNew| && ex !in vvNew[nUBucket]
      requires |n| == 4 && forall k :: 0 <= k < 4 ==> n[k] < NEW_BUCKET_SIZE
      modifies this`mapInfo, this`mapAddr, this`vRandom, this`nNew, this`vvNew
      ensures Linked(Some(ex)) && nUBucket < |vvNew| && |vvNew[nUBucket]| < NEW_BUCKET_SIZE
      ensures victim.Some? <==> |old(vvNew[nUBucket])| == NEW_BUCKET_SIZE
      ensures Shrunk(old(mapInfo), mapInfo, old(vvNew), vvNew, nUBucket, victim)
      ensures victim.Some? ==> RightVictim(old(vvNew[nUBucket]), old(mapInfo), now, n, victim.value)
    {
      hide RightVictim;
      victim := None;
      if |vvNew[nUBucket]| == NEW_BUCKET_SIZE {
        assert vvNew[nUBucket] != {};
        var code;
        ghost var gone;
        code, gone := ShrinkNew(nUBucket, now, n, Some(ex));
        victim := Some(gone);
      }
    }

    /** Put an entry into a new bucket, unless it is there, making room first if need be. */
    method JoinBucket(nId: Id, nUBucket: nat, now: int, n: seq<nat>) returns (ghost victim: Option<Id>)
      requires Linked(Some(nId)) && nUBucket < |vvNew| && (nId in vvNew[nUBucket] ==> Linked(None))
      requires nId in mapInfo && !mapInfo[nId].inTried
      requires mapInfo[nId].refCount == |Holders(vvNew, nId)| < NEW_BUCKETS_PER_ADDRESS
      requires |n| == 4 && forall k :: 0 <= k < 4 ==> n[k] < NEW_BUCKET_SIZE
      modifies this`mapInfo, this`mapAddr, this`vRandom, this`nNew, this`vvNew
      ensures Linked(None) && (old(TimesOk(mapInfo)) ==> TimesOk(mapInfo))
      ensures nId in old(vvNew[nUBucket]) ==>
                && victim == None && mapInfo == old(mapInfo) && mapAddr == old(mapAddr) && vRandom == old(vRandom)
                && nNew == old(nNew) && vvNew == old(vvNew)
      ensures nId !in old(vvNew[nUBucket]) ==>
                && (victim.Some? <==> |old(vvNew[nUBucket])| == NEW_BUCKET_SIZE)
                && Joined(old(mapInfo), mapInfo, old(vvNew), vvNew, nId, nUBucket, victim)
                && (victim.Some? ==> RightVictim(old(vvNew[nUBucket]), old(mapInfo), now, n, victim.value))
    {
      hide RightVictim;
      hide TriedOk, NewOk, TriedIds, NewIds, IndexOk, TimesOk, Shrunk, Joined, Holders;
      victim := None;
      if nId in vvNew[nUBucket] {
        return;
      }
      ghost var m0, vv0 := mapInfo, vvNew;
      CountInTransit(hash, mapInfo, vvTried, vvNew, nId, mapInfo[nId].refCount + 1);
      KeepsIndex(mapInfo, nId, mapInfo[nId].refCount + 1, mapAddr, vRandom);
      mapInfo := mapInfo[nId := mapInfo[nId].(refCount := mapInfo[nId].refCount + 1)];
      ghost var m1 := mapInfo;
      victim := MakeRoom(nUBucket, now, n, nId);
      if victim.Some? {
        assert forall x :: x in vv0[nUBucket] && x in m1 ==> x in m0 && m0[x] == m1[x];
        VictimStays(vv0[nUBucket], m1, m0, now, n, victim.value);
      }
      ShrunkThenJoined(m0, mapInfo, vv0, vvNew, nId, nUBucket, victim);
      if TimesOk(m0) { JoinedTimes(m0, mapInfo, vv0, vvNew[nUBucket := vvNew[nUBucket] + {nId}], nId, nUBucket, victim); }
      HolderJoins(hash, mapInfo, vvTried, vvNew, nUBucket, nId);
      vvNew := vvNew[nUBucket := vvNew[nUBucket] + {nId}];
    }

    /** A connection to this very address and port has succeeded. Places are drawn only from a full bucket. */
    method Good_(addr: NetAddr, port: nat, nTime: int, nRnd: nat, draws: seq<nat>)
      returns (ghost nOrigin: nat, ghost evicted: Option<Id>)
      requires Valid() && DrawsOk(draws, TRIED_BUCKET_SIZE)
      modifies this`mapInfo, this`vvTried, this`vvNew, this`nTried, this`nNew
      ensures Linked(None) && (Valid() <==> !old(Knows(addr, port)) || nTime > 0)
      ensures !old(Knows(addr, port)) ==>
                && mapInfo == old(mapInfo) && vvTried == old(vvTried) && vvNew == old(vvNew)
                && nTried == old(nTried) && nNew == old(nNew)
      ensures old(Knows(addr, port)) ==>
                var n := mapAddr[addr];
                var m := old(mapInfo)[n := Succeeded(old(mapInfo[n]), nTime)];
                if m[n].inTried then
                  && mapInfo == m && vvTried == old(vvTried) && vvNew == old(vvNew)
                  && nTried == old(nTried) && nNew == old(nNew)
                else
                  && nOrigin < NEW_BUCKET_COUNT && n in old(vvNew[nOrigin])
                  && TriedAfter(hash, m, old(vvTried), vvTried, n, evicted)
                  && RightEvictee(m, old(vvTried)[TriedBucket(hash, m[n].address)], draws, evicted)
                  && EntriesAfter(m, mapInfo, n, evicted)
                  && NewAfter(hash, m, old(vvNew), vvNew, n, nOrigin, evicted)
      ensures old(Knows(addr, port)) ==> Thrived(old(mapInfo), mapInfo, mapAddr[addr], nTime)
      ensures old(Knows(addr, port)) && !old(mapInfo[mapAddr[addr]].inTried) ==>
                Settled(hash, old(mapInfo), mapInfo, old(vvTried), vvTried, old(vvNew), vvNew, mapAddr[addr], draws, nOrigin, evicted)
    {
      hide IndexOk, TriedOk, NewOk, CountsOk, TimesOk, Holders, RightEvictee, NewAfter, EntriesAfter, DrawsOk, Exchanged;
      nOrigin, evicted := 0, None;
      var found := Find(addr);
      if found.None? || mapInfo[found.value].address.port != port {
        return;
      }
      var nId := found.value;
      UpdateKeeps(nId, Succeeded(mapInfo[nId], nTime));
      mapInfo := mapInfo[nId := Succeeded(mapInfo[nId], nTime)];
      ghost var m := mapInfo;
      if mapInfo[nId].inTried {
        SuccessTimes(old(mapInfo), m, m, nId, None, nTime);
        return;
      }
      NotTriedIsHeld(mapInfo, vvNew, nId);
      var nUBucket := FindBucket(vvNew, nId, nRnd);
      if nUBucket == -1 {
        assert false;
        return;
      }
      nOrigin := nUBucket;
      TriedShape(hash, mapInfo, vvTried, TriedBucket(hash, mapInfo[nId].address));
      evicted := MakeTried(nId, nUBucket, draws);
      SuccessTimes(old(mapInfo), m, mapInfo, nId, evicted, nTime);
      PromotionSettles(hash, old(mapInfo), m, mapInfo, old(vvTried), vvTried, old(vvNew), vvNew, nId, nTime, draws, nOrigin, evicted);
    }

    /** A connection just up makes all times good or not. */
    lemma SuccessTimes(m0: InfoMap, m: InfoMap, m': InfoMap, n: Id, e: Option<Id>, nTime: int)
      requires TimesOk(m0) && n in m0 && m == m0[n := Succeeded(m0[n], nTime)] && (e.Some? ==> e.value in m && e.value != n)
      requires (m' == m && m[n].inTried) || EntriesAfter(m, m', n, e)
      ensures TimesOk(m') <==> nTime > 0
    {
      assert n in m' && m'[n].lastSuccess == nTime && m'[n].inTried;
    }

    lemma PromotionSettles(h: Hashes, m0: InfoMap, m: InfoMap, m': InfoMap, tried: seq<seq<Id>>, tried': seq<seq<Id>>,
                           vv: seq<set<Id>>, vv': seq<set<Id>>, n: Id, nTime: int, draws: seq<nat>, nOrigin: nat, e: Option<Id>)
      requires n in m0 && !m0[n].inTried && m == m0[n := Succeeded(m0[n], nTime)] && DrawsOk(draws, 64)
      requires |tried| == TRIED_BUCKET_COUNT && |tried'| == TRIED_BUCKET_COUNT && |vv| == NEW_BUCKET_COUNT && nOrigin < |vv|
      requires TriedAfter(h, m, tried, tried', n, e) && EntriesAfter(m, m', n, e) && NewAfter(h, m, vv, vv', n, nOrigin, e)
      requires e != Some(n) && |tried[TriedBucket(h, m[n].address)]| <= TRIED_BUCKET_SIZE
      requires RightEvictee(m, tried[TriedBucket(h, m[n].address)], draws, e)
      requires e.None? ==> |tried'[TriedBucket(h, m[n].address)]| == |tried[TriedBucket(h, m[n].address)]| + 1
      requires e.Some? ==> |tried'[TriedBucket(h, m[n].address)]| == |tried[TriedBucket(h, m[n].address)]|
      ensures Settled(h, m0, m', tried, tried', vv, vv', n, draws, nOrigin, e) && Thrived(m0, m', n, nTime)
    {
      if e.Some? {
        EvicteeGivesUp(m, m', tried[TriedBucket(h, m[n].address)], draws, e.value);
      }
      hide GivesUp, RightEvictee;
    }

    lemma EvicteeGivesUp(m: InfoMap, m': InfoMap, s: seq<Id>, d: seq<nat>, e: Id)
      requires RightEvictee(m, s, d, Some(e)) && |s| == 64 && DrawsOk(d, 64)
      requires forall x :: x in m ==> x in m' && m'[x].lastSuccess == m[x].lastSuccess
      ensures GivesUp(m', s, d, e)
    {
      FourDraws(s, d);
      var r := FourDrawn(s, d);
      var f := LeastRecent(m, r, 4);
      FirstLeast(m, r, 4);
      hide AfterDraws, LeastRecent, FourDrawn, DrawsOk;
      StillEarliest(m, m', r, f);
    }

    lemma FourDraws(s: seq<Id>, d: seq<nat>)
      requires |s| == 64 && DrawsOk(d, 64)
      ensures AfterDraws(s, d, Inspected(64)) == FourDrawn(s, d)
    {
      DrawsStart(s, d);
      forall i | 0 <= i < 4 { DrawsStep(s, d, i); }
      hide AfterDraws;
    }

    lemma StillEarliest(m: InfoMap, m': InfoMap, r: seq<Id>, f: int)
      requires |r| == 64 && 0 <= f < 4 && EarliestOfFour(m, r, f)
      requires forall x :: x in m ==> x in m' && m'[x].lastSuccess == m[x].lastSuccess
      ensures EarliestOfFour(m', r, f)
    {
      forall k | 0 <= k < 4 ensures r[k] in m' && m'[r[k]].lastSuccess == m[r[k]].lastSuccess {
        var x := r[k];
        assert x in m;
      }
    }

    lemma {:induction false} FirstLeast(m: InfoMap, s: seq<Id>, k: nat)
      requires 0 < k <= |s| && forall i :: 0 <= i < k ==> s[i] in m
      ensures forall i :: 0 <= i < LeastRecent(m, s, k) ==> m[s[LeastRecent(m, s, k)]].lastSuccess < m[s[i]].lastSuccess
    {
      if k > 1 { FirstLeast(m, s, k - 1); }
    }

    /** The address is known, with this port. */
    ghost predicate Knows(addr: NetAddr, port: nat)
      reads this`mapAddr, this`mapInfo
    {
      addr in mapAddr && mapAddr[addr] in mapInfo && mapInfo[mapAddr[addr]].address.port == port
    }

    /** Updating the statistics of an entry. */
    lemma UpdateKeeps(n: Id, i: Info)
      requires Linked(None) && n in mapInfo && SameStanding(mapInfo[n], i) && i.randomPos == mapInfo[n].randomPos
      ensures var m := mapInfo[n := i];
              && IndexOk(m, mapAddr, vRandom) && TriedOk(hash, m, vvTried) && NewOk(m, vvNew, None)
              && CountsOk(m, vRandom, nTried, nNew, nIdCount)
    {
      MovedKeepsIndex(mapInfo, mapInfo[n := i], mapAddr, vRandom);
      StandingKeepsTables(hash, mapInfo, mapInfo[n := i], vvTried, vvNew, None);
    }

    /** A connection is about to be tried. */
    method Attempt_(addr: NetAddr, port: nat, nTime: int)
      requires Valid()
      modifies this`mapInfo
      ensures Valid() <==> !old(Knows(addr, port)) || nTime >= 0
      ensures !old(Knows(addr, port)) ==> mapInfo == old(mapInfo)
      ensures old(Knows(addr, port)) ==>
                var i := old(mapInfo[mapAddr[addr]]);
                mapInfo == old(mapInfo)[mapAddr[addr] := i.(lastTry := nTime, attempts := i.attempts + 1)]
    {
      hide IndexOk, TriedOk, NewOk, CountsOk, TimesOk;
      var found := Find(addr);
      if found.None? || mapInfo[found.value].address.port != port {
        return;
      }
      var info := mapInfo[found.value];
      info := info.(lastTry := nTime);
      info := info.(attempts := info.attempts + 1);
      UpdateKeeps(found.value, info);
      UpdateTimes(mapInfo, found.value, info);
      mapInfo := mapInfo[found.value := info];
    }

    /** A connection is still up. */
    method Connected_(addr: NetAddr, port: nat, nTime: int)
      requires Valid()
      modifies this`mapInfo
      ensures Valid()
      ensures !old(Knows(addr, port)) || nTime - old(mapInfo[mapAddr[addr]]).address.time <= 20 * 60 ==> mapInfo == old(mapInfo)
      ensures old(Knows(addr, port)) && nTime - old(mapInfo[mapAddr[addr]]).address.time > 20 * 60 ==>
                var i := old(mapInfo[mapAddr[addr]]);
                mapInfo == old(mapInfo)[mapAddr[addr] := i.(address := i.address.(time := nTime))]
    {
      hide IndexOk, TriedOk, NewOk, CountsOk, TimesOk;
      var found := Find(addr);
      if found.None? || mapInfo[found.value].address.port != port {
        return;
      }
      var info := mapInfo[found.value];
      if nTime - info.address.time > 20 * 60 {
        info := info.(address := info.address.(time := nTime));
        UpdateKeeps(found.value, info);
        UpdateTimes(mapInfo, found.value, info);
        mapInfo := mapInfo[found.value := info];
      }
    }

    /** Hear of an address from a source. Tells whether it was unknown so far. */
    method Add_(addr: Address, source: NetAddr, nTimePenalty: nat, now: int, coin: nat, n: seq<nat>)
      returns (fNew: bool, ghost victim: Option<Id>)
      requires Valid() && |n| == 4 && forall k :: 0 <= k < 4 ==> n[k] < NEW_BUCKET_SIZE
      modifies this`nIdCount, this`mapInfo, this`mapAddr, this`vRandom, this`nNew, this`vvNew
      ensures Valid()
      ensures fNew <==> addr.routable && addr.ip !in old(mapAddr)
      ensures nIdCount == if fNew then old(nIdCount) + 1 else old(nIdCount)
      ensures !addr.routable ==> mapInfo == old(mapInfo) && vRandom == old(vRandom) && vvNew == old(vvNew)
      ensures addr.routable && addr.ip !in old(mapAddr) ==>
                var id, b := old(nIdCount), NewBucket(hash, addr, source);
                var m := old(mapInfo)[id := Newcomer(addr, source, nTimePenalty, old(|vRandom|))];
                && (victim.Some? <==> |old(vvNew[b])| == NEW_BUCKET_SIZE)
                && Joined(m, mapInfo, old(vvNew), vvNew, id, b, victim)
                && (victim.Some? ==> RightVictim(old(vvNew[b]), m, now, n, victim.value))
      ensures addr.routable && addr.ip in old(mapAddr) ==>
                var id := old(mapAddr)[addr.ip];
                var i := Refreshed(old(mapInfo[id]), addr, nTimePenalty, now);
                var m, b := old(mapInfo)[id := i], NewBucket(hash, i.address, source);
                if Ignored(i, addr, coin) || id in old(vvNew[b]) then
                  mapInfo == m && vRandom == old(vRandom) && vvNew == old(vvNew)
                else
                  && (victim.Some? <==> |old(vvNew[b])| == NEW_BUCKET_SIZE)
                  && Joined(m, mapInfo, old(vvNew), vvNew, id, b, victim)
                  && (victim.Some? ==> RightVictim(old(vvNew[b]), m, now, n, victim.value))
      ensures addr.routable && addr.ip !in old(mapAddr) ==>
                var id, b := old(nIdCount), hash.newHash(addr.ip, source) % 256;
                && Introduced(mapInfo, id, addr, source, nTimePenalty) && b < |vvNew| && id in vvNew[b]
                && (victim.Some? <==> |old(vvNew)[b]| == 64)
      ensures addr.routable && addr.ip in old(mapAddr) ==>
                var id, b := old(mapAddr)[addr.ip], hash.newHash(addr.ip, source) % 256;
                && id in mapInfo && b < |old(vvNew)|
                && Renewed(old(mapInfo[id]), mapInfo[id], addr, nTimePenalty, now)
                && (mapInfo[id].refCount - old(mapInfo[id]).refCount
                    == if Spreads(mapInfo[id].address.time, old(mapInfo[id]), addr, coin) && id !in old(vvNew)[b] then 1 else 0)
    {
      fNew, victim := false, None;
      if addr.routable {
        fNew, victim := Hear(addr, source, nTimePenalty, now, coin, n);
      }
    }

    /** Add_ on a routable address. */
    method Hear(addr: Address, source: NetAddr, nTimePenalty: nat, now: int, coin: nat, n: seq<nat>)
      returns (fNew: bool, ghost victim: Option<Id>)
      requires Valid() && addr.routable && |n| == 4 && forall k :: 0 <= k < 4 ==> n[k] < NEW_BUCKET_SIZE
      modifies this`nIdCount, this`mapInfo, this`mapAddr, this`vRandom, this`nNew, this`vvNew
      ensures Valid()
      ensures fNew <==> addr.ip !in old(mapAddr)
      ensures nIdCount == if fNew then old(nIdCount) + 1 else old(nIdCount)
      ensures fNew ==>
                var id, b := old(nIdCount), NewBucket(hash, addr, source);
                var m := old(mapInfo)[id := Newcomer(addr, source, nTimePenalty, old(|vRandom|))];
                && (victim.Some? <==> |old(vvNew[b])| == NEW_BUCKET_SIZE)
                && Joined(m, mapInfo, old(vvNew), vvNew, id, b, victim)
                && (victim.Some? ==> RightVictim(old(vvNew[b]), m, now, n, victim.value))
      ensures !fNew ==>
                var id := old(mapAddr)[addr.ip];
                var i := Refreshed(old(mapInfo[id]), addr, nTimePenalty, now);
                var m, b := old(mapInfo)[id := i], NewBucket(hash, i.address, source);
                if Ignored(i, addr, coin) || id in old(vvNew[b]) then
                  mapInfo == m && vRandom == old(vRandom) && vvNew == old(vvNew)
                else
                  && (victim.Some? <==> |old(vvNew[b])| == NEW_BUCKET_SIZE)
                  && Joined(m, mapInfo, old(vvNew), vvNew, id, b, victim)
                  && (victim.Some? ==> RightVictim(old(vvNew[b]), m, now, n, victim.value))
    {
      fNew, victim := false, None;
      var found := Find(addr.ip);
      hide TriedOk, NewOk, TriedIds, NewIds, IndexOk, TimesOk, Joined, Ignored, Refreshed, Newcomer, RightVictim;
      var nId;
      if found.Some? {
        nId := found.value;
        var more := HearAgain(nId, addr, nTimePenalty, now, coin);
        if !more {
          return;
        }
      } else {
        nId := HearNew(addr, source, nTimePenalty);
        fNew := true;
      }
      var nUBucket := NewBucket(hash, mapInfo[nId].address, source);
      victim := JoinBucket(nId, nUBucket, now, n);
    }

    /** Add_ on a known address, up to whether it may join one more new bucket. */
    method HearAgain(nId: Id, addr: Address, nTimePenalty: nat, now: int, coin: nat) returns (more: bool)
      requires Linked(None) && nId in mapInfo
      modifies this`mapInfo
      ensures Linked(None) && (old(TimesOk(mapInfo)) ==> TimesOk(mapInfo))
      ensures mapInfo == old(mapInfo)[nId := Refreshed(old(mapInfo[nId]), addr, nTimePenalty, now)]
      ensures more <==> !Ignored(mapInfo[nId], addr, coin)
      ensures more ==> !mapInfo[nId].inTried && Linked(Some(nId)) && |vvNew| == NEW_BUCKET_COUNT
                       && mapInfo[nId].refCount == |Holders(vvNew, nId)| < NEW_BUCKETS_PER_ADDRESS
      ensures mapInfo[nId].address.ip == old(mapInfo[nId]).address.ip
    {
      RefreshedStanding(mapInfo[nId], addr, nTimePenalty, now);
      hide Refreshed, Ignored, IndexOk, TriedOk, TimesOk, TriedIds, NewIds, Holders;
      var info := RefreshEntry(mapInfo[nId], addr, nTimePenalty, now);
      UpdateKeeps(nId, info);
      if TimesOk(mapInfo) { UpdateTimes(mapInfo, nId, info); }
      mapInfo := mapInfo[nId := info];
      more := Willing(info, addr, coin);
    }

    /** Add_ on an unknown address, up to its first new bucket. */
    method HearNew(addr: Address, source: NetAddr, nTimePenalty: nat) returns (nId: Id)
      requires Linked(None) && addr.ip !in mapAddr
      modifies this`nIdCount, this`mapInfo, this`mapAddr, this`vRandom, this`nNew
      ensures nId == old(nIdCount) && nId !in old(mapInfo) && nIdCount == nId + 1
      ensures Linked(Some(nId)) && (old(TimesOk(mapInfo)) ==> TimesOk(mapInfo))
      ensures mapInfo == old(mapInfo)[nId := Newcomer(addr, source, nTimePenalty, old(|vRandom|))]
      ensures Holders(vvNew, nId) == {} && |vvNew| == NEW_BUCKET_COUNT
      ensures forall b :: 0 <= b < |vvNew| ==> nId !in vvNew[b]
    {
      hide TriedOk, NewOk, IndexOk, TimesOk, CountsOk, Holders;
      nId := Create(addr, source);
      var info := mapInfo[nId];
      info := info.(address := info.address.(time := Max(0, info.address.time - nTimePenalty)));
      TimeKeeps(nId, info);
      NewShape(mapInfo, vvNew, Some(nId));
      mapInfo := mapInfo[nId := info];
      assert mapInfo == old(mapInfo)[nId := info];
      if old(TimesOk(mapInfo)) { UpdateTimes(old(mapInfo), nId, info); }
      nNew := nNew + 1;
      NoHolders(vvNew, nId);
    }

    /** Setting the time of an entry in transit. */
    lemma TimeKeeps(n: Id, i: Info)
      requires IndexOk(mapInfo, mapAddr, vRandom) && TriedOk(hash, mapInfo, vvTried) && NewOk(mapInfo, vvNew, Some(n))
      requires CountsOk(mapInfo, vRandom, nTried, nNew + 1, nIdCount)
      requires n in mapInfo && i == mapInfo[n].(address := mapInfo[n].address.(time := i.address.time))
      ensures var m := mapInfo[n := i];
              && IndexOk(m, mapAddr, vRandom) && TriedOk(hash, m, vvTried) && NewOk(m, vvNew, Some(n))
              && CountsOk(m, vRandom, nTried, nNew + 1, nIdCount)
    {
      MovedKeepsIndex(mapInfo, mapInfo[n := i], mapAddr, vRandom);
      StandingKeepsTables(hash, mapInfo, mapInfo[n := i], vvTried, vvNew, Some(n));
    }

    /** A random sample of the known addresses, each at most once. */
    method GetAddr_(draws: seq<nat>) returns (vAddr: seq<Address>)
      requires Valid()
      requires |draws| >= |vRandom| && forall k :: 0 <= k < |vRandom| ==> draws[k] < |vRandom| - k
      modifies this`mapInfo, this`vRandom
      ensures Valid() && OnlyMoved(old(mapInfo), mapInfo) && multiset(vRandom) == multiset(old(vRandom))
      ensures |vAddr| == SampleSize(|vRandom|) <= |vRandom|
      ensures 100 * |vAddr| <= 23 * |vRandom| && |vAddr| <= 2500 && (23 * |vRandom| < 100 * (|vAddr| + 1) || |vAddr| == 2500)
      ensures forall k :: 0 <= k < |vAddr| ==> vRandom[k] in mapInfo && vAddr[k] == mapInfo[vRandom[k]].address
      ensures forall j, k :: 0 <= j < k < |vAddr| ==> vAddr[j].ip != vAddr[k].ip
    {
      hide TriedOk, NewOk, TriedIds, NewIds;
      var nNodes := 23 * |vRandom| / 100;
      if nNodes > 2500 {
        nNodes := 2500;
      }
      vAddr := [];
      var k := 0;
      while k < nNodes
        invariant 0 <= k == |vAddr| <= nNodes
        invariant Linked(None) && OnlyMoved(old(mapInfo), mapInfo) && multiset(vRandom) == multiset(old(vRandom))
        invariant |vRandom| == old(|vRandom|)
        invariant forall j :: 0 <= j < k ==> vRandom[j] in mapInfo && vAddr[j] == mapInfo[vRandom[j]].address
        invariant mapAddr == old(mapAddr)
      {
        var nRndPos := draws[k] + k;
        ghost var r := vRandom;
        MoveOne(k, nRndPos);
        assert forall j :: 0 <= j < k ==> vRandom[j] == r[j];
        vAddr := vAddr + [mapInfo[vRandom[k]].address];
        k := k + 1;
      }
      forall i, j | 0 <= i < j < |vAddr| ensures vAddr[i].ip != vAddr[j].ip {
        DistinctIps(mapInfo, mapAddr, vRandom, i, j);
      }
    }

    /** SwapRandom on a consistent manager. */
    method MoveOne(nRndPos1: int, nRndPos2: int)
      requires Linked(None) && 0 <= nRndPos1 < |vRandom| && 0 <= nRndPos2 < |vRandom|
      modifies this`mapInfo, this`vRandom
      ensures Linked(None) && OnlyMoved(old(mapInfo), mapInfo)
      ensures vRandom == old(vRandom)[nRndPos1 := old(vRandom)[nRndPos2]][nRndPos2 := old(vRandom)[nRndPos1]]
      ensures multiset(vRandom) == multiset(old(vRandom))
    {
      ghost var m := mapInfo;
      SwapRandom(nRndPos1, nRndPos2);
      StandingKeepsTables(hash, m, mapInfo, vvTried, vvNew, None);
    }

    /** Write the tables out, with the key. */
    method Serialize() returns (s: Saved, key: Hashes, ghost newIds: seq<Id>, ghost triedIds: seq<Id>)
      requires Valid()
      ensures FileOf(s, mapInfo, vvNew, newIds, triedIds) && key == hash
    {
      var unk;
      var newInfos, triedInfos;
      NewHaveReferences(hash, mapInfo, vvTried, vvNew);
      newInfos, unk, newIds := WriteNew(mapInfo, nNew);
      triedInfos, triedIds := WriteTried(mapInfo, nTried);
      var buckets := WriteBuckets(vvNew, unk, newIds);
      OriginNumbers(mapInfo, newIds, triedIds);
      s := Saved(nNew, nTried, newInfos, triedInfos, buckets);
      key := hash;
    }

    /** Read back what Serialize wrote of a consistent manager, here given by its tables. The result is
        consistent and holds the same book. */
    method Unserialize(s: Saved, key: Hashes, ghost m: InfoMap, ghost addrs: map<NetAddr, Id>, ghost random: seq<Id>,
                       ghost tried: seq<seq<Id>>, ghost orig: seq<set<Id>>, ghost newIds: seq<Id>, ghost triedIds: seq<Id>)
      requires IndexOk(m, addrs, random) && TriedOk(key, m, tried) && NewOk(m, orig, None)
      requires FileOf(s, m, orig, newIds, triedIds)
      modifies this
      ensures Linked(None) && (TimesOk(m) ==> Valid()) && hash == key
      ensures SameBook(m, tried, orig, mapInfo, vvTried, vvNew, newIds + triedIds)
    {
      hide IndexOk, TriedOk, NewOk, SameBook, FileOf, TriedIds, NewIds;
      hash, nNew, nTried := key, s.nNew, s.nTried;
      var nLost;
      mapInfo, mapAddr, vRandom, vvTried, nIdCount, nLost, vvNew :=
        ReadAll(s, key, m, addrs, random, tried, orig, newIds, triedIds);
      nTried := nTried - nLost;
      if TimesOk(m) { BookTimes(m, tried, orig, mapInfo, vvTried, vvNew, newIds + triedIds); }
    }
  }

  lemma BookTimes(m: InfoMap, tried: seq<seq<Id>>, orig: seq<set<Id>>, m': InfoMap, tried': seq<seq<Id>>, vv: seq<set<Id>>,
                  origin: seq<Id>)
    requires SameBook(m, tried, orig, m', tried', vv, origin) && TimesOk(m)
    ensures TimesOk(m')
  {
  }

  lemma NewHaveReferences(h: Hashes, m: InfoMap, vvTried: seq<seq<Id>>, vvNew: seq<set<Id>>)
    requires TriedOk(h, m, vvTried) && NewOk(m, vvNew, None)
    ensures forall n :: n in m ==> (m[n].refCount != 0 <==> !m[n].inTried)
    ensures forall b, x :: 0 <= b < |vvNew| && x in vvNew[b] ==> x in NewIds(m)
  {
  }

  lemma PlacesSwapped(m: InfoMap, addrs: map<NetAddr, Id>, vRandom: seq<Id>, i: int, j: int)
    requires IndexOk(m, addrs, vRandom) && 0 <= i < |vRandom| && 0 <= j < |vRandom| && i != j
    ensures vRandom[i] in m && vRandom[j] in m && vRandom[i] != vRandom[j]
    ensures m[vRandom[i]].randomPos == i && m[vRandom[j]].randomPos == j
    ensures var x, y := vRandom[i], vRandom[j];
            IndexOk(m[x := m[x].(randomPos := j)][y := m[y].(randomPos := i)], addrs, vRandom[i := y][j := x])
  {
    var x, y := vRandom[i], vRandom[j];
    assert m[x].randomPos == i && m[y].randomPos == j;
    var m', v := m[x := m[x].(randomPos := j)][y := m[y].(randomPos := i)], vRandom[i := y][j := x];
    forall k | 0 <= k < |v| ensures v[k] in m' && m'[v[k]].randomPos == k {
      if k != i && k != j { assert m[vRandom[k]].randomPos == k; }
    }
  }

  lemma DistinctIps(m: InfoMap, addrs: map<NetAddr, Id>, vRandom: seq<Id>, i: int, j: int)
    requires IndexOk(m, addrs, vRandom) && 0 <= i < j < |vRandom|
    ensures vRandom[i] in m && vRandom[j] in m && m[vRandom[i]].address.ip != m[vRandom[j]].address.ip
  {
    assert m[vRandom[i]].randomPos == i && m[vRandom[j]].randomPos == j;
    var x, y := vRandom[i], vRandom[j];
    assert vRandom[m[x].randomPos] == x && vRandom[m[y].randomPos] == y;
    assert addrs[m[x].address.ip] == x && addrs[m[y].address.ip] == y;
  }

  function Max(a: int, b: int): int { if a > b then a else b }

  function SampleSize(size: nat): nat { if 23 * size / 100 > 2500 then 2500 else 23 * size / 100 }

  /** The entry of an address first heard of: nothing tried, one new bucket to come. */
  function Newcomer(addr: Address, source: NetAddr, penalty: nat, pos: nat): Info {
    Info(addr.(time := Max(0, addr.time - penalty)), source, 0, 0, 0, 0, false, pos)
  }

  /** Hearing again of a known address: a clearly newer time is taken over, less the penalty, and services add up. */
  function Refreshed(i: Info, addr: Address, penalty: nat, now: int): Info {
    var interval := if now - addr.time < 24 * 60 * 60 then 60 * 60 else 24 * 60 * 60;
    var newer := addr.time != 0 && (i.address.time == 0 || i.address.time < addr.time - interval - penalty);
    i.(address := i.address.(time := if newer then Max(0, addr.time - penalty) else i.address.time,
                             services := i.address.services + addr.services))
  }

  /** No further new bucket: no news, already tried, in four buckets, or by chance. */
  predicate Ignored(i: Info, addr: Address, coin: nat) {
    || addr.time == 0 || (i.address.time != 0 && addr.time <= i.address.time)
    || i.inTried || i.refCount == NEW_BUCKETS_PER_ADDRESS
    || (i.refCount > 0 && coin % Odds(i.refCount) != 0)
  }

  lemma RefreshedStanding(i: Info, addr: Address, penalty: nat, now: int)
    ensures SameStanding(i, Refreshed(i, addr, penalty, now))
    ensures var r := Refreshed(i, addr, penalty, now);
            r.randomPos == i.randomPos && r.lastSuccess == i.lastSuccess && r.lastTry == i.lastTry
  {
  }

  /** The first half of Add_ on a known address. */
  method RefreshEntry(i: Info, addr: Address, nTimePenalty: nat, now: int) returns (info: Info)
    ensures info == Refreshed(i, addr, nTimePenalty, now)
  {
    info := i;
    var fCurrentlyOnline := now - addr.time < 24 * 60 * 60;
    var nUpdateInterval := if fCurrentlyOnline then 60 * 60 else 24 * 60 * 60;
    if addr.time != 0 && (info.address.time == 0 || info.address.time < addr.time - nUpdateInterval - nTimePenalty) {
      info := info.(address := info.address.(time := Max(0, addr.time - nTimePenalty)));
    }
    info := info.(address := info.address.(services := info.address.services + addr.services));
  }

  /** The second half: whether one more new bucket is to be tried. */
  method Willing(info: Info, addr: Address, coin: nat) returns (more: bool)
    ensures more <==> !Ignored(info, addr, coin)
    ensures more ==> !info.inTried && info.refCount != NEW_BUCKETS_PER_ADDRESS
  {
    if addr.time == 0 || (info.address.time != 0 && addr.time <= info.address.time) {
      return false;
    }
    if info.inTried {
      return false;
    }
    if info.refCount == NEW_BUCKETS_PER_ADDRESS {
      return false;
    }
    var nFactor := Factor(info.refCount);
    if nFactor > 1 && coin % nFactor != 0 {
      return false;
    }
    return true;
  }

  function Odds(n: int): (p: nat)
    ensures p >= 1 && (n > 0 <==> p > 1)
    decreases n
  {
    if n <= 0 then 1 else 2 * Odds(n - 1)
  }

  /** The odds of one more bucket halve with each bucket the address is in. */
  method Factor(refCount: int) returns (nFactor: nat)
    ensures nFactor == Odds(refCount)
  {
    nFactor := 1;
    var k := 0;
    while k < refCount
      invariant k >= 0 && (k <= refCount || k == 0) && nFactor == Odds(k)
    {
      nFactor := nFactor * 2;
      k := k + 1;
    }
  }

  /** An address first heard of: nothing tried, in one new bucket, its time less the penalty. */
  ghost predicate Introduced(m: InfoMap, id: Id, addr: Address, source: NetAddr, penalty: nat) {
    && id in m && m[id].address == addr.(time := if addr.time > penalty then addr.time - penalty else 0)
    && m[id].source == source && m[id].lastSuccess == 0 && m[id].lastTry == 0 && m[id].attempts == 0
    && m[id].refCount == 1 && !m[id].inTried
  }

  /** Heard of again: services add up; the time becomes what was said less the penalty if that is news, by more than an hour
      when said of the last day, and by more than a day otherwise. */
  ghost predicate Renewed(was: Info, i: Info, addr: Address, penalty: nat, now: int) {
    var margin := if addr.time > now - 86_400 then 3_600 else 86_400;
    && i.address.services == was.address.services + addr.services
    && i.address.time == (if addr.time != 0 && (was.address.time == 0 || addr.time - was.address.time > margin + penalty)
                          then if addr.time > penalty then addr.time - penalty else 0
                          else was.address.time)
    && i == was.(address := was.address.(time := i.address.time, services := i.address.services), refCount := i.refCount,
                 randomPos := i.randomPos)
  }

  /** It joins one more new bucket if that was said of a later time, it is not tried and in fewer than four buckets, and with
      odds of one in two, four or eight. */
  ghost predicate Spreads(time: int, was: Info, addr: Address, coin: nat) {
    && addr.time != 0 && (time == 0 || addr.time > time) && !was.inTried && was.refCount != 4
    && (was.refCount == 1 ==> coin % 2 == 0) && (was.refCount == 2 ==> coin % 4 == 0) && (was.refCount == 3 ==> coin % 8 == 0)
  }

  lemma RefreshedRenews(i: Info, addr: Address, penalty: nat, now: int)
    ensures Renewed(i, Refreshed(i, addr, penalty, now), addr, penalty, now)
  {
  }

  lemma IgnoredOrSpreads(was: Info, i: Info, addr: Address, coin: nat)
    requires i.inTried == was.inTried && i.refCount == was.refCount && (was.inTried || 1 <= was.refCount <= 4)
    ensures Ignored(i, addr, coin) <==> !Spreads(i.address.time, was, addr, coin)
  {
    assert Odds(0) == 1 && Odds(1) == 2 && Odds(2) == 4 && Odds(3) == 8;
  }

  /** Hearing the same again changes nothing, and no hearing sets a time back. */
  lemma HeardTwice(i: Info, addr: Address, penalty: nat, now: int)
    requires i.address.time >= 0
    ensures var r := Refreshed(i, addr, penalty, now);
            r.address.time >= i.address.time && Refreshed(r, addr, penalty, now) == r
  {
  }

  /** Statistics after a success. */
  function Succeeded(i: Info, nTime: int): Info {
    i.(lastSuccess := nTime, lastTry := nTime, address := i.address.(time := nTime), attempts := 0)
  }

  /** After a success, the entry is tried, in no new bucket, and its times are those of the success. */
  ghost predicate Thrived(m: InfoMap, m': InfoMap, n: Id, nTime: int) {
    && n in m && n in m' && m'[n].lastSuccess == nTime && m'[n].lastTry == nTime && m'[n].attempts == 0
    && m'[n].address == m[n].address.(time := nTime) && m'[n].inTried
    && m'[n] == m[n].(lastSuccess := nTime, lastTry := nTime, attempts := 0, address := m'[n].address, inTried := true,
                      refCount := m'[n].refCount)
    && (!m[n].inTried ==> m'[n].refCount == 0)
  }

  /** The bucket after four draws, each taking the entry at its place to the front part. */
  ghost function FourDrawn(s: seq<Id>, d: seq<nat>): seq<Id>
    requires |s| == 64 && |d| == 4 && d[0] < 64 && d[1] < 63 && d[2] < 62 && d[3] < 61
  {
    var s1 := s[d[0] := s[0]][0 := s[d[0]]];
    var s2 := s1[d[1] + 1 := s1[1]][1 := s1[d[1] + 1]];
    var s3 := s2[d[2] + 2 := s2[2]][2 := s2[d[2] + 2]];
    s3[d[3] + 3 := s3[3]][3 := s3[d[3] + 3]]
  }

  /** Which entry a full tried bucket gives up: of the four at the front after the draws, the place that the one with the
      earliest success, the first such, was drawn from decides. */
  ghost predicate GivesUp(m: InfoMap, s: seq<Id>, d: seq<nat>, e: Id)
    requires |s| == 64 && |d| == 4 && d[0] < 64 && d[1] < 63 && d[2] < 62 && d[3] < 61
  {
    var r := FourDrawn(s, d);
    exists f :: 0 <= f < 4 && EarliestOfFour(m, r, f) && e == r[f + d[f]]
  }

  ghost predicate EarliestOfFour(m: InfoMap, r: seq<Id>, f: int)
    requires |r| == 64 && 0 <= f < 4
  {
    && (forall k :: 0 <= k < 4 ==> r[k] in m)
    && (forall k :: 0 <= k < f ==> m[r[f]].lastSuccess < m[r[k]].lastSuccess)
    && (forall k :: f < k < 4 ==> m[r[f]].lastSuccess <= m[r[k]].lastSuccess)
  }

  /** Where a new entry goes after a success: to the tried bucket its address and port lead to. If that is full, 64 entries,
      the one it gives up goes, once, to the new bucket that its own address and source lead to, or to the one just left if
      that is full too. */
  ghost predicate Settled(h: Hashes, m: InfoMap, m': InfoMap, tried: seq<seq<Id>>, tried': seq<seq<Id>>, vv: seq<set<Id>>,
                          vv': seq<set<Id>>, n: Id, draws: seq<nat>, nOrigin: nat, e: Option<Id>)
    requires n in m
  {
    var k := h.triedHash(m[n].address.ip, m[n].address.port) % 64;
    && |tried| == |tried'| == 64 && |vv| == |vv'| == 256
    && n in tried'[k] && (forall b :: 0 <= b < 64 && b != k ==> tried'[b] == tried[b])
    && (forall b :: 0 <= b < 256 ==> n !in vv'[b])
    && (e.None? <==> |tried[k]| < 64)
    && (e.None? ==> |tried'[k]| == |tried[k]| + 1)
    && (e.Some? ==>
          && |tried[k]| == 64 == |tried'[k]| && |draws| == 4 && draws[0] < 64 && draws[1] < 63 && draws[2] < 62 && draws[3] < 61
          && e.value in m && e.value in m' && e.value != n && e.value !in tried'[k]
          && m'[e.value] == m[e.value].(inTried := false, refCount := 1)
          && var own := h.newHash(m[e.value].address.ip, m[e.value].source) % 256;
          && nOrigin < 256 && e.value in vv'[if |vv[own] - {n}| < 64 then own else nOrigin]
          && GivesUp(m', tried[k], draws, e.value))
  }

  function Round(k: nat, nRnd: nat, m: nat): (b: nat)
    requires m > 0
    ensures b < m
  {
    (k + nRnd) % m
  }

  /** The first bucket holding `n`, walking round from bucket nRnd; -1 if there is none. */
  method FindBucket(vvNew: seq<set<Id>>, n: Id, nRnd: nat) returns (nUBucket: int)
    requires |vvNew| > 0
    ensures nUBucket == -1 || (0 <= nUBucket < |vvNew| && n in vvNew[nUBucket])
    ensures nUBucket == -1 <==> Holders(vvNew, n) == {}
  {
    for k := 0 to |vvNew|
      invariant forall j :: 0 <= j < k ==> n !in vvNew[Round(j, nRnd, |vvNew|)]
    {
      var nB := Round(k, nRnd, |vvNew|);
      if n in vvNew[nB] {
        assert nB in Holders(vvNew, n);
        return nB;
      }
    }
    forall b | 0 <= b < |vvNew| ensures n !in vvNew[b] {
      var j := (b - nRnd) % |vvNew|;
      RoundAgain(b, nRnd, |vvNew|);
      assert n !in vvNew[Round(j, nRnd, |vvNew|)];
    }
    return -1;
  }

  lemma RoundAgain(b: nat, r: nat, m: nat)
    requires b < m
    ensures Round((b - r) % m, r, m) == b
  {
    var j, q := (b - r) % m, (b - r) / m;
    assert b - r == m * q + j;
    assert j + r == b + m * (-q);
    Arith.ModShift(b, m, -q);
  }

  /** `victim`, if any, has left a bucket. */
  ghost predicate Shrunk(m: InfoMap, m': InfoMap, was: seq<set<Id>>, now: seq<set<Id>>, b: int, victim: Option<Id>)
    requires 0 <= b < |was|
  {
    && now == (if victim.Some? then was[b := was[b] - {victim.value}] else was)
    && (forall k :: k in m && Some(k) != victim ==> k in m' && m'[k] == m[k].(randomPos := m'[k].randomPos))
    && m'.Keys == m.Keys - Forgotten(m, victim)
    && (victim.Some? ==>
          var v := victim.value;
          && v in was[b] && v in m && !m[v].inTried
          && (m[v].refCount != 1 ==> m'[v] == m[v].(refCount := m[v].refCount - 1, randomPos := m'[v].randomPos)))
  }

  lemma ShrunkThenJoined(m: InfoMap, m': InfoMap, was: seq<set<Id>>, now: seq<set<Id>>, n: Id, b: int, victim: Option<Id>)
    requires 0 <= b < |was| && n !in was[b] && n in m
    requires Shrunk(m[n := m[n].(refCount := m[n].refCount + 1)], m', was, now, b, victim)
    ensures Joined(m, m', was, now[b := now[b] + {n}], n, b, victim)
    ensures n in m' && !m[n].inTried ==> !m'[n].inTried
    ensures n in m' && m'[n].refCount == m[n].refCount + 1
    ensures n !in now[b] && Holders(now, n) == Holders(was, n)
  {
    if victim.Some? {
      HoldersRemove(was, b, victim.value);
    }
  }

  lemma KeepsIndex(m: InfoMap, n: Id, c: int, addrs: map<NetAddr, Id>, vRandom: seq<Id>)
    requires IndexOk(m, addrs, vRandom) && n in m
    ensures IndexOk(m[n := m[n].(refCount := c)], addrs, vRandom)
  {
    MovedKeepsIndex(m, m[n := m[n].(refCount := c)], addrs, vRandom);
  }

  /** Entry `n` is in one more new bucket, from which `victim` has gone. */
  ghost predicate Joined(m: InfoMap, m': InfoMap, was: seq<set<Id>>, now: seq<set<Id>>, n: Id, b: int, victim: Option<Id>)
    requires n in m && 0 <= b < |was|
  {
    var left := if victim.Some? then was[b] - {victim.value} else was[b];
    && now == was[b := left + {n}]
    && n in m' && m'[n] == m[n].(refCount := m[n].refCount + 1, randomPos := m'[n].randomPos)
    && (forall k :: k in m && k != n && Some(k) != victim ==> k in m' && m'[k] == m[k].(randomPos := m'[k].randomPos))
    && m'.Keys == m.Keys - Forgotten(m, victim)
    && (victim.Some? ==>
          var v := victim.value;
          && v != n && v in was[b] && v in m && !m[v].inTried
          && (m[v].refCount != 1 ==> m'[v] == m[v].(refCount := m[v].refCount - 1, randomPos := m'[v].randomPos)))
  }

  lemma JoinedTimes(m: InfoMap, m': InfoMap, was: seq<set<Id>>, now: seq<set<Id>>, n: Id, b: int, victim: Option<Id>)
    requires n in m && 0 <= b < |was| && Joined(m, m', was, now, n, b, victim) && TimesOk(m)
    ensures TimesOk(m')
  {
    forall k | k in m' ensures m'[k].lastTry >= 0 && m'[k].lastSuccess >= 0 && (m'[k].inTried ==> m'[k].lastSuccess != 0) {
      assert k in m'.Keys;
    }
  }

  /** Hearing of an address makes the manager forget at most one other: not a tried one, and only one that sat in
      the full bucket and in no other. */
  lemma ForgetsAtMostOne(m: InfoMap, m': InfoMap, was: seq<set<Id>>, now: seq<set<Id>>, n: Id, b: int, victim: Option<Id>)
    requires n in m && 0 <= b < |was| && Joined(m, m', was, now, n, b, victim)
    ensures |m.Keys - m'.Keys| <= 1
    ensures forall k :: k in m && k !in m' ==> victim == Some(k) && k in was[b] && !m[k].inTried && m[k].refCount == 1
    ensures forall k :: k in m && m[k].inTried && k != n ==> k in m' && m'[k] == m[k].(randomPos := m'[k].randomPos)
  {
    assert m.Keys - m'.Keys <= Forgotten(m, victim);
    SubsetSize(m.Keys - m'.Keys, Forgotten(m, victim));
  }

  /** An id losing its last new bucket is forgotten. */
  ghost function Forgotten(m: InfoMap, victim: Option<Id>): set<Id> {
    if victim.Some? && victim.value in m && m[victim.value].refCount == 1 then {victim.value} else {}
  }

  /** The tried table once `n` is in it, in place of `e` if its bucket was full. */
  ghost predicate TriedAfter(h: Hashes, m: InfoMap, was: seq<seq<Id>>, now: seq<seq<Id>>, n: Id, e: Option<Id>)
    requires n in m && |was| == TRIED_BUCKET_COUNT
  {
    var k := TriedBucket(h, m[n].address);
    && |now| == |was| && now == was[k := now[k]]
    && Exchanged(was[k], now[k], e, n)
    && (e.Some? <==> |was[k]| == TRIED_BUCKET_SIZE)
    && (e.Some? ==> e.value in was[k] && e.value in m)
  }

  ghost predicate EntriesAfter(m: InfoMap, m': InfoMap, n: Id, e: Option<Id>)
    requires n in m && (e.Some? ==> e.value in m)
  {
    m' == if e.None? then m[n := Promoted(m[n])] else Swapped(m, n, e.value)
  }

  /** The new table without `n`, and with the evicted entry in its refuge. */
  ghost predicate NewAfter(h: Hashes, m: InfoMap, was: seq<set<Id>>, now: seq<set<Id>>, n: Id, nOrigin: nat, e: Option<Id>)
    requires |was| == NEW_BUCKET_COUNT && nOrigin < |was| && (e.Some? ==> e.value in m)
  {
    var vv := Without(was, n);
    if e.None? then now == vv
    else
      var b := Refuge(h, m[e.value], vv, nOrigin);
      now == vv[b := vv[b] + {e.value}]
  }

  /** The entry with its references counted down while its id leaves every new bucket. */
  method EraseReferences(vvNew: seq<set<Id>>, n: Id, i: Info) returns (vv: seq<set<Id>>, i': Info)
    ensures vv == Without(vvNew, n) && i' == i.(refCount := i.refCount - |Holders(vvNew, n)|)
  {
    var count;
    vv, count := EraseEverywhere(vvNew, n, i.refCount);
    i' := i.(refCount := count);
  }

  lemma PushKeeps(h: Hashes, m: InfoMap, vvTried: seq<seq<Id>>, k: nat, n: Id)
    requires TriedOk(h, m, vvTried) && k < |vvTried| && n in m && !m[n].inTried
    ensures Exchanged(vvTried[k], vvTried[k] + [n], None, n)
  {
    assert BucketOk(h, m, vvTried[k], k);
  }

  lemma OverwriteExchanges(h: Hashes, m: InfoMap, was: seq<Id>, bucket: seq<Id>, k: int, pos: int, n: Id)
    requires BucketOk(h, m, was, k) && n in m && !m[n].inTried
    requires 0 <= pos < |bucket| && Distinct(bucket) && forall x :: x in bucket <==> x in was
    ensures bucket[pos] in was && bucket[pos] in m && m[bucket[pos]].inTried
    ensures Exchanged(was, bucket[pos := n], Some(bucket[pos]), n)
  {
    var e := bucket[pos];
    var bucket' := bucket[pos := n];
    assert e in bucket && n !in was;
    forall i | 0 <= i < |bucket| && i != pos ensures bucket[i] != n && bucket[i] != e {
      assert bucket[i] in bucket;
    }
    forall x ensures x in bucket' <==> x == n || (x in was && x != e) {
      if x in bucket' {
        var i :| 0 <= i < |bucket'| && bucket'[i] == x;
        assert i != pos ==> bucket[i] in bucket;
      }
      if x in bucket && x != e {
        var i :| 0 <= i < |bucket| && bucket[i] == x;
        assert bucket'[i] == x;
      }
      if x == n { assert bucket'[pos] == n; }
    }
  }

  function Swapped(m: InfoMap, n: Id, e: Id): InfoMap
    requires n in m && e in m
  {
    m[n := Promoted(m[n])][e := Demoted(m[e])]
  }

  lemma ReplaceKeepsTables(h: Hashes, m: InfoMap, vvTried: seq<seq<Id>>, vvNew: seq<set<Id>>, n: Id, nOrigin: nat, pos: nat)
    requires TriedOk(h, m, vvTried) && NewOk(m, vvNew, None)
    requires nOrigin < |vvNew| && n in vvNew[nOrigin]
    requires pos < |vvTried[TriedBucket(h, m[n].address)]|
    ensures var k := TriedBucket(h, m[n].address);
            var e := vvTried[k][pos];
            && e in m && e != n && Exchanged(vvTried[k], vvTried[k][pos := n], Some(e), n)
            && TriedOk(h, Swapped(m, n, e), vvTried[k := vvTried[k][pos := n]])
            && var vv := Without(vvNew, n);
            && var b := Refuge(h, m[e], vv, nOrigin);
            && NewOk(Swapped(m, n, e), vv[b := vv[b] + {e}], None)
            && |TriedIds(Swapped(m, n, e))| == |TriedIds(m)| && |NewIds(Swapped(m, n, e))| == |NewIds(m)|
  {
    var k := TriedBucket(h, m[n].address);
    var e := vvTried[k][pos];
    assert BucketOk(h, m, vvTried[k], k);
    OverwriteExchanges(h, m, vvTried[k], vvTried[k], k, pos, n);
    RefugeHasRoom(h, m[e], vvNew, n, nOrigin);
    EvictionKeepsTables(h, m, vvTried, vvNew, n, e, vvTried[k][pos := n], Refuge(h, m[e], Without(vvNew, n), nOrigin));
  }

  lemma SwapKeepsIndex(m: InfoMap, n: Id, e: Id, addrs: map<NetAddr, Id>, vRandom: seq<Id>)
    requires IndexOk(m, addrs, vRandom) && n in m && e in m
    ensures IndexOk(Swapped(m, n, e), addrs, vRandom) && Swapped(m, n, e).Keys == m.Keys
  {
    MovedKeepsIndex(m, Swapped(m, n, e), addrs, vRandom);
  }

  /** The order of a tried bucket does not matter. */
  lemma ShuffleKeepsTried(h: Hashes, m: InfoMap, vvTried: seq<seq<Id>>, k: int, bucket: seq<Id>)
    requires TriedOk(h, m, vvTried) && 0 <= k < |vvTried|
    requires |bucket| == |vvTried[k]| && Distinct(bucket) && forall x :: x in bucket <==> x in vvTried[k]
    ensures TriedOk(h, m, vvTried[k := bucket])
  {
    var after := vvTried[k := bucket];
    forall b | 0 <= b < |after| ensures BucketOk(h, m, after[b], b) {
      assert BucketOk(h, m, vvTried[b], b);
      if b == k {
        forall i | 0 <= i < |bucket| ensures
            bucket[i] in m && m[bucket[i]].inTried && TriedBucket(h, m[bucket[i]].address) == b {
          assert bucket[i] in bucket;
        }
      }
    }
  }

  lemma RefugeHasRoom(h: Hashes, i: Info, vvNew: seq<set<Id>>, n: Id, nOrigin: nat)
    requires |vvNew| == NEW_BUCKET_COUNT && nOrigin < |vvNew| && n in vvNew[nOrigin]
    requires forall b :: 0 <= b < |vvNew| ==> |vvNew[b]| <= NEW_BUCKET_SIZE
    ensures |Without(vvNew, n)[Refuge(h, i, Without(vvNew, n), nOrigin)]| < NEW_BUCKET_SIZE
  {
  }

  /** The new bucket an evicted entry goes to: its own when there is place, or the promoted entry's. */
  function Refuge(h: Hashes, i: Info, vvNew: seq<set<Id>>, nOrigin: nat): (b: nat)
    requires |vvNew| == NEW_BUCKET_COUNT && nOrigin < |vvNew|
    ensures b < |vvNew|
  {
    var own := NewBucket(h, i.address, i.source);
    if |vvNew[own]| < NEW_BUCKET_SIZE then own else nOrigin
  }

  /** Saving a manager to addr.dat and loading the file into another one. */
  method DumpAndLoad(a: CAddrMan, b: CAddrMan) returns (ghost origin: seq<Id>)
    requires a.Valid() && a != b
    modifies b
    ensures a.Valid() && b.Valid() && b.hash == a.hash
    ensures SameBook(a.mapInfo, a.vvTried, a.vvNew, b.mapInfo, b.vvTried, b.vvNew, origin)
  {
    ghost var newIds;
    ghost var triedIds;
    var s, key;
    s, key, newIds, triedIds := a.Serialize();
    b.Unserialize(s, key, a.mapInfo, a.mapAddr, a.vRandom, a.vvTried, a.vvNew, newIds, triedIds);
    origin := newIds + triedIds;
  }
}
