/** Saving the address manager to addr.dat and rebuilding it: ids are renumbered, indexes reconstructed. */
module AddrStore {
  import opened Basics
  import opened AddrTables

  /** What is kept of an entry: not its place in vRandom, its last try, or its bucket bookkeeping. */
  datatype Stored = Stored(address: Address, source: NetAddr, lastSuccess: int, attempts: int)

  function Store(i: Info): Stored { Stored(i.address, i.source, i.lastSuccess, i.attempts) }

  function Restore(s: Stored, pos: int, inTried: bool): Info {
    Info(s.address, s.source, s.lastSuccess, 0, s.attempts, 0, inTried, pos)
  }

  /** The file, apart from version and key. */
  datatype Saved = Saved(nNew: int, nTried: int, newInfos: seq<Stored>, triedInfos: seq<Stored>, buckets: seq<seq<int>>)

  /** `ids` goes once through the set `s`. */
  ghost predicate Numbers(ids: seq<Id>, s: set<Id>) {
    Distinct(ids) && forall x :: x in ids <==> x in s
  }

  ghost predicate AllStored(infos: seq<Stored>, m: InfoMap, ids: seq<Id>) {
    && |infos| == |ids|
    && forall k :: 0 <= k < |ids| ==>
         && ids[k] in m && infos[k].address == m[ids[k]].address && infos[k].source == m[ids[k]].source
         && infos[k].lastSuccess == m[ids[k]].lastSuccess && infos[k].attempts == m[ids[k]].attempts
  }

  /** The indices, under the numbering `ids`, of a bucket's members, each once. */
  ghost predicate Indexed(bucket: seq<int>, vNew: set<Id>, ids: seq<Id>) {
    && Distinct(bucket) && |bucket| == |vNew|
    && forall k :: k in bucket <==> 0 <= k < |ids| && ids[k] in vNew
  }

  /** `s` is a file of the tables, numbering new and tried entries as listed. */
  ghost predicate FileOf(s: Saved, m: InfoMap, vvNew: seq<set<Id>>, newIds: seq<Id>, triedIds: seq<Id>) {
    && s.nNew == |newIds| && s.nTried == |triedIds|
    && Numbers(newIds, NewIds(m)) && AllStored(s.newInfos, m, newIds)
    && Numbers(triedIds, TriedIds(m)) && AllStored(s.triedInfos, m, triedIds)
    && |s.buckets| == |vvNew|
    && forall b :: 0 <= b < |vvNew| ==> Indexed(s.buckets[b], vvNew[b], newIds)
  }

  // ---------------------------------------------------------------- distinct lists

  function Elements(s: seq<Id>): set<Id> { set x | x in s }

  lemma {:induction false} DistinctSize(s: seq<Id>)
    requires Distinct(s)
    ensures |Elements(s)| == |s|
  {
    if s == [] {
      assert Elements(s) == {};
    } else {
      var last := |s| - 1;
      DistinctSize(s[..last]);
      assert Elements(s) == Elements(s[..last]) + {s[last]};
    }
  }

  lemma SubsetSize(a: set<Id>, b: set<Id>)
    requires a <= b
    ensures |a| <= |b| && (|a| == |b| ==> a == b)
  {
    assert b == a + (b - a);
  }

  lemma SublistSize(s: seq<Id>, t: seq<Id>)
    requires Distinct(s) && Distinct(t) && forall x :: x in s ==> x in t
    ensures |s| <= |t|
  {
    DistinctSize(s);
    DistinctSize(t);
    SubsetSize(Elements(s), Elements(t));
  }

  lemma AllNumbered(ids: seq<Id>, s: set<Id>)
    requires Distinct(ids) && |ids| == |s| && forall x :: x in ids ==> x in s
    ensures Numbers(ids, s)
  {
    DistinctSize(ids);
    SubsetSize(Elements(ids), s);
    assert forall x :: x in ids <==> x in Elements(ids);
  }

  // ---------------------------------------------------------------- writing

  /** The new entries, in order of id, and the indices the buckets will refer to. */
  method WriteNew(m: InfoMap, nNew: nat) returns (infos: seq<Stored>, mapUnkIds: map<Id, int>, ghost ids: seq<Id>)
    requires nNew == |NewIds(m)|
    requires forall n :: n in m ==> (m[n].refCount != 0 <==> !m[n].inTried)
    ensures Numbers(ids, NewIds(m)) && AllStored(infos, m, ids)
    ensures forall k :: 0 <= k < |ids| ==> ids[k] in mapUnkIds && mapUnkIds[ids[k]] == k
  {
    infos, mapUnkIds, ids := [], map[], [];
    var walk := ListSet(m.Keys);
    var i := 0;
    while i < |walk| && |infos| != nNew
      invariant 0 <= i <= |walk|
      invariant AllStored(infos, m, ids) && Distinct(ids)
      invariant forall x :: x in ids ==> x in NewIds(m) && x in walk[..i]
      invariant forall k :: 0 <= k < i ==> walk[k] in NewIds(m) ==> walk[k] in ids
      invariant forall x :: x in mapUnkIds ==> x in walk[..i]
      invariant forall k :: 0 <= k < |ids| ==> ids[k] in mapUnkIds && mapUnkIds[ids[k]] == k
    {
      var n := walk[i];
      assert n in walk && n !in walk[..i];
      mapUnkIds := mapUnkIds[n := |infos|];
      if m[n].refCount != 0 {
        infos := infos + [Store(m[n])];
        ids := ids + [n];
      }
      i := i + 1;
    }
    if |infos| == nNew {
      AllNumbered(ids, NewIds(m));
    }
  }

  /** The tried entries, in order of id. */
  method WriteTried(m: InfoMap, nTried: nat) returns (infos: seq<Stored>, ghost ids: seq<Id>)
    requires nTried == |TriedIds(m)|
    ensures Numbers(ids, TriedIds(m)) && AllStored(infos, m, ids)
  {
    infos, ids := [], [];
    var walk := ListSet(m.Keys);
    var i := 0;
    while i < |walk| && |infos| != nTried
      invariant 0 <= i <= |walk|
      invariant AllStored(infos, m, ids) && Distinct(ids)
      invariant forall x :: x in ids ==> x in TriedIds(m) && x in walk[..i]
      invariant forall k :: 0 <= k < i ==> walk[k] in TriedIds(m) ==> walk[k] in ids
    {
      var n := walk[i];
      assert n in walk && n !in walk[..i];
      if m[n].inTried {
        infos := infos + [Store(m[n])];
        ids := ids + [n];
      }
      i := i + 1;
    }
    if |infos| == nTried {
      AllNumbered(ids, TriedIds(m));
    }
  }

  method WriteBucket(vNew: set<Id>, mapUnkIds: map<Id, int>, ghost ids: seq<Id>) returns (bucket: seq<int>)
    requires Distinct(ids) && forall x :: x in vNew ==> x in ids
    requires forall k :: 0 <= k < |ids| ==> ids[k] in mapUnkIds && mapUnkIds[ids[k]] == k
    ensures Indexed(bucket, vNew, ids)
  {
    bucket := [];
    var walk := ListSet(vNew);
    for i := 0 to |walk|
      invariant |bucket| == i
      invariant forall j :: 0 <= j < i ==> 0 <= bucket[j] < |ids| && ids[bucket[j]] == walk[j]
    {
      assert walk[i] in walk;
      bucket := bucket + [mapUnkIds[walk[i]]];
    }
    forall k | 0 <= k < |ids| && ids[k] in vNew ensures k in bucket {
      var j :| 0 <= j < |walk| && walk[j] == ids[k];
      assert ids[bucket[j]] == ids[k];
    }
    forall k | k in bucket ensures 0 <= k < |ids| && ids[k] in vNew {
      var j :| 0 <= j < |bucket| && bucket[j] == k;
      assert walk[j] in walk;
    }
  }

  method WriteBuckets(vvNew: seq<set<Id>>, mapUnkIds: map<Id, int>, ghost ids: seq<Id>) returns (buckets: seq<seq<int>>)
    requires Distinct(ids) && forall b, x :: 0 <= b < |vvNew| && x in vvNew[b] ==> x in ids
    requires forall k :: 0 <= k < |ids| ==> ids[k] in mapUnkIds && mapUnkIds[ids[k]] == k
    ensures |buckets| == |vvNew| && forall b :: 0 <= b < |vvNew| ==> Indexed(buckets[b], vvNew[b], ids)
  {
    buckets := [];
    for b := 0 to |vvNew|
      invariant |buckets| == b && forall c :: 0 <= c < b ==> Indexed(buckets[c], vvNew[c], ids)
    {
      var bucket := WriteBucket(vvNew[b], mapUnkIds, ids);
      buckets := buckets + [bucket];
    }
  }

  // ---------------------------------------------------------------- reading

  /** The first `k` entries of `origin` are rebuilt under their new numbers, no new bucket filled yet. */
  ghost predicate Rebuilt(m: InfoMap, origin: seq<Id>, nNew: int, m': InfoMap, k: int)
    requires 0 <= k <= |origin| && forall j :: 0 <= j < |origin| ==> origin[j] in m
  {
    && (forall n :: n in m' <==> 0 <= n < k)
    && forall j :: 0 <= j < k ==> m'[j] == Restore(Store(m[origin[j]]), j, j >= nNew)
  }

  lemma FreshAddress(m: InfoMap, mapAddr: map<NetAddr, Id>, vRandom: seq<Id>, origin: seq<Id>, nNew: int, m': InfoMap,
                     addrs': map<NetAddr, Id>, vRandom': seq<Id>, k: int)
    requires IndexOk(m, mapAddr, vRandom) && Distinct(origin) && forall j :: 0 <= j < |origin| ==> origin[j] in m
    requires 0 <= k < |origin| && Rebuilt(m, origin, nNew, m', k) && IndexOk(m', addrs', vRandom')
    ensures m[origin[k]].address.ip !in addrs'
  {
    var ip := m[origin[k]].address.ip;
    forall j | 0 <= j < k ensures m[origin[j]].address.ip != ip {
      var x, y := origin[j], origin[k];
      assert mapAddr[m[x].address.ip] == x && mapAddr[m[y].address.ip] == y;
    }
    forall a | a in addrs' ensures a != ip {
      var j := addrs'[a];
      assert m'[j].address.ip == m[origin[j]].address.ip;
    }
  }

  /** The first phase: new entries become 0, 1, 2, ... */
  method ReadNew(infos: seq<Stored>, ghost m: InfoMap, ghost addrs: map<NetAddr, Id>, ghost random: seq<Id>,
                 ghost origin: seq<Id>)
    returns (mapInfo: InfoMap, mapAddr: map<NetAddr, Id>, vRandom: seq<Id>)
    requires IndexOk(m, addrs, random) && Distinct(origin) && forall j :: 0 <= j < |origin| ==> origin[j] in m
    requires |infos| <= |origin| && AllStored(infos, m, origin[..|infos|])
    ensures Rebuilt(m, origin, |infos|, mapInfo, |infos|) && IndexOk(mapInfo, mapAddr, vRandom)
    ensures |vRandom| == |infos|
  {
    mapInfo, mapAddr, vRandom := map[], map[], [];
    for n := 0 to |infos|
      invariant Rebuilt(m, origin, |infos|, mapInfo, n) && IndexOk(mapInfo, mapAddr, vRandom) && |vRandom| == n
    {
      assert origin[..|infos|][n] == origin[n] && infos[n] == Store(m[origin[n]]);
      FreshAddress(m, addrs, random, origin, |infos|, mapInfo, mapAddr, vRandom, n);
      var info := Restore(infos[n], |vRandom|, false);
      AppendNewcomer(mapInfo, mapAddr, vRandom, n, info);
      mapInfo := mapInfo[n := info];
      mapAddr := mapAddr[info.address.ip := n];
      vRandom := vRandom + [n];
    }
  }

  /** A tried entry with place in its bucket. */
  lemma AppendTried(h: Hashes, m: InfoMap, vvTried: seq<seq<Id>>, n: Id, i: Info)
    requires TriedOk(h, m, vvTried) && n !in m && i.inTried && i.refCount == 0
    requires |vvTried[TriedBucket(h, i.address)]| < TRIED_BUCKET_SIZE
    ensures var b := TriedBucket(h, i.address);
            TriedOk(h, m[n := i], vvTried[b := vvTried[b] + [n]])
  {
    var b := TriedBucket(h, i.address);
    var after := vvTried[b := vvTried[b] + [n]];
    forall c | 0 <= c < |after| ensures BucketOk(h, m[n := i], after[c], c) {
      assert BucketOk(h, m, vvTried[c], c);
    }
  }

  /** A rebuilt bucket never holds more than the one it came from. */
  lemma PlaceLeft(h: Hashes, m: InfoMap, vvTried: seq<seq<Id>>, origin: seq<Id>, nNew: int, m': InfoMap,
                  vvTried': seq<seq<Id>>, k: int)
    requires TriedOk(h, m, vvTried) && TriedOk(h, m', vvTried')
    requires Distinct(origin) && forall j :: 0 <= j < |origin| ==> origin[j] in m && (m[origin[j]].inTried <==> j >= nNew)
    requires 0 <= nNew <= k < |origin| && Rebuilt(m, origin, nNew, m', k)
    ensures |vvTried'[TriedBucket(h, m[origin[k]].address)]| < TRIED_BUCKET_SIZE
  {
    var b := TriedBucket(h, m[origin[k]].address);
    var bucket' := vvTried'[b];
    assert BucketOk(h, m', bucket', b) && BucketOk(h, m, vvTried[b], b);
    var s := seq(|bucket'|, i requires 0 <= i < |bucket'| => origin[bucket'[i]]) + [origin[k]];
    forall i | 0 <= i < |s| ensures s[i] in vvTried[b] {
      if i < |bucket'| {
        assert bucket'[i] in m' && m'[bucket'[i]].inTried;
        assert m'[bucket'[i]].address == m[origin[bucket'[i]]].address;
      }
      var o := s[i];
      assert o in m && m[o].inTried && TriedBucket(h, m[o].address) == b;
    }
    SublistSize(s, vvTried[b]);
  }

  /** The second phase: tried entries follow, each in the bucket its address hashes to. None is lost. */
  method ReadTried(h: Hashes, infos: seq<Stored>, mapInfo0: InfoMap, mapAddr0: map<NetAddr, Id>, vRandom0: seq<Id>,
                   ghost m: InfoMap, ghost addrs: map<NetAddr, Id>, ghost random: seq<Id>, ghost tried: seq<seq<Id>>,
                   ghost origin: seq<Id>, ghost nNew: nat)
    returns (mapInfo: InfoMap, mapAddr: map<NetAddr, Id>, vRandom: seq<Id>, vvTried: seq<seq<Id>>, nIdCount: int, nLost: int)
    requires IndexOk(m, addrs, random) && TriedOk(h, m, tried)
    requires Distinct(origin) && forall j :: 0 <= j < |origin| ==> origin[j] in m && (m[origin[j]].inTried <==> j >= nNew)
    requires nNew + |infos| == |origin| && AllStored(infos, m, origin[nNew..])
    requires Rebuilt(m, origin, nNew, mapInfo0, nNew) && IndexOk(mapInfo0, mapAddr0, vRandom0) && |vRandom0| == nNew
    ensures Rebuilt(m, origin, nNew, mapInfo, |origin|) && IndexOk(mapInfo, mapAddr, vRandom) && |vRandom| == |origin|
    ensures TriedOk(h, mapInfo, vvTried) && nIdCount == |origin| && nLost == 0
  {
    mapInfo, mapAddr, vRandom := mapInfo0, mapAddr0, vRandom0;
    vvTried := seq(TRIED_BUCKET_COUNT, _ => []);
    nIdCount, nLost := |vRandom0|, 0;
    for n := 0 to |infos|
      invariant nIdCount == nNew + n && nLost == 0 && |vRandom| == nIdCount
      invariant Rebuilt(m, origin, nNew, mapInfo, nNew + n) && IndexOk(mapInfo, mapAddr, vRandom)
      invariant TriedOk(h, mapInfo, vvTried)
    {
      assert origin[nNew..][n] == origin[nNew + n] && infos[n] == Store(m[origin[nNew + n]]);
      FreshAddress(m, addrs, random, origin, nNew, mapInfo, mapAddr, vRandom, nNew + n);
      PlaceLeft(h, m, tried, origin, nNew, mapInfo, vvTried, nNew + n);
      var b := TriedBucket(h, infos[n].address);
      if |vvTried[b]| < TRIED_BUCKET_SIZE {
        var info := Restore(infos[n], |vRandom|, true);
        AppendNewcomer(mapInfo, mapAddr, vRandom, nIdCount, info);
        AppendTried(h, mapInfo, vvTried, nIdCount, info);
        vRandom := vRandom + [nIdCount];
        mapInfo := mapInfo[nIdCount := info];
        mapAddr := mapAddr[info.address.ip := nIdCount];
        vvTried := vvTried[b := vvTried[b] + [nIdCount]];
        nIdCount := nIdCount + 1;
      } else {
        nLost := nLost + 1;
      }
    }
  }

  /** The members of a bucket under their new numbers. */
  ghost function Image(vNew: set<Id>, ids: seq<Id>): set<int> {
    set k | 0 <= k < |ids| && ids[k] in vNew
  }

  /** Counts of new entries, which come first, follow the buckets; entries are otherwise as in `m`. */
  ghost predicate Counted(m: InfoMap, m': InfoMap, vv: seq<set<Id>>, nNew: nat) {
    && m'.Keys == m.Keys
    && (forall n :: n in m ==> m'[n] == m[n].(refCount := if n < nNew then |Holders(vv, n)| else 0))
  }

  ghost predicate Within(vv: seq<set<Id>>, orig: seq<set<Id>>, ids: seq<Id>) {
    |vv| == |orig| && forall b :: 0 <= b < |vv| ==> vv[b] <= Image(orig[b], ids)
  }

  lemma CountBelow(vv: seq<set<Id>>, orig: seq<set<Id>>, ids: seq<Id>, b: nat, k: nat)
    requires Within(vv, orig, ids) && b < |vv| && k < |ids| && k !in vv[b] && ids[k] in orig[b]
    ensures |Holders(vv, k)| < |Holders(orig, ids[k])|
  {
    assert Holders(vv, k) <= Holders(orig, ids[k]) - {b} by {
      forall c | c in Holders(vv, k) ensures c in Holders(orig, ids[k]) {
        assert k in Image(orig[c], ids);
      }
    }
    SubsetSize(Holders(vv, k), Holders(orig, ids[k]) - {b});
    assert b in Holders(orig, ids[k]);
  }

  lemma CountOneMore(m: InfoMap, m': InfoMap, vv: seq<set<Id>>, nNew: nat, b: nat, k: nat)
    requires Counted(m, m', vv, nNew) && b < |vv| && k < nNew && k in m && k !in vv[b]
    ensures Counted(m, m'[k := m'[k].(refCount := m'[k].refCount + 1)], vv[b := vv[b] + {k}], nNew)
  {
    HoldersAdd(vv, b, k);
    assert k in m'.Keys;
  }

  /** One bucket read back: its indices become ids. The limit on new buckets per address never bites. */
  method ReadBucket(bucket: seq<int>, b: nat, mapInfo0: InfoMap, vv0: seq<set<Id>>, ghost m: InfoMap,
                    ghost orig: seq<set<Id>>, ghost ids: seq<Id>)
    returns (mapInfo: InfoMap, vv: seq<set<Id>>)
    requires b < |vv0| && Within(vv0, orig, ids) && vv0[b] == {} && Indexed(bucket, orig[b], ids)
    requires forall k :: 0 <= k < |ids| ==> k in m && |Holders(orig, ids[k])| <= NEW_BUCKETS_PER_ADDRESS
    requires Counted(m, mapInfo0, vv0, |ids|)
    ensures Counted(m, mapInfo, vv, |ids|) && Within(vv, orig, ids)
    ensures vv == vv0[b := Image(orig[b], ids)] && |vv[b]| == |bucket|
  {
    mapInfo, vv := mapInfo0, vv0;
    assert |vv0| == |orig|;
    hide Holders, Counted, Within;
    for n := 0 to |bucket|
      invariant Counted(m, mapInfo, vv, |ids|) && Within(vv, orig, ids)
      invariant |vv| == |vv0| && vv == vv0[b := vv[b]] && |vv[b]| == n && vv[b] == Elements(bucket[..n])
    {
      var nIndex := bucket[n];
      assert nIndex in bucket && nIndex !in bucket[..n] && bucket[..n + 1] == bucket[..n] + [nIndex];
      BucketStep(m, mapInfo, vv, orig, ids, b, nIndex);
      if mapInfo[nIndex].refCount < NEW_BUCKETS_PER_ADDRESS {
        mapInfo := mapInfo[nIndex := mapInfo[nIndex].(refCount := mapInfo[nIndex].refCount + 1)];
        vv := vv[b := vv[b] + {nIndex}];
      }
    }
    assert bucket[..|bucket|] == bucket;
    assert vv[b] == Image(orig[b], ids);
  }

  /** One index read. */
  lemma BucketStep(m: InfoMap, m': InfoMap, vv: seq<set<Id>>, orig: seq<set<Id>>, ids: seq<Id>, b: nat, k: nat)
    requires Counted(m, m', vv, |ids|) && Within(vv, orig, ids) && b < |vv| && k < |ids| && k in m
    requires k !in vv[b] && ids[k] in orig[b] && |Holders(orig, ids[k])| <= NEW_BUCKETS_PER_ADDRESS
    ensures k in m' && m'[k].refCount < NEW_BUCKETS_PER_ADDRESS
    ensures Counted(m, m'[k := m'[k].(refCount := m'[k].refCount + 1)], vv[b := vv[b] + {k}], |ids|)
    ensures Within(vv[b := vv[b] + {k}], orig, ids)
  {
    assert k in m.Keys && k in m'.Keys;
    CountBelow(vv, orig, ids, b, k);
    CountOneMore(m, m', vv, |ids|, b, k);
  }

  /** The third phase: memberships and reference counts. */
  method ReadBuckets(buckets: seq<seq<int>>, m: InfoMap, ghost orig: seq<set<Id>>, ghost ids: seq<Id>)
    returns (mapInfo: InfoMap, vv: seq<set<Id>>)
    requires |buckets| == |orig| && forall b :: 0 <= b < |orig| ==> Indexed(buckets[b], orig[b], ids)
    requires forall k :: 0 <= k < |ids| ==> k in m && |Holders(orig, ids[k])| <= NEW_BUCKETS_PER_ADDRESS
    requires forall n :: n in m ==> m[n].refCount == 0
    ensures Counted(m, mapInfo, vv, |ids|)
    ensures |vv| == |orig| && forall b :: 0 <= b < |vv| ==> vv[b] == Image(orig[b], ids) && |vv[b]| == |orig[b]|
  {
    mapInfo := m;
    vv := seq(|buckets|, _ => {});
    assert forall n :: Holders(vv, n) == {};
    hide Holders;
    for b := 0 to |buckets|
      invariant Counted(m, mapInfo, vv, |ids|) && Within(vv, orig, ids)
      invariant forall c :: 0 <= c < b ==> vv[c] == Image(orig[c], ids) && |vv[c]| == |orig[c]|
      invariant forall c :: b <= c < |vv| ==> vv[c] == {}
    {
      mapInfo, vv := ReadBucket(buckets[b], b, mapInfo, vv, m, orig, ids);
    }
  }

  // ---------------------------------------------------------------- the round trip

  /** The same addresses, statistics (but for the last try) and bucket memberships, under ids renumbered by
      `origin`. */
  ghost predicate SameBook(m: InfoMap, vvTried: seq<seq<Id>>, vvNew: seq<set<Id>>, m': InfoMap, vvTried': seq<seq<Id>>,
                           vvNew': seq<set<Id>>, origin: seq<Id>) {
    && Numbers(origin, m.Keys)
    && (forall k :: k in m' <==> 0 <= k < |origin|)
    && (forall k :: k in m' ==> origin[k] in m && m'[k] == m[origin[k]].(lastTry := 0, randomPos := k))
    && |vvNew'| == |vvNew|
    && (forall b :: 0 <= b < |vvNew| ==> vvNew'[b] == Image(vvNew[b], origin))
    && |vvTried'| == |vvTried|
    && (forall b :: 0 <= b < |vvTried| ==> SameBucket(vvTried'[b], vvTried[b], origin))
  }

  /** The same members, renumbered, in any order. */
  ghost predicate SameBucket(bucket': seq<Id>, bucket: seq<Id>, origin: seq<Id>) {
    |bucket'| == |bucket| && forall k :: k in bucket' <==> 0 <= k < |origin| && origin[k] in bucket
  }

  /** New entries numbered before tried ones: a numbering of all. */
  lemma OriginNumbers(m: InfoMap, newIds: seq<Id>, triedIds: seq<Id>)
    requires Numbers(newIds, NewIds(m)) && Numbers(triedIds, TriedIds(m))
    ensures Numbers(newIds + triedIds, m.Keys)
    ensures forall j :: 0 <= j < |newIds + triedIds| ==>
              (newIds + triedIds)[j] in m && (m[(newIds + triedIds)[j]].inTried <==> j >= |newIds|)
    ensures |newIds| == |NewIds(m)| && |triedIds| == |TriedIds(m)|
  {
    var origin := newIds + triedIds;
    forall j | 0 <= j < |origin| ensures origin[j] in m && (m[origin[j]].inTried <==> j >= |newIds|) {
      if j < |newIds| {
        assert origin[j] == newIds[j];
        assert origin[j] in newIds;
        assert origin[j] in NewIds(m);
      } else {
        assert origin[j] == triedIds[j - |newIds|];
        assert origin[j] in triedIds;
        assert origin[j] in TriedIds(m);
      }
    }
    forall x ensures x in origin <==> x in m.Keys {
      assert x in origin <==> x in newIds || x in triedIds;
      assert x in m.Keys <==> x in NewIds(m) || x in TriedIds(m);
    }
    DistinctSize(newIds);
    DistinctSize(triedIds);
    assert Elements(newIds) == NewIds(m) && Elements(triedIds) == TriedIds(m);
  }

  /** Counts filled in do not disturb the indexes and the tried table. */
  lemma CountedKeeps(h: Hashes, m: InfoMap, m': InfoMap, vv: seq<set<Id>>, nNew: nat, addrs: map<NetAddr, Id>,
                     vRandom: seq<Id>, vvTried: seq<seq<Id>>)
    requires IndexOk(m, addrs, vRandom) && TriedOk(h, m, vvTried) && Counted(m, m', vv, nNew)
    requires forall n :: n in m ==> (m[n].inTried <==> n >= nNew)
    ensures IndexOk(m', addrs, vRandom) && TriedOk(h, m', vvTried)
  {
    forall n ensures n in m' <==> n in m { assert n in m'.Keys <==> n in m.Keys; }
    MovedKeepsIndex(m, m', addrs, vRandom);
    forall b | 0 <= b < |vvTried| ensures BucketOk(h, m', vvTried[b], b) {
      assert BucketOk(h, m, vvTried[b], b);
      forall i | 0 <= i < |vvTried[b]| ensures
          vvTried[b][i] in m' && m'[vvTried[b][i]].inTried && TriedBucket(h, m'[vvTried[b][i]].address) == b {
        var n := vvTried[b][i];
        assert n in m && m'[n] == m[n].(refCount := m'[n].refCount);
      }
    }
  }

  /** An entry is in as many rebuilt buckets as it was in original ones. */
  lemma SameHolders(orig: seq<set<Id>>, vv: seq<set<Id>>, ids: seq<Id>, k: nat)
    requires |vv| == |orig| && k < |ids| && forall b :: 0 <= b < |vv| ==> vv[b] == Image(orig[b], ids)
    ensures Holders(vv, k) == Holders(orig, ids[k])
  {
    forall b ensures b in Holders(vv, k) <==> b in Holders(orig, ids[k]) {
      if 0 <= b < |vv| { assert vv[b] == Image(orig[b], ids); }
    }
  }

  lemma LoadedKeys(m: InfoMap, origin: seq<Id>, nNew: nat, m1: InfoMap, m2: InfoMap, vv: seq<set<Id>>)
    requires nNew <= |origin| && forall j :: 0 <= j < |origin| ==> origin[j] in m
    requires Rebuilt(m, origin, nNew, m1, |origin|) && Counted(m1, m2, vv, nNew)
    ensures forall k :: (k in m2 <==> 0 <= k < |origin|) && (k in m1 <==> k in m2)
  {
    forall k ensures k in m2 <==> 0 <= k < |origin| { assert k in m2.Keys <==> k in m1.Keys; }
  }

  /** One rebuilt entry. */
  lemma LoadedEntry(m: InfoMap, orig: seq<set<Id>>, newIds: seq<Id>, triedIds: seq<Id>, m1: InfoMap, m2: InfoMap,
                    vv: seq<set<Id>>, k: Id)
    requires NewOk(m, orig, None) && 0 <= k < |newIds + triedIds| && k in m1 && k in m2
    requires forall n :: n in m && m[n].inTried ==> m[n].refCount == 0
    requires forall j :: 0 <= j < |newIds + triedIds| ==>
               (newIds + triedIds)[j] in m && (m[(newIds + triedIds)[j]].inTried <==> j >= |newIds|)
    requires Rebuilt(m, newIds + triedIds, |newIds|, m1, |newIds + triedIds|) && Counted(m1, m2, vv, |newIds|)
    requires |vv| == |orig| && forall b :: 0 <= b < |vv| ==> vv[b] == Image(orig[b], newIds)
    ensures m2[k] == m[(newIds + triedIds)[k]].(lastTry := 0, randomPos := k)
    ensures !m2[k].inTried ==> 1 <= m2[k].refCount <= NEW_BUCKETS_PER_ADDRESS && m2[k].refCount == |Holders(vv, k)|
  {
    var o := (newIds + triedIds)[k];
    assert m1[k] == Restore(Store(m[o]), k, k >= |newIds|);
    hide Holders, Image;
    if k < |newIds| { SameHolders(orig, vv, newIds, k); }
  }

  /** The rebuilt new table and entries are consistent, and each entry is as it was. */
  lemma LoadedNew(m: InfoMap, orig: seq<set<Id>>, newIds: seq<Id>, triedIds: seq<Id>, m1: InfoMap, m2: InfoMap,
                  vv: seq<set<Id>>)
    requires NewOk(m, orig, None) && Numbers(newIds, NewIds(m)) && Numbers(triedIds, TriedIds(m))
    requires forall n :: n in m && m[n].inTried ==> m[n].refCount == 0
    requires forall j :: 0 <= j < |newIds + triedIds| ==> (newIds + triedIds)[j] in m
    requires Rebuilt(m, newIds + triedIds, |newIds|, m1, |newIds + triedIds|) && Counted(m1, m2, vv, |newIds|)
    requires |vv| == |orig| && forall b :: 0 <= b < |vv| ==> vv[b] == Image(orig[b], newIds) && |vv[b]| == |orig[b]|
    ensures NewOk(m2, vv, None)
    ensures forall k :: k in m2 <==> 0 <= k < |newIds + triedIds|
    ensures forall k :: k in m2 ==> m2[k] == m[(newIds + triedIds)[k]].(lastTry := 0, randomPos := k)
  {
    var origin := newIds + triedIds;
    OriginNumbers(m, newIds, triedIds);
    LoadedKeys(m, origin, |newIds|, m1, m2, vv);
    hide Counted, Rebuilt, Holders, Numbers, Restore, Store;
    forall k | k in m2 ensures m2[k] == m[origin[k]].(lastTry := 0, randomPos := k) {
      LoadedEntry(m, orig, newIds, triedIds, m1, m2, vv, k);
    }
    forall k | k in m2 && !m2[k].inTried
      ensures 1 <= m2[k].refCount <= NEW_BUCKETS_PER_ADDRESS && m2[k].refCount == |Holders(vv, k)| {
      LoadedEntry(m, orig, newIds, triedIds, m1, m2, vv, k);
    }
    forall b, n | 0 <= b < |vv| && n in vv[b] ensures n in m2 && !m2[n].inTried {
      assert n in Image(orig[b], newIds);
      assert m2[n] == m[origin[n]].(lastTry := 0, randomPos := n);
    }
  }

  /** The rebuilt tried table has the original memberships. */
  lemma LoadedTried(h: Hashes, m: InfoMap, vvTried: seq<seq<Id>>, m': InfoMap, vvTried': seq<seq<Id>>, origin: seq<Id>)
    requires TriedOk(h, m, vvTried) && TriedOk(h, m', vvTried') && Numbers(origin, m.Keys)
    requires forall k :: k in m' <==> 0 <= k < |origin|
    requires forall k :: k in m' ==> origin[k] in m && m'[k].address == m[origin[k]].address
                                     && m'[k].inTried == m[origin[k]].inTried
    ensures forall b :: 0 <= b < |vvTried| ==> SameBucket(vvTried'[b], vvTried[b], origin)
  {
    forall b | 0 <= b < |vvTried| ensures SameBucket(vvTried'[b], vvTried[b], origin) {
      assert BucketOk(h, m', vvTried'[b], b) && BucketOk(h, m, vvTried[b], b);
      forall k ensures k in vvTried'[b] <==> 0 <= k < |origin| && origin[k] in vvTried[b] {
        if 0 <= k < |origin| {
          var o := origin[k];
          assert k in m' && o in m;
        }
      }
      SameLength(h, m, m', vvTried[b], vvTried'[b], origin, b);
    }
  }

  lemma SameLength(h: Hashes, m: InfoMap, m': InfoMap, bucket: seq<Id>, bucket': seq<Id>, origin: seq<Id>, b: int)
    requires BucketOk(h, m, bucket, b) && BucketOk(h, m', bucket', b) && Numbers(origin, m.Keys)
    requires forall k :: k in bucket' <==> 0 <= k < |origin| && origin[k] in bucket
    ensures |bucket'| == |bucket|
  {
    forall i | 0 <= i < |bucket'| ensures 0 <= bucket'[i] < |origin| { assert bucket'[i] in bucket'; }
    var s := seq(|bucket'|, i requires 0 <= i < |bucket'| => origin[bucket'[i]]);
    forall x ensures x in s <==> x in bucket {
      if x in s {
        var i :| 0 <= i < |s| && s[i] == x;
        assert bucket'[i] in bucket';
      }
      if x in bucket {
        assert x in m.Keys && x in origin;
        var k :| 0 <= k < |origin| && origin[k] == x;
        assert k in bucket';
        var i :| 0 <= i < |bucket'| && bucket'[i] == k;
        assert s[i] == x;
      }
    }
    SublistSize(s, bucket);
    SublistSize(bucket, s);
  }

  /** The entries of a file: the new ones, then the tried ones. */
  method ReadEntries(s: Saved, h: Hashes, ghost m: InfoMap, ghost addrs: map<NetAddr, Id>, ghost random: seq<Id>,
                     ghost tried: seq<seq<Id>>, ghost orig: seq<set<Id>>, ghost newIds: seq<Id>, ghost triedIds: seq<Id>)
    returns (mapInfo: InfoMap, mapAddr: map<NetAddr, Id>, vRandom: seq<Id>, vvTried: seq<seq<Id>>, nIdCount: int, nLost: int)
    requires IndexOk(m, addrs, random) && TriedOk(h, m, tried) && NewOk(m, orig, None)
    requires FileOf(s, m, orig, newIds, triedIds)
    ensures var origin := newIds + triedIds;
            Rebuilt(m, origin, |newIds|, mapInfo, |origin|) && |vRandom| == |origin| == nIdCount && nLost == 0
    ensures IndexOk(mapInfo, mapAddr, vRandom) && TriedOk(h, mapInfo, vvTried)
  {
    ghost var origin := newIds + triedIds;
    FileReadable(s, h, m, tried, orig, newIds, triedIds);
    hide IndexOk, TriedOk, NewOk, Rebuilt, AllStored, Distinct, FileOf, Numbers, Indexed, Holders;
    mapInfo, mapAddr, vRandom := ReadNew(s.newInfos, m, addrs, random, origin);
    mapInfo, mapAddr, vRandom, vvTried, nIdCount, nLost :=
      ReadTried(h, s.triedInfos, mapInfo, mapAddr, vRandom, m, addrs, random, tried, origin, |newIds|);
  }

  /** Its buckets, for the entries just read. */
  method ReadTables(s: Saved, h: Hashes, m1: InfoMap, ghost m: InfoMap, ghost tried: seq<seq<Id>>, ghost orig: seq<set<Id>>,
                    ghost newIds: seq<Id>, ghost triedIds: seq<Id>)
    returns (mapInfo: InfoMap, vvNew: seq<set<Id>>)
    requires TriedOk(h, m, tried) && NewOk(m, orig, None) && FileOf(s, m, orig, newIds, triedIds)
    requires Rebuilt(m, newIds + triedIds, |newIds|, m1, |newIds + triedIds|)
    ensures Counted(m1, mapInfo, vvNew, |newIds|)
    ensures |vvNew| == |orig| && forall b :: 0 <= b < |vvNew| ==> vvNew[b] == Image(orig[b], newIds) && |vvNew[b]| == |orig[b]|
  {
    FileReadable(s, h, m, tried, orig, newIds, triedIds);
    RebuiltReadable(m, newIds + triedIds, |newIds|, m1, newIds);
    hide TriedOk, NewOk, Rebuilt, AllStored, Distinct, FileOf, Numbers, Indexed, Holders, Counted, Image;
    mapInfo, vvNew := ReadBuckets(s.buckets, m1, orig, newIds);
  }

  /** Reading a whole file, as three phases. */
  method ReadAll(s: Saved, h: Hashes, ghost m: InfoMap, ghost addrs: map<NetAddr, Id>, ghost random: seq<Id>,
                 ghost tried: seq<seq<Id>>, ghost orig: seq<set<Id>>, ghost newIds: seq<Id>, ghost triedIds: seq<Id>)
    returns (mapInfo: InfoMap, mapAddr: map<NetAddr, Id>, vRandom: seq<Id>, vvTried: seq<seq<Id>>, nIdCount: int,
             nLost: int, vvNew: seq<set<Id>>)
    requires IndexOk(m, addrs, random) && TriedOk(h, m, tried) && NewOk(m, orig, None)
    requires FileOf(s, m, orig, newIds, triedIds)
    ensures IndexOk(mapInfo, mapAddr, vRandom) && TriedOk(h, mapInfo, vvTried) && NewOk(mapInfo, vvNew, None)
    ensures CountsOk(mapInfo, vRandom, s.nTried - nLost, s.nNew, nIdCount) && nLost == 0
    ensures SameBook(m, tried, orig, mapInfo, vvTried, vvNew, newIds + triedIds)
  {
    hide IndexOk, TriedOk, NewOk, Holders, SameBook, FileOf, CountsOk, Rebuilt, Counted, Numbers, AllStored, SameBucket, Indexed, Image, Distinct;
    mapInfo, mapAddr, vRandom, vvTried, nIdCount, nLost := ReadEntries(s, h, m, addrs, random, tried, orig, newIds, triedIds);
    ghost var m1 := mapInfo;
    mapInfo, vvNew := ReadTables(s, h, mapInfo, m, tried, orig, newIds, triedIds);
    LoadedBook(s, h, m, tried, orig, newIds, triedIds, m1, mapInfo, mapAddr, vRandom, vvTried, vvNew, nIdCount);
  }

  /** The tables after the three phases. */
  lemma LoadedBook(s: Saved, h: Hashes, m: InfoMap, tried: seq<seq<Id>>, orig: seq<set<Id>>, newIds: seq<Id>, triedIds: seq<Id>,
                   m1: InfoMap, m2: InfoMap, addrs: map<NetAddr, Id>, vRandom: seq<Id>, tried': seq<seq<Id>>,
                   vv: seq<set<Id>>, nIdCount: int)
    requires TriedOk(h, m, tried) && NewOk(m, orig, None) && FileOf(s, m, orig, newIds, triedIds)
    requires Rebuilt(m, newIds + triedIds, |newIds|, m1, |newIds + triedIds|) && Counted(m1, m2, vv, |newIds|)
    requires IndexOk(m1, addrs, vRandom) && TriedOk(h, m1, tried') && |vRandom| == |newIds + triedIds| == nIdCount
    requires |vv| == |orig| && forall b :: 0 <= b < |vv| ==> vv[b] == Image(orig[b], newIds) && |vv[b]| == |orig[b]|
    ensures IndexOk(m2, addrs, vRandom) && TriedOk(h, m2, tried') && NewOk(m2, vv, None)
    ensures CountsOk(m2, vRandom, s.nTried, s.nNew, nIdCount)
    ensures SameBook(m, tried, orig, m2, tried', vv, newIds + triedIds)
  {
    assert |tried| == |tried'|;
    FileReadable(s, h, m, tried, orig, newIds, triedIds);
    RebuiltReadable(m, newIds + triedIds, |newIds|, m1, newIds);
    hide IndexOk, TriedOk, NewOk, Holders, SameBook, CountsOk, Rebuilt, Counted, Numbers, SameBucket, Image, FileOf, Indexed, AllStored, Distinct;
    CountedKeeps(h, m1, m2, vv, |newIds|, addrs, vRandom, tried');
    LoadedNew(m, orig, newIds, triedIds, m1, m2, vv);
    LoadedTried(h, m, tried, m2, tried', newIds + triedIds);
    LoadedCounts(m, m2, newIds, triedIds);
    BookIsSame(m, tried, orig, m2, tried', vv, newIds, triedIds, vRandom, nIdCount);
  }

  /** What the phases of reading need of a file. */
  lemma FileReadable(s: Saved, h: Hashes, m: InfoMap, tried: seq<seq<Id>>, orig: seq<set<Id>>, newIds: seq<Id>, triedIds: seq<Id>)
    requires TriedOk(h, m, tried) && NewOk(m, orig, None) && FileOf(s, m, orig, newIds, triedIds)
    ensures var origin := newIds + triedIds;
            && origin[..|newIds|] == newIds && origin[|newIds|..] == triedIds
            && Distinct(origin) && Numbers(origin, m.Keys)
            && (forall j :: 0 <= j < |origin| ==> origin[j] in m && (m[origin[j]].inTried <==> j >= |newIds|))
    ensures Numbers(newIds, NewIds(m)) && Numbers(triedIds, TriedIds(m))
    ensures |s.newInfos| == |newIds| == s.nNew && |s.triedInfos| == |triedIds| == s.nTried
    ensures AllStored(s.newInfos, m, newIds) && AllStored(s.triedInfos, m, triedIds)
    ensures |s.buckets| == |orig| && forall b :: 0 <= b < |orig| ==> Indexed(s.buckets[b], orig[b], newIds)
    ensures forall k :: 0 <= k < |newIds| ==> |Holders(orig, newIds[k])| <= NEW_BUCKETS_PER_ADDRESS
    ensures forall n :: n in m && m[n].inTried ==> m[n].refCount == 0
  {
    OriginNumbers(m, newIds, triedIds);
    forall k | 0 <= k < |newIds| ensures |Holders(orig, newIds[k])| <= NEW_BUCKETS_PER_ADDRESS {
      assert newIds[k] == (newIds + triedIds)[k];
    }
  }

  lemma RebuiltReadable(m: InfoMap, origin: seq<Id>, nNew: nat, m1: InfoMap, newIds: seq<Id>)
    requires nNew == |newIds| <= |origin| && forall j :: 0 <= j < |origin| ==> origin[j] in m
    requires Rebuilt(m, origin, nNew, m1, |origin|)
    ensures forall k :: 0 <= k < |newIds| ==> k in m1
    ensures forall n :: n in m1 ==> m1[n].refCount == 0 && (m1[n].inTried <==> n >= nNew)
  {
  }

  lemma BookIsSame(m: InfoMap, tried: seq<seq<Id>>, orig: seq<set<Id>>, m': InfoMap, tried': seq<seq<Id>>, vv: seq<set<Id>>,
                   newIds: seq<Id>, triedIds: seq<Id>, vRandom: seq<Id>, nIdCount: int)
    requires NewOk(m, orig, None) && |vRandom| == |newIds + triedIds| == nIdCount
    requires Numbers(newIds, NewIds(m)) && Numbers(triedIds, TriedIds(m))
    requires |NewIds(m')| == |newIds| && |TriedIds(m')| == |triedIds|
    requires forall k :: k in m' <==> 0 <= k < |newIds + triedIds|
    requires forall k :: k in m' ==> (newIds + triedIds)[k] in m
                                     && m'[k] == m[(newIds + triedIds)[k]].(lastTry := 0, randomPos := k)
    requires |vv| == |orig| && forall b :: 0 <= b < |vv| ==> vv[b] == Image(orig[b], newIds)
    requires |tried'| == |tried| && forall b :: 0 <= b < |tried| ==> SameBucket(tried'[b], tried[b], newIds + triedIds)
    ensures SameBook(m, tried, orig, m', tried', vv, newIds + triedIds)
    ensures CountsOk(m', vRandom, |triedIds|, |newIds|, nIdCount)
  {
    var origin := newIds + triedIds;
    OriginNumbers(m, newIds, triedIds);
    forall b | 0 <= b < |vv| ensures vv[b] == Image(orig[b], origin) {
      forall k ensures k in Image(orig[b], newIds) <==> k in Image(orig[b], origin) {
        if 0 <= k < |origin| && origin[k] in orig[b] {
          var o := origin[k];
          assert o in orig[b] && o in m && !m[o].inTried;
          assert k < |newIds| && newIds[k] == o;
        }
      }
    }
  }

  lemma LoadedCounts(m: InfoMap, m': InfoMap, newIds: seq<Id>, triedIds: seq<Id>)
    requires Numbers(newIds, NewIds(m)) && Numbers(triedIds, TriedIds(m))
    requires forall k :: k in m' <==> 0 <= k < |newIds + triedIds|
    requires forall k :: k in m' ==> (newIds + triedIds)[k] in m && m'[k].inTried == m[(newIds + triedIds)[k]].inTried
    ensures |NewIds(m')| == |newIds| && |TriedIds(m')| == |triedIds|
  {
    OriginNumbers(m, newIds, triedIds);
    var a, b := seq(|newIds|, i => i), seq(|triedIds|, i => |newIds| + i);
    DistinctSize(a);
    DistinctSize(b);
    forall k ensures k in NewIds(m') <==> k in Elements(a) {
      if 0 <= k < |newIds| { assert a[k] == k; }
    }
    forall k ensures k in TriedIds(m') <==> k in Elements(b) {
      if |newIds| <= k < |newIds + triedIds| { assert b[k - |newIds|] == k; }
    }
    assert NewIds(m') == Elements(a) && TriedIds(m') == Elements(b);
  }
}
