/** The address manager's tables and the consistency its Check_ asks of them. */
module AddrTables {
  import opened Basics

  const TRIED_BUCKET_COUNT: nat := 64
  const TRIED_BUCKET_SIZE: nat := 64
  const NEW_BUCKET_COUNT: nat := 256
  const NEW_BUCKET_SIZE: nat := 64
  const NEW_BUCKETS_PER_ADDRESS: nat := 4
  const TRIED_ENTRIES_INSPECT_ON_EVICT: nat := 4

  type NetAddr = int
  type Id = int

  /** CAddress: an address with port, the service bits set, and the time it was last seen. */
  datatype Address = Address(ip: NetAddr, port: nat, services: set<nat>, time: int, routable: bool)

  /** CAddrInfo. */
  datatype Info = Info(address: Address, source: NetAddr, lastSuccess: int, lastTry: int, attempts: int,
                       refCount: int, inTried: bool, randomPos: int)

  /** The keyed hashes behind bucket selection: the first depends on address and port, the second on the
      address and its source. */
  datatype Hashes = Hashes(triedHash: (NetAddr, nat) -> nat, newHash: (NetAddr, NetAddr) -> nat)

  function TriedBucket(h: Hashes, a: Address): (b: nat)
    ensures b < TRIED_BUCKET_COUNT
  {
    h.triedHash(a.ip, a.port) % TRIED_BUCKET_COUNT
  }

  function NewBucket(h: Hashes, a: Address, source: NetAddr): (b: nat)
    ensures b < NEW_BUCKET_COUNT
  {
    h.newHash(a.ip, source) % NEW_BUCKET_COUNT
  }

  /** IsTerrible, with its horizon of 30 days, 3 retries, and 10 failures within 7 days. */
  predicate IsTerrible(i: Info, now: int) {
    if i.lastTry != 0 && i.lastTry >= now - 60 then false
    else
      || i.address.time > now + 10 * 60
      || i.address.time == 0 || now - i.address.time > 30 * 86400
      || (i.lastSuccess == 0 && i.attempts >= 3)
      || (now - i.lastSuccess > 7 * 86400 && i.attempts >= 10)
  }

  type InfoMap = map<Id, Info>

  /** mapInfo, mapAddr and vRandom point at each other. */
  ghost predicate IndexOk(mapInfo: InfoMap, mapAddr: map<NetAddr, Id>, vRandom: seq<Id>) {
    && (forall n :: n in mapInfo ==>
          && 0 <= mapInfo[n].randomPos < |vRandom| && vRandom[mapInfo[n].randomPos] == n
          && mapInfo[n].address.ip in mapAddr && mapAddr[mapInfo[n].address.ip] == n)
    && (forall i :: 0 <= i < |vRandom| ==> vRandom[i] in mapInfo && mapInfo[vRandom[i]].randomPos == i)
    && (forall a :: a in mapAddr ==> mapAddr[a] in mapInfo && mapInfo[mapAddr[a]].address.ip == a)
  }

  /** No time is negative, and a tried entry has succeeded. */
  ghost predicate TimesOk(mapInfo: InfoMap) {
    forall n :: n in mapInfo ==>
      mapInfo[n].lastTry >= 0 && mapInfo[n].lastSuccess >= 0 && (mapInfo[n].inTried ==> mapInfo[n].lastSuccess != 0)
  }

  /** Each tried id sits exactly once, in the bucket its address hashes to. */
  ghost predicate TriedOk(h: Hashes, mapInfo: InfoMap, vvTried: seq<seq<Id>>) {
    && |vvTried| == 64
    && (forall b :: 0 <= b < |vvTried| ==> BucketOk(h, mapInfo, vvTried[b], b))
    && (forall n :: n in mapInfo && mapInfo[n].inTried ==>
          mapInfo[n].refCount == 0 && n in vvTried[TriedBucket(h, mapInfo[n].address)])
  }

  ghost predicate BucketOk(h: Hashes, mapInfo: InfoMap, bucket: seq<Id>, b: int) {
    && |bucket| <= 64
    && (forall i :: 0 <= i < |bucket| ==>
          bucket[i] in mapInfo && mapInfo[bucket[i]].inTried && TriedBucket(h, mapInfo[bucket[i]].address) == b)
    && Distinct(bucket)
  }

  ghost predicate Distinct(s: seq<Id>) {
    forall i, j :: 0 <= i < j < |s| ==> s[i] != s[j]
  }

  /** The new buckets that hold `n`. */
  ghost function Holders(vvNew: seq<set<Id>>, n: Id): set<int> {
    set b | 0 <= b < |vvNew| && n in vvNew[b]
  }

  /** Each id that is not tried sits in as many new buckets as its reference count says, one to four.
      `ex` is an id in transit, exempt from that. */
  ghost predicate NewOk(mapInfo: InfoMap, vvNew: seq<set<Id>>, ex: Option<Id>) {
    && |vvNew| == 256
    && (forall b :: 0 <= b < |vvNew| ==> |vvNew[b]| <= 64)
    && (forall b, n :: 0 <= b < |vvNew| && n in vvNew[b] ==> n in mapInfo && !mapInfo[n].inTried)
    && (forall n :: n in mapInfo && !mapInfo[n].inTried && Some(n) != ex ==>
          1 <= mapInfo[n].refCount <= 4 && mapInfo[n].refCount == |Holders(vvNew, n)|)
  }

  ghost function TriedIds(mapInfo: InfoMap): set<Id> { set n | n in mapInfo && mapInfo[n].inTried }

  ghost function NewIds(mapInfo: InfoMap): set<Id> { set n | n in mapInfo && !mapInfo[n].inTried }

  ghost predicate CountsOk(mapInfo: InfoMap, vRandom: seq<Id>, nTried: int, nNew: int, nIdCount: int) {
    && nTried == |TriedIds(mapInfo)| && nNew == |NewIds(mapInfo)|
    && |vRandom| == nTried + nNew
    && 0 <= nIdCount && forall n :: n in mapInfo ==> 0 <= n < nIdCount
  }

  // ---------------------------------------------------------------- single changes

  lemma HoldersRemove(vv: seq<set<Id>>, b: int, n: Id)
    requires 0 <= b < |vv| && n in vv[b]
    ensures Holders(vv[b := vv[b] - {n}], n) == Holders(vv, n) - {b}
    ensures |Holders(vv[b := vv[b] - {n}], n)| == |Holders(vv, n)| - 1
    ensures forall m :: m != n ==> Holders(vv[b := vv[b] - {n}], m) == Holders(vv, m)
  {
    var vv' := vv[b := vv[b] - {n}];
    assert Holders(vv', n) == Holders(vv, n) - {b};
    assert b in Holders(vv, n);
    forall m | m != n ensures Holders(vv', m) == Holders(vv, m) {
      forall x ensures x in Holders(vv', m) <==> x in Holders(vv, m) {}
    }
  }

  lemma HoldersAdd(vv: seq<set<Id>>, b: int, n: Id)
    requires 0 <= b < |vv| && n !in vv[b]
    ensures Holders(vv[b := vv[b] + {n}], n) == Holders(vv, n) + {b}
    ensures |Holders(vv[b := vv[b] + {n}], n)| == |Holders(vv, n)| + 1
    ensures forall m :: m != n ==> Holders(vv[b := vv[b] + {n}], m) == Holders(vv, m)
  {
    var vv' := vv[b := vv[b] + {n}];
    assert Holders(vv', n) == Holders(vv, n) + {b};
    assert b !in Holders(vv, n);
    forall m | m != n ensures Holders(vv', m) == Holders(vv, m) {
      forall x ensures x in Holders(vv', m) <==> x in Holders(vv, m) {}
    }
  }

  /** Two entries that agree on everything the tables rely on. */
  predicate SameStanding(a: Info, b: Info) {
    && a.address.ip == b.address.ip && a.address.port == b.address.port
    && a.refCount == b.refCount && a.inTried == b.inTried
  }

  /** Changing statistics, or positions, of entries leaves the bucket tables and counts in order. */
  lemma StandingKeepsTables(h: Hashes, m: InfoMap, m': InfoMap, vvTried: seq<seq<Id>>, vvNew: seq<set<Id>>, ex: Option<Id>)
    requires m'.Keys == m.Keys && forall n :: n in m ==> SameStanding(m[n], m'[n])
    ensures TriedOk(h, m, vvTried) ==> TriedOk(h, m', vvTried)
    ensures NewOk(m, vvNew, ex) ==> NewOk(m', vvNew, ex)
    ensures TriedIds(m') == TriedIds(m) && NewIds(m') == NewIds(m)
  {
    if TriedOk(h, m, vvTried) {
      forall b | 0 <= b < |vvTried| ensures BucketOk(h, m', vvTried[b], b) {
        assert BucketOk(h, m, vvTried[b], b);
      }
    }
    forall n ensures (n in TriedIds(m') <==> n in TriedIds(m)) && (n in NewIds(m') <==> n in NewIds(m)) {
      if n in m { assert SameStanding(m[n], m'[n]) && n in m'.Keys; }
      if n in m' { assert n in m.Keys; }
    }
    assert TriedIds(m') == TriedIds(m) && NewIds(m') == NewIds(m);
  }

  /** Entries differ in their place in vRandom at most. */
  ghost predicate OnlyMoved(m: InfoMap, m': InfoMap) {
    m'.Keys == m.Keys && forall n :: n in m ==> m'[n] == m[n].(randomPos := m'[n].randomPos)
  }

  /** The indexes do not depend on buckets, counts or statistics. */
  lemma MovedKeepsIndex(m: InfoMap, m': InfoMap, addrs: map<NetAddr, Id>, vRandom: seq<Id>)
    requires IndexOk(m, addrs, vRandom) && m'.Keys == m.Keys
    requires forall n :: n in m ==> m'[n].address.ip == m[n].address.ip && m'[n].randomPos == m[n].randomPos
    ensures IndexOk(m', addrs, vRandom)
  {
    forall n ensures n in m' <==> n in m { assert n in m'.Keys <==> n in m.Keys; }
  }

  /** Dropping the last place of vRandom together with its entry. */
  lemma DropLast(m: InfoMap, addrs: map<NetAddr, Id>, vRandom: seq<Id>)
    requires IndexOk(m, addrs, vRandom) && |vRandom| > 0
    ensures var n := vRandom[|vRandom| - 1];
            n in m && IndexOk(m - {n}, addrs - {m[n].address.ip}, vRandom[..|vRandom| - 1])
  {
    var last := |vRandom| - 1;
    var n := vRandom[last];
    var m', addrs', v := m - {n}, addrs - {m[n].address.ip}, vRandom[..last];
    forall k | k in m'
      ensures 0 <= m'[k].randomPos < |v| && v[m'[k].randomPos] == k
      ensures m'[k].address.ip in addrs' && addrs'[m'[k].address.ip] == k
    {
      assert vRandom[m[k].randomPos] == k != vRandom[last];
    }
    forall i | 0 <= i < |v| ensures v[i] in m' && m'[v[i]].randomPos == i {
      assert m[vRandom[i]].randomPos == i && m[vRandom[last]].randomPos == last;
    }
  }

  /** A new entry whose last holder lets go of it can be erased. */
  lemma LastHolderGone(h: Hashes, m: InfoMap, vvTried: seq<seq<Id>>, vvNew: seq<set<Id>>, b: int, n: Id, ex: Option<Id>)
    requires TriedOk(h, m, vvTried) && NewOk(m, vvNew, ex) && Some(n) != ex
    requires 0 <= b < |vvNew| && n in vvNew[b] && m[n].refCount == 1
    ensures TriedOk(h, m - {n}, vvTried) && NewOk(m - {n}, vvNew[b := vvNew[b] - {n}], ex)
    ensures TriedIds(m - {n}) == TriedIds(m) && NewIds(m - {n}) == NewIds(m) - {n}
    ensures |NewIds(m - {n})| == |NewIds(m)| - 1
  {
    var m', vv := m - {n}, vvNew[b := vvNew[b] - {n}];
    forall c | 0 <= c < |vvTried| ensures BucketOk(h, m', vvTried[c], c) {
      assert BucketOk(h, m, vvTried[c], c);
    }
    HoldersRemove(vvNew, b, n);
    assert Holders(vv, n) == {};
    forall c, k | 0 <= c < |vv| && k in vv[c] ensures k in m' && !m'[k].inTried {
      assert k in vvNew[c];
      assert c !in Holders(vv, n);
    }
    assert NewIds(m') == NewIds(m) - {n} && n in NewIds(m);
  }

  /** The tables once the last holder has let go and the entry is erased. */
  lemma ErasedTables(h: Hashes, m: InfoMap, m': InfoMap, vvTried: seq<seq<Id>>, vvNew: seq<set<Id>>, b: int, n: Id,
                     ex: Option<Id>)
    requires TriedOk(h, m, vvTried) && NewOk(m, vvNew, ex) && Some(n) != ex
    requires 0 <= b < |vvNew| && n in vvNew[b] && m[n].refCount == 1
    requires m'.Keys == m.Keys - {n} && OthersMoved(m, m', n)
    ensures TriedOk(h, m', vvTried) && NewOk(m', vvNew[b := vvNew[b] - {n}], ex)
    ensures |TriedIds(m')| == |TriedIds(m)| && |NewIds(m')| == |NewIds(m)| - 1
  {
    LastHolderGone(h, m, vvTried, vvNew, b, n, ex);
    StandingKeepsTables(h, m - {n}, m', vvTried, vvNew[b := vvNew[b] - {n}], ex);
  }

  /** One of several holders lets go. */
  lemma OneHolderLess(h: Hashes, m: InfoMap, vvTried: seq<seq<Id>>, vvNew: seq<set<Id>>, b: int, n: Id, ex: Option<Id>)
    requires TriedOk(h, m, vvTried) && NewOk(m, vvNew, ex) && Some(n) != ex
    requires 0 <= b < |vvNew| && n in vvNew[b] && m[n].refCount > 1
    ensures var m' := m[n := m[n].(refCount := m[n].refCount - 1)];
            && TriedOk(h, m', vvTried) && NewOk(m', vvNew[b := vvNew[b] - {n}], ex)
            && TriedIds(m') == TriedIds(m) && NewIds(m') == NewIds(m)
  {
    var m' := m[n := m[n].(refCount := m[n].refCount - 1)];
    forall c | 0 <= c < |vvTried| ensures BucketOk(h, m', vvTried[c], c) {
      assert BucketOk(h, m, vvTried[c], c);
    }
    HoldersRemove(vvNew, b, n);
  }

  /** The count of an id in transit may run ahead. */
  lemma CountInTransit(h: Hashes, m: InfoMap, vvTried: seq<seq<Id>>, vvNew: seq<set<Id>>, n: Id, c: int)
    requires TriedOk(h, m, vvTried) && NewOk(m, vvNew, Some(n)) && n in m && !m[n].inTried
    ensures var m' := m[n := m[n].(refCount := c)];
            && TriedOk(h, m', vvTried) && NewOk(m', vvNew, Some(n))
            && TriedIds(m') == TriedIds(m) && NewIds(m') == NewIds(m)
  {
    var m' := m[n := m[n].(refCount := c)];
    forall b | 0 <= b < |vvTried| ensures BucketOk(h, m', vvTried[b], b) {
      assert BucketOk(h, m, vvTried[b], b);
    }
  }

  /** An id whose count is one ahead of its buckets joins a bucket with room. */
  lemma HolderJoins(h: Hashes, m: InfoMap, vvTried: seq<seq<Id>>, vvNew: seq<set<Id>>, b: int, n: Id)
    requires TriedOk(h, m, vvTried) && NewOk(m, vvNew, Some(n)) && n in m && !m[n].inTried
    requires 0 <= b < |vvNew| && n !in vvNew[b] && |vvNew[b]| < NEW_BUCKET_SIZE
    requires m[n].refCount == |Holders(vvNew, n)| + 1 <= NEW_BUCKETS_PER_ADDRESS
    ensures NewOk(m, vvNew[b := vvNew[b] + {n}], None)
  {
    HoldersAdd(vvNew, b, n);
  }

  /** An entry for an unknown address goes to the end of vRandom. */
  lemma AppendNewcomer(m: InfoMap, addrs: map<NetAddr, Id>, vRandom: seq<Id>, n: Id, i: Info)
    requires IndexOk(m, addrs, vRandom) && n !in m && i.address.ip !in addrs
    requires i.randomPos == |vRandom|
    ensures IndexOk(m[n := i], addrs[i.address.ip := n], vRandom + [n])
  {
    var m', v := m[n := i], vRandom + [n];
    forall k | 0 <= k < |v| ensures v[k] in m' && m'[v[k]].randomPos == k {
      if k < |vRandom| { assert v[k] == vRandom[k]; }
    }
    forall k | k in m' ensures 0 <= m'[k].randomPos < |v| && v[m'[k].randomPos] == k {
      if k != n { assert v[m[k].randomPos] == vRandom[m[k].randomPos]; }
    }
  }

  /** Every entry but `n` is as before, up to its place in vRandom. */
  ghost predicate OthersMoved(m: InfoMap, m': InfoMap, n: Id) {
    forall k :: k in m && k != n ==> k in m' && m'[k] == m[k].(randomPos := m'[k].randomPos)
  }

  /** A newcomer is in no bucket yet. */
  lemma NewcomerKeepsTables(h: Hashes, m: InfoMap, n: Id, i: Info, vvTried: seq<seq<Id>>, vvNew: seq<set<Id>>)
    requires n !in m && !i.inTried && TriedOk(h, m, vvTried) && NewOk(m, vvNew, None)
    ensures TriedOk(h, m[n := i], vvTried) && NewOk(m[n := i], vvNew, Some(n)) && Holders(vvNew, n) == {}
    ensures TriedIds(m[n := i]) == TriedIds(m) && NewIds(m[n := i]) == NewIds(m) + {n}
    ensures |NewIds(m[n := i])| == |NewIds(m)| + 1
  {
    forall b | 0 <= b < |vvTried| ensures BucketOk(h, m[n := i], vvTried[b], b) {
      assert BucketOk(h, m, vvTried[b], b);
    }
    assert NewIds(m[n := i]) == NewIds(m) + {n} && n !in NewIds(m);
  }

  // ---------------------------------------------------------------- promotion and eviction

  /** `n` taken out of every new bucket. */
  function Without(vvNew: seq<set<Id>>, n: Id): seq<set<Id>> {
    seq(|vvNew|, b requires 0 <= b < |vvNew| => vvNew[b] - {n})
  }

  lemma HoldersWithout(vv: seq<set<Id>>, n: Id)
    ensures Holders(Without(vv, n), n) == {}
    ensures forall m :: m != n ==> Holders(Without(vv, n), m) == Holders(vv, m)
  {
    forall m | m != n ensures Holders(Without(vv, n), m) == Holders(vv, m) {
      forall b ensures b in Holders(Without(vv, n), m) <==> b in Holders(vv, m) {}
    }
  }

  /** `bucket'` holds what `bucket` holds with `e` exchanged for `n`, each once. */
  ghost predicate Exchanged(bucket: seq<Id>, bucket': seq<Id>, e: Option<Id>, n: Id) {
    && Distinct(bucket')
    && forall x :: x in bucket' <==> x == n || (x in bucket && Some(x) != e)
  }

  function Promoted(i: Info): Info { i.(refCount := 0, inTried := true) }

  function Demoted(i: Info): Info { i.(refCount := 1, inTried := false) }

  /** A good new entry moves to its tried bucket. */
  lemma PromotionKeepsTables(h: Hashes, m: InfoMap, vvTried: seq<seq<Id>>, vvNew: seq<set<Id>>, n: Id, bucket: seq<Id>)
    requires TriedOk(h, m, vvTried) && NewOk(m, vvNew, None) && n in m && !m[n].inTried
    requires |bucket| <= TRIED_BUCKET_SIZE && Exchanged(vvTried[TriedBucket(h, m[n].address)], bucket, None, n)
    ensures var m' := m[n := Promoted(m[n])];
            && TriedOk(h, m', vvTried[TriedBucket(h, m[n].address) := bucket]) && NewOk(m', Without(vvNew, n), None)
            && |TriedIds(m')| == |TriedIds(m)| + 1 && |NewIds(m')| == |NewIds(m)| - 1
  {
    PromotedTried(h, m, vvTried, n, bucket);
    PromotedNew(m, vvNew, n);
    hide TriedOk, NewOk, Exchanged, Without;
    var m' := m[n := Promoted(m[n])];
    assert TriedIds(m') == TriedIds(m) + {n} && n !in TriedIds(m);
    assert NewIds(m') == NewIds(m) - {n} && n in NewIds(m);
  }

  lemma PromotedTried(h: Hashes, m: InfoMap, vvTried: seq<seq<Id>>, n: Id, bucket: seq<Id>)
    requires TriedOk(h, m, vvTried) && n in m && !m[n].inTried
    requires |bucket| <= TRIED_BUCKET_SIZE && Exchanged(vvTried[TriedBucket(h, m[n].address)], bucket, None, n)
    ensures TriedOk(h, m[n := Promoted(m[n])], vvTried[TriedBucket(h, m[n].address) := bucket])
  {
    var k := TriedBucket(h, m[n].address);
    var m' := m[n := Promoted(m[n])];
    var after := vvTried[k := bucket];
    assert BucketOk(h, m, vvTried[k], k);
    forall b | 0 <= b < |after| ensures BucketOk(h, m', after[b], b) {
      assert BucketOk(h, m, vvTried[b], b);
      if b == k {
        forall i | 0 <= i < |bucket| ensures
            bucket[i] in m' && m'[bucket[i]].inTried && TriedBucket(h, m'[bucket[i]].address) == b {
          assert bucket[i] in bucket && (bucket[i] == n || bucket[i] in vvTried[k]);
        }
      }
    }
  }

  /** In a full tried bucket, `n` takes the place of `e`, which moves to a new bucket with room. */
  lemma EvictionKeepsTables(h: Hashes, m: InfoMap, vvTried: seq<seq<Id>>, vvNew: seq<set<Id>>, n: Id, e: Id,
                            bucket: seq<Id>, b: int)
    requires TriedOk(h, m, vvTried) && NewOk(m, vvNew, None)
    requires n in m && !m[n].inTried
    requires e in vvTried[TriedBucket(h, m[n].address)]
    requires |bucket| <= TRIED_BUCKET_SIZE && Exchanged(vvTried[TriedBucket(h, m[n].address)], bucket, Some(e), n)
    requires 0 <= b < |vvNew| && |Without(vvNew, n)[b]| < NEW_BUCKET_SIZE
    ensures e in m && m[e].inTried
    ensures var m' := m[n := Promoted(m[n])][e := Demoted(m[e])];
            && TriedOk(h, m', vvTried[TriedBucket(h, m[n].address) := bucket])
            && NewOk(m', Without(vvNew, n)[b := Without(vvNew, n)[b] + {e}], None)
            && |TriedIds(m')| == |TriedIds(m)| && |NewIds(m')| == |NewIds(m)|
  {
    var k := TriedBucket(h, m[n].address);
    assert BucketOk(h, m, vvTried[k], k);
    var m' := m[n := Promoted(m[n])][e := Demoted(m[e])];
    EvictedTried(h, m, vvTried, n, e, bucket);
    EvictedNew(m, vvNew, n, e, b);
    hide TriedOk, NewOk, Exchanged, Without, BucketOk;
    assert TriedIds(m') == TriedIds(m) - {e} + {n};
    assert NewIds(m') == NewIds(m) - {n} + {e};
  }

  lemma EvictedTried(h: Hashes, m: InfoMap, vvTried: seq<seq<Id>>, n: Id, e: Id, bucket: seq<Id>)
    requires TriedOk(h, m, vvTried) && n in m && !m[n].inTried
    requires e in m && m[e].inTried && TriedBucket(h, m[e].address) == TriedBucket(h, m[n].address)
    requires |bucket| <= TRIED_BUCKET_SIZE && Exchanged(vvTried[TriedBucket(h, m[n].address)], bucket, Some(e), n)
    ensures TriedOk(h, m[n := Promoted(m[n])][e := Demoted(m[e])], vvTried[TriedBucket(h, m[n].address) := bucket])
  {
    var k := TriedBucket(h, m[n].address);
    var m' := m[n := Promoted(m[n])][e := Demoted(m[e])];
    assert BucketOk(h, m, vvTried[k], k);
    var after := vvTried[k := bucket];
    forall c | 0 <= c < |after| ensures BucketOk(h, m', after[c], c) {
      assert BucketOk(h, m, vvTried[c], c);
      if c == k {
        forall i | 0 <= i < |bucket| ensures
            bucket[i] in m' && m'[bucket[i]].inTried && TriedBucket(h, m'[bucket[i]].address) == c {
          assert bucket[i] in bucket && (bucket[i] == n || bucket[i] in vvTried[k]);
        }
      }
    }
  }

  lemma EvictedNew(m: InfoMap, vvNew: seq<set<Id>>, n: Id, e: Id, b: int)
    requires NewOk(m, vvNew, None) && n in m && !m[n].inTried && e in m && m[e].inTried
    requires 0 <= b < |vvNew| && |Without(vvNew, n)[b]| < NEW_BUCKET_SIZE
    ensures NewOk(m[n := Promoted(m[n])][e := Demoted(m[e])], Without(vvNew, n)[b := Without(vvNew, n)[b] + {e}], None)
  {
    PromotedNew(m, vvNew, n);
    DemotedNew(m[n := Promoted(m[n])], Without(vvNew, n), e, b);
  }

  lemma PromotedNew(m: InfoMap, vvNew: seq<set<Id>>, n: Id)
    requires NewOk(m, vvNew, None) && n in m && !m[n].inTried
    ensures NewOk(m[n := Promoted(m[n])], Without(vvNew, n), None)
  {
    HoldersWithout(vvNew, n);
    hide Holders;
  }

  lemma DemotedNew(m: InfoMap, vv: seq<set<Id>>, e: Id, b: int)
    requires NewOk(m, vv, None) && e in m && m[e].inTried && 0 <= b < |vv| && |vv[b]| < NEW_BUCKET_SIZE
    ensures NewOk(m[e := Demoted(m[e])], vv[b := vv[b] + {e}], None)
  {
    assert Holders(vv, e) == {};
    HoldersAdd(vv, b, e);
    hide Holders;
  }

  // ---------------------------------------------------------------- walking sets in order

  /** The order in which a set of ids is walked. */
  ghost predicate Lists(ids: seq<Id>, s: set<Id>) {
    && (forall i, j :: 0 <= i < j < |ids| ==> ids[i] < ids[j])
    && (forall x :: x in ids <==> x in s)
  }

  method Least(s: set<Id>) returns (low: Id)
    requires s != {}
    ensures low in s && forall x :: x in s ==> low <= x
  {
    low := AnyOf(s);
    var rest := s - {low};
    while rest != {}
      invariant low in s && rest <= s && forall y :: y in s ==> y in rest || low <= y
      decreases |rest|
    {
      var x := AnyOf(rest);
      if x < low { low := x; }
      rest := rest - {x};
    }
  }

  method ListSet(s: set<Id>) returns (ids: seq<Id>)
    ensures Lists(ids, s) && |ids| == |s|
  {
    ids := [];
    var rest := s;
    while rest != {}
      invariant rest <= s && Lists(ids, s - rest) && |ids| + |rest| == |s|
      invariant forall x, y :: x in ids && y in rest ==> x < y
      decreases |rest|
    {
      var x := Least(rest);
      forall i | 0 <= i < |ids| ensures ids[i] < x { assert ids[i] in ids; }
      ids := ids + [x];
      rest := rest - {x};
    }
    assert s - rest == s;
  }
}
