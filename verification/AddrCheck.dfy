/** Check_, the address manager's own consistency check: what it accepts, and that it accepts every consistent
    manager. */
module AddrCheck {
  import opened Basics
  import opened AddrTables
  import opened AddrStore

  // ---------------------------------------------------------------- what it checks

  /** `mapAddr[info]`, which yields 0 for an address that is not filed. */
  function Filed(mapAddr: map<NetAddr, Id>, ip: NetAddr): Id { if ip in mapAddr then mapAddr[ip] else 0 }

  predicate EntrySound(n: Id, i: Info, mapAddr: map<NetAddr, Id>, vRandom: seq<Id>) {
    && (if i.inTried then i.lastSuccess != 0 && i.refCount == 0 else 1 <= i.refCount <= 4)
    && (if i.address.ip in mapAddr then mapAddr[i.address.ip] == n else n == 0)
    && 0 <= i.randomPos < |vRandom| && vRandom[i.randomPos] == n
    && i.lastTry >= 0 && i.lastSuccess >= 0
  }

  function Flat(vv: seq<seq<Id>>): seq<Id> {
    if vv == [] then [] else Flat(vv[..|vv| - 1]) + vv[|vv| - 1]
  }

  function RefCounts(m: InfoMap): map<Id, int> { map n | n in m && !m[n].inTried :: m[n].refCount }

  /** Each id occurs in as many buckets as it is counted for, and nothing else does. */
  ghost predicate CountsMatch(vvNew: seq<set<Id>>, counts: map<Id, int>) {
    && (forall b, n :: 0 <= b < |vvNew| && n in vvNew[b] ==> n in counts)
    && (forall n :: n in counts ==> |Holders(vvNew, n)| == counts[n])
  }

  ghost predicate Sound(m: InfoMap, mapAddr: map<NetAddr, Id>, vRandom: seq<Id>, nTried: int, nNew: int,
                        vvTried: seq<seq<Id>>, vvNew: seq<set<Id>>) {
    && |vRandom| == nTried + nNew
    && (forall n :: n in m ==> EntrySound(n, m[n], mapAddr, vRandom))
    && |TriedIds(m)| == nTried && |NewIds(m)| == nNew
    && Numbers(Flat(vvTried), TriedIds(m))
    && CountsMatch(vvNew, RefCounts(m))
  }

  // ---------------------------------------------------------------- tried buckets

  /** Strike a bucket's ids off the set, each once. */
  method StrikeBucket(bucket: seq<Id>, set0: set<Id>) returns (ok: bool, setTried: set<Id>)
    ensures ok <==> Distinct(bucket) && forall x :: x in bucket ==> x in set0
    ensures ok ==> setTried == set0 - Elements(bucket)
  {
    setTried := set0;
    for i := 0 to |bucket|
      invariant Distinct(bucket[..i]) && (forall x :: x in bucket[..i] ==> x in set0)
      invariant setTried == set0 - Elements(bucket[..i])
    {
      if bucket[i] !in setTried {
        if bucket[i] in set0 {
          var j :| 0 <= j < i && bucket[j] == bucket[i];
        } else {
          assert bucket[i] in bucket;
        }
        return false, setTried;
      }
      assert bucket[..i + 1] == bucket[..i] + [bucket[i]] && bucket[i] !in bucket[..i];
      setTried := setTried - {bucket[i]};
    }
    assert bucket[..|bucket|] == bucket;
    ok := true;
  }

  lemma FlatStep(vv: seq<seq<Id>>, b: nat)
    requires b < |vv|
    ensures Flat(vv[..b + 1]) == Flat(vv[..b]) + vv[b]
  {
    assert vv[..b + 1][..b] == vv[..b];
  }

  lemma {:induction false} FlatPrefix(vv: seq<seq<Id>>, b: nat)
    requires b <= |vv|
    ensures Flat(vv[..b]) <= Flat(vv)
    decreases |vv| - b
  {
    if b < |vv| {
      FlatStep(vv, b);
      FlatPrefix(vv, b + 1);
    } else {
      assert vv[..b] == vv;
    }
  }

  /** Strike off all buckets: nothing may be left, nothing may come twice. */
  method CheckTried(vvTried: seq<seq<Id>>, tried: set<Id>) returns (err: int)
    ensures err == 0 <==> Numbers(Flat(vvTried), tried)
    ensures err == 0 || err == -11 || err == -13
    ensures err == -11 <==> !(Distinct(Flat(vvTried)) && forall x :: x in Flat(vvTried) ==> x in tried)
  {
    var setTried := tried;
    for b := 0 to |vvTried|
      invariant Distinct(Flat(vvTried[..b])) && (forall x :: x in Flat(vvTried[..b]) ==> x in tried)
      invariant setTried == tried - Elements(Flat(vvTried[..b]))
    {
      FlatStep(vvTried, b);
      FlatPrefix(vvTried, b + 1);
      Joined(Flat(vvTried[..b]), vvTried[b], tried);
      var ok, left := StrikeBucket(vvTried[b], setTried);
      if !ok {
        NotNumbers(Flat(vvTried[..b + 1]), Flat(vvTried), tried);
        return -11;
      }
      setTried := left;
    }
    assert vvTried[..|vvTried|] == vvTried;
    var flat := Flat(vvTried);
    if setTried != {} {
      var x := AnyOf(setTried);
      assert x in tried && x !in flat;
      return -13;
    }
    forall x ensures x in flat <==> x in tried {
      if x in tried { assert x !in tried - Elements(flat); }
    }
    err := 0;
  }

  /** A list grows without repetition, within a set, exactly if what is added is new, distinct and within it. */
  lemma Joined(a: seq<Id>, b: seq<Id>, s: set<Id>)
    requires Distinct(a) && forall x :: x in a ==> x in s
    ensures (Distinct(a + b) && forall x :: x in a + b ==> x in s) <==>
              Distinct(b) && forall x :: x in b ==> x in s - Elements(a)
    ensures s - Elements(a + b) == s - Elements(a) - Elements(b)
  {
    var c := a + b;
    if Distinct(c) && forall x :: x in c ==> x in s {
      forall i, j | 0 <= i < j < |b| ensures b[i] != b[j] {
        assert c[|a| + i] != c[|a| + j];
      }
      forall x | x in b ensures x in s - Elements(a) {
        var j :| 0 <= j < |b| && b[j] == x;
        assert c[|a| + j] == x && x in c;
        forall i | 0 <= i < |a| ensures a[i] != x { assert c[i] != c[|a| + j]; }
      }
    }
    if Distinct(b) && forall x :: x in b ==> x in s - Elements(a) {
      forall i, j | 0 <= i < j < |c| ensures c[i] != c[j] {
        if i < |a| <= j { assert b[j - |a|] in b && a[i] in Elements(a); }
      }
    }
  }

  lemma NotNumbers(part: seq<Id>, whole: seq<Id>, s: set<Id>)
    requires part <= whole && !(Distinct(part) && forall x :: x in part ==> x in s)
    ensures !Numbers(whole, s) && !(Distinct(whole) && forall x :: x in whole ==> x in s)
  {
    if Distinct(whole) {
      assert Distinct(part);
      var x :| x in part && x !in s;
      assert x in whole;
    }
  }

  // ---------------------------------------------------------------- new buckets

  /** Count down each id of a bucket; an id counted down to nothing is gone. */
  method CountDown(bucket: set<Id>, counts0: map<Id, int>) returns (ok: bool, counts: map<Id, int>)
    ensures ok <==> forall n :: n in bucket ==> n in counts0
    ensures ok ==> forall n :: Left(counts, n) == Left(counts0, n) - (if n in bucket then 1 else 0)
    ensures ok && (forall n :: n in counts0 ==> counts0[n] >= 1) ==> forall n :: n in counts ==> n in counts0 && counts[n] >= 1
  {
    counts := counts0;
    var rest := bucket;
    while rest != {}
      invariant rest <= bucket
      invariant forall n :: n in bucket - rest ==> n in counts0
      invariant forall n :: n in rest ==> (n in counts <==> n in counts0)
      invariant forall n :: n !in rest && n in counts ==> n in counts0
      invariant forall n :: Left(counts, n) == Left(counts0, n) - (if n in bucket && n !in rest then 1 else 0)
      invariant (forall n :: n in counts0 ==> counts0[n] >= 1) ==> forall n :: n in counts ==> counts[n] >= 1
      decreases |rest|
    {
      var n := AnyOf(rest);
      if n !in counts {
        return false, counts;
      }
      counts := counts[n := counts[n] - 1];
      if counts[n] == 0 {
        counts := counts - {n};
      }
      rest := rest - {n};
    }
    ok := true;
  }

  function Left(counts: map<Id, int>, n: Id): int { if n in counts then counts[n] else 0 }

  lemma HoldersStep(vv: seq<set<Id>>, b: nat, n: Id)
    requires b < |vv|
    ensures |Holders(vv[..b + 1], n)| == |Holders(vv[..b], n)| + (if n in vv[b] then 1 else 0)
    ensures |Holders(vv[..b + 1], n)| <= |Holders(vv, n)|
  {
    var h, h' := Holders(vv[..b], n), Holders(vv[..b + 1], n);
    assert h' == if n in vv[b] then h + {b} else h;
    assert b !in h;
    SubsetSize(h', Holders(vv, n));
  }

  method CheckNew(vvNew: seq<set<Id>>, counts: map<Id, int>) returns (err: int)
    requires forall n :: n in counts ==> counts[n] >= 1
    ensures err == 0 <==> CountsMatch(vvNew, counts)
    ensures err == 0 || err == -12 || err == -15
    ensures err == -12 ==> exists n :: |Holders(vvNew, n)| > (if n in counts then counts[n] else 0)
    ensures err == -15 ==> exists n :: n in counts && |Holders(vvNew, n)| < counts[n]
  {
    var mapNew := counts;
    NoHolders(vvNew);
    for b := 0 to |vvNew|
      invariant forall c, n :: 0 <= c < b && n in vvNew[c] ==> n in counts
      invariant forall n :: Left(counts, n) == Left(mapNew, n) + |Holders(vvNew[..b], n)|
      invariant forall n :: n in mapNew ==> mapNew[n] >= 1
    {
      forall n ensures |Holders(vvNew[..b + 1], n)| == |Holders(vvNew[..b], n)| + (if n in vvNew[b] then 1 else 0)
      {
        HoldersStep(vvNew, b, n);
      }
      var ok, left := CountDown(vvNew[b], mapNew);
      if !ok {
        var n :| n in vvNew[b] && n !in mapNew;
        HoldersStep(vvNew, b, n);
        assert |Holders(vvNew, n)| > Left(counts, n);
        return -12;
      }
      mapNew := left;
    }
    assert vvNew[..|vvNew|] == vvNew;
    if mapNew.Keys != {} {
      var n := AnyOf(mapNew.Keys);
      assert Left(mapNew, n) >= 1 && Left(counts, n) >= 1 && n in counts && |Holders(vvNew, n)| < counts[n];
      return -15;
    }
    forall n | n in counts ensures |Holders(vvNew, n)| == counts[n] {
      assert n !in mapNew.Keys;
    }
    err := 0;
  }

  lemma NoHolders(vv: seq<set<Id>>)
    ensures forall n :: |Holders(vv[..0], n)| == 0
  {
    forall n ensures |Holders(vv[..0], n)| == 0 { assert Holders(vv[..0], n) == {}; }
  }

  // ---------------------------------------------------------------- Check_

  method CheckEntry(n: Id, i: Info, mapAddr: map<NetAddr, Id>, vRandom: seq<Id>) returns (err: int)
    ensures err == 0 <==> EntrySound(n, i, mapAddr, vRandom)
    ensures err != 0 ==> Complaint(err, n, i, mapAddr, vRandom)
  {
    if i.inTried {
      if i.lastSuccess == 0 { return -1; }
      if i.refCount != 0 { return -2; }
    } else {
      if i.refCount < 0 || i.refCount > NEW_BUCKETS_PER_ADDRESS { return -3; }
      if i.refCount == 0 { return -4; }
    }
    if Filed(mapAddr, i.address.ip) != n { return -5; }
    if i.randomPos < 0 || i.randomPos >= |vRandom| || vRandom[i.randomPos] != n { return -14; }
    if i.lastTry < 0 { return -6; }
    if i.lastSuccess < 0 { return -8; }
    err := 0;
  }

  /** What each complaint about an entry says of it. */
  ghost predicate Complaint(err: int, n: Id, i: Info, mapAddr: map<NetAddr, Id>, vRandom: seq<Id>) {
    || (err == -1 && i.inTried && i.lastSuccess == 0)
    || (err == -2 && i.inTried && i.refCount != 0)
    || (err == -3 && !i.inTried && (i.refCount < 0 || i.refCount > 4))
    || (err == -4 && !i.inTried && i.refCount == 0)
    || (err == -5 && i.address.ip in mapAddr && mapAddr[i.address.ip] != n)
    || (err == -5 && i.address.ip !in mapAddr && n != 0)
    || (err == -14 && (0 <= i.randomPos < |vRandom| ==> vRandom[i.randomPos] != n))
    || (err == -6 && i.lastTry < 0)
    || (err == -8 && i.lastSuccess < 0)
  }

  /** The loop over mapInfo: every entry sound, tried and new ones told apart. */
  method CheckEntries(m: InfoMap, mapAddr: map<NetAddr, Id>, vRandom: seq<Id>)
    returns (err: int, setTried: set<Id>, mapNew: map<Id, int>)
    ensures err == 0 <==> forall n :: n in m ==> EntrySound(n, m[n], mapAddr, vRandom)
    ensures err == 0 ==> setTried == TriedIds(m) && mapNew == RefCounts(m)
    ensures err != 0 ==> exists n :: n in m && Complaint(err, n, m[n], mapAddr, vRandom)
  {
    setTried, mapNew := {}, map[];
    var rest := m.Keys;
    assert ToldApart(m, rest, setTried, mapNew);
    hide EntrySound, Complaint, ToldApart, TriedIds, RefCounts;
    while rest != {}
      invariant rest <= m.Keys && forall n :: n in m && n !in rest ==> EntrySound(n, m[n], mapAddr, vRandom)
      invariant ToldApart(m, rest, setTried, mapNew)
      decreases |rest|
    {
      var n := AnyOf(rest);
      err := CheckEntry(n, m[n], mapAddr, vRandom);
      if err != 0 {
        return;
      }
      OneToldApart(m, rest, setTried, mapNew, n);
      if m[n].inTried {
        setTried := setTried + {n};
      } else {
        mapNew := mapNew[n := m[n].refCount];
      }
      rest := rest - {n};
    }
    err := 0;
    AllToldApart(m, setTried, mapNew);
  }

  ghost predicate ToldApart(m: InfoMap, rest: set<Id>, setTried: set<Id>, mapNew: map<Id, int>) {
    && setTried == TriedIds(m) - rest
    && (forall n :: n in mapNew <==> n in m && !m[n].inTried && n !in rest)
    && (forall n :: n in mapNew ==> mapNew[n] == m[n].refCount)
  }

  lemma OneToldApart(m: InfoMap, rest: set<Id>, setTried: set<Id>, mapNew: map<Id, int>, n: Id)
    requires ToldApart(m, rest, setTried, mapNew) && n in rest && n in m
    ensures if m[n].inTried then ToldApart(m, rest - {n}, setTried + {n}, mapNew)
            else ToldApart(m, rest - {n}, setTried, mapNew[n := m[n].refCount])
  {
  }

  lemma AllToldApart(m: InfoMap, setTried: set<Id>, mapNew: map<Id, int>)
    requires ToldApart(m, {}, setTried, mapNew)
    ensures setTried == TriedIds(m) && mapNew == RefCounts(m)
  {
    forall n ensures n in mapNew.Keys <==> n in RefCounts(m).Keys { assert n in mapNew <==> n in RefCounts(m); }
    assert mapNew.Keys == RefCounts(m).Keys;
    forall n | n in RefCounts(m).Keys ensures n in mapNew && mapNew[n] == RefCounts(m)[n] {
      assert n in RefCounts(m);
    }
    assert mapNew == RefCounts(m);
  }

  /** Check_: no error exactly for a sound manager. */
  method Check_(m: InfoMap, mapAddr: map<NetAddr, Id>, vRandom: seq<Id>, nTried: int, nNew: int,
                vvTried: seq<seq<Id>>, vvNew: seq<set<Id>>) returns (err: int)
    ensures err == 0 <==> Sound(m, mapAddr, vRandom, nTried, nNew, vvTried, vvNew)
    ensures err == -7 <==> |vRandom| != nTried + nNew
    ensures err == -9 ==> |TriedIds(m)| != nTried
    ensures err == -10 ==> |NewIds(m)| != nNew
    ensures err in {-1, -2, -3, -4, -5, -6, -8, -14} ==> exists n :: n in m && Complaint(err, n, m[n], mapAddr, vRandom)
    ensures err == -11 ==> !(Distinct(Flat(vvTried)) && forall x :: x in Flat(vvTried) ==> x in TriedIds(m))
    ensures err == -13 ==> exists x :: x in TriedIds(m) && x !in Flat(vvTried)
    ensures err == -12 ==> exists n :: |Holders(vvNew, n)| > (if n in m && !m[n].inTried then m[n].refCount else 0)
    ensures err == -15 ==> exists n :: n in m && !m[n].inTried && |Holders(vvNew, n)| < m[n].refCount
  {
    if |vRandom| != nTried + nNew { return -7; }
    var setTried, mapNew;
    err, setTried, mapNew := CheckEntries(m, mapAddr, vRandom);
    if err != 0 { return; }
    assert mapNew.Keys == NewIds(m);
    KeysSize(mapNew);
    if |setTried| != nTried { return -9; }
    if |mapNew| != nNew { return -10; }
    err := CheckTried(vvTried, setTried);
    if err != 0 { return; }
    err := CheckNew(vvNew, mapNew);
  }

  lemma KeysSize(counts: map<Id, int>)
    ensures |counts| == |counts.Keys|
  {
  }

  // ---------------------------------------------------------------- what soundness amounts to

  /** Every consistent manager passes. */
  lemma ConsistentIsSound(h: Hashes, m: InfoMap, mapAddr: map<NetAddr, Id>, vRandom: seq<Id>, nTried: int, nNew: int,
                          nIdCount: int, vvTried: seq<seq<Id>>, vvNew: seq<set<Id>>)
    requires IndexOk(m, mapAddr, vRandom) && TriedOk(h, m, vvTried) && NewOk(m, vvNew, None)
    requires CountsOk(m, vRandom, nTried, nNew, nIdCount) && TimesOk(m)
    ensures Sound(m, mapAddr, vRandom, nTried, nNew, vvTried, vvNew)
  {
    AllTriedListed(h, m, vvTried);
    EntriesSound(h, m, mapAddr, vRandom, vvTried, vvNew);
    NewCountsMatch(m, vvNew);
    hide IndexOk, TriedOk, NewOk, EntrySound, TriedIds, NewIds, Numbers, Holders, Flat, CountsMatch;
  }

  lemma NewCountsMatch(m: InfoMap, vvNew: seq<set<Id>>)
    requires NewOk(m, vvNew, None)
    ensures CountsMatch(vvNew, RefCounts(m))
  {
    hide Holders;
    forall n | n in RefCounts(m) ensures |Holders(vvNew, n)| == RefCounts(m)[n] {
      assert n in m && !m[n].inTried;
    }
  }

  lemma EntriesSound(h: Hashes, m: InfoMap, mapAddr: map<NetAddr, Id>, vRandom: seq<Id>, vvTried: seq<seq<Id>>, vvNew: seq<set<Id>>)
    requires IndexOk(m, mapAddr, vRandom) && TriedOk(h, m, vvTried) && NewOk(m, vvNew, None) && TimesOk(m)
    ensures forall n :: n in m ==> EntrySound(n, m[n], mapAddr, vRandom)
  {
    hide Holders, BucketOk;
  }

  lemma AllTriedListed(h: Hashes, m: InfoMap, vvTried: seq<seq<Id>>)
    requires TriedOk(h, m, vvTried)
    ensures Numbers(Flat(vvTried), TriedIds(m))
  {
    FlatTried(h, m, vvTried, |vvTried|);
    assert vvTried[..|vvTried|] == vvTried;
    forall n ensures n in Flat(vvTried) <==> n in TriedIds(m) {
      if n in TriedIds(m) {
        FlatHas(vvTried, TriedBucket(h, m[n].address), n);
      }
    }
  }

  lemma FlatHas(vv: seq<seq<Id>>, b: nat, n: Id)
    requires b < |vv| && n in vv[b]
    ensures n in Flat(vv)
  {
    FlatStep(vv, b);
    FlatPrefix(vv, b + 1);
  }

  /** Tried ids come once: in one bucket only, and there once. */
  lemma {:induction false} FlatTried(h: Hashes, m: InfoMap, vvTried: seq<seq<Id>>, b: nat)
    requires TriedOk(h, m, vvTried) && b <= |vvTried|
    ensures Distinct(Flat(vvTried[..b]))
    ensures forall n :: n in Flat(vvTried[..b]) ==> n in TriedIds(m) && TriedBucket(h, m[n].address) < b
  {
    if b > 0 {
      FlatTried(h, m, vvTried, b - 1);
      FlatStep(vvTried, b - 1);
      var a, bucket := Flat(vvTried[..b - 1]), vvTried[b - 1];
      assert BucketOk(h, m, bucket, b - 1);
      forall n | n in bucket ensures n in TriedIds(m) && TriedBucket(h, m[n].address) == b - 1 {
        var i :| 0 <= i < |bucket| && bucket[i] == n;
      }
      Joined(a, bucket, TriedIds(m));
    }
  }

  /** Soundness makes vRandom a listing of all ids, with every entry pointing at its place. */
  lemma SoundListsAll(m: InfoMap, mapAddr: map<NetAddr, Id>, vRandom: seq<Id>, nTried: int, nNew: int,
                      vvTried: seq<seq<Id>>, vvNew: seq<set<Id>>)
    requires Sound(m, mapAddr, vRandom, nTried, nNew, vvTried, vvNew)
    ensures Numbers(vRandom, m.Keys)
    ensures forall i :: 0 <= i < |vRandom| ==> vRandom[i] in m && m[vRandom[i]].randomPos == i
  {
    assert TriedIds(m) + NewIds(m) == m.Keys && TriedIds(m) * NewIds(m) == {};
    assert |m.Keys| == |vRandom|;
    forall n | n in m.Keys ensures n in Elements(vRandom) {
      assert EntrySound(n, m[n], mapAddr, vRandom);
    }
    SubsetSize(m.Keys, Elements(vRandom));
    FullSizeIsDistinct(vRandom);
    forall i | 0 <= i < |vRandom| ensures vRandom[i] in m && m[vRandom[i]].randomPos == i {
      assert vRandom[i] in Elements(vRandom);
      assert EntrySound(vRandom[i], m[vRandom[i]], mapAddr, vRandom);
    }
  }

  lemma {:induction false} FullSizeIsDistinct(s: seq<Id>)
    ensures |Elements(s)| <= |s| && (|Elements(s)| == |s| ==> Distinct(s))
  {
    if s != [] {
      var init, last := s[..|s| - 1], s[|s| - 1];
      FullSizeIsDistinct(init);
      assert Elements(s) == Elements(init) + {last};
      if last in init { assert Elements(s) == Elements(init); }
    } else {
      assert Elements(s) == {};
    }
  }
}
