/** CBlockLocator: a few hashes of a branch, dense at first, then ever further apart, and how it is resolved. */
module Locator {
  import opened Basics
  import opened ChainTypes
  import opened BlockTree

  /** How far back entry `k` lies. */
  function Dist(k: nat): nat { if k <= 11 then k else 9 + Pow2(k - 10) }

  /** The step from entry `k` to the next, as the two loops keep it. */
  function Step(k: nat): nat { if k <= 10 then 1 else Pow2(k - 10) }

  lemma Strides(k: nat)
    ensures Dist(k + 1) == Dist(k) + Step(k) && Step(k + 1) == (if k >= 10 then 2 * Step(k) else Step(k))
    ensures Dist(k + 1) > Dist(k) && (Dist(k + 1) > 10 <==> k >= 10)
  {
    if k >= 11 { assert Pow2(k + 1 - 10) == 2 * Pow2(k - 10); }
  }

  lemma {:induction false} DistGrows(j: nat, k: nat)
    requires j < k
    ensures Dist(j) < Dist(k)
  {
    if j < k - 1 { DistGrows(j, k - 1); }
    Strides(k - 1);
  }

  /** The locator of block `h`: one hash per distance that exists, then the genesis block's. */
  ghost predicate Locates(t: Tree, h: Hash, genesis: Hash, vHave: seq<Hash>)
    requires WellFormed(t) && h in t
  {
    var n := |vHave| - 1;
    && n >= 1 && vHave[n] == genesis
    && (forall k :: 0 <= k < n ==> Dist(k) <= t[h].height && vHave[k] == Back(t, h, Dist(k)))
    && Dist(n) > t[h].height
  }

  /** Set. */
  method Set(t: Tree, h: Hash, genesis: Hash) returns (vHave: seq<Hash>)
    requires WellFormed(t) && h in t
    ensures Locates(t, h, genesis, vHave)
  {
    vHave := [];
    var pindex, nStep := Some(h), 1;
    var height := t[h].height;
    while pindex.Some?
      invariant nStep == Step(|vHave|)
      invariant forall k :: 0 <= k < |vHave| ==> Dist(k) <= height && vHave[k] == Back(t, h, Dist(k))
      invariant Dist(|vHave|) <= height ==> pindex == Some(Back(t, h, Dist(|vHave|)))
      invariant Dist(|vHave|) > height ==> pindex.None? && |vHave| > 0
      decreases if Dist(|vHave|) <= height then height - Dist(|vHave|) + 1 else 0
    {
      ghost var k := |vHave|;
      Strides(k);
      vHave := vHave + [pindex.value];
      pindex := WalkBack(t, h, pindex.value, Dist(k), nStep);
      if |vHave| > 10 {
        nStep := nStep * 2;
      }
    }
    vHave := vHave + [genesis];
  }

  /** The inner loop: up to `n` blocks further back, or off the end. */
  method WalkBack(t: Tree, ghost h: Hash, from: Hash, ghost d: nat, n: nat) returns (pindex: Option<Hash>)
    requires WellFormed(t) && h in t && d <= t[h].height && from == Back(t, h, d)
    ensures if d + n <= t[h].height then pindex == Some(Back(t, h, d + n)) else pindex == None
  {
    pindex := Some(from);
    var i := 0;
    while i < n && pindex.Some?
      invariant i <= n
      invariant if d + i <= t[h].height then pindex == Some(Back(t, h, d + i)) else pindex == None
    {
      BranchPrefix(t, h, t[h].height - d - i);
      if t[h].height - d - i == 0 {
        assert t[pindex.value].height == 0;
        RootHasNoParent(t, pindex.value);
      }
      pindex := t[pindex.value].prev;
      i := i + 1;
    }
  }

  lemma RootHasNoParent(t: Tree, x: Hash)
    requires WellFormed(t) && x in t && t[x].height == 0
    ensures t[x].prev == None
  {
  }

  /** A locator is short: twelve entries, and one more each time the height (less nine) doubles. */
  lemma LocatorIsShort(t: Tree, h: Hash, genesis: Hash, vHave: seq<Hash>)
    requires WellFormed(t) && h in t && Locates(t, h, genesis, vHave)
    ensures |vHave| <= 12 || 9 + Pow2(|vHave| - 12) <= t[h].height
  {
    var k := |vHave| - 2;
    if k > 11 {
      assert Dist(k) <= t[h].height;
    } else if k == 11 {
      assert Dist(11) <= t[h].height && Pow2(1) == 2;
    }
  }

  // ---------------------------------------------------------------- resolving

  /** The number of the first entry on the main chain, or of entries if there is none. */
  function Found(inMain: Hash -> bool, vHave: seq<Hash>): (k: nat)
    ensures k <= |vHave| && (k < |vHave| ==> inMain(vHave[k])) && forall j :: 0 <= j < k ==> !inMain(vHave[j])
  {
    if vHave == [] || inMain(vHave[0]) then 0 else 1 + Found(inMain, vHave[1..])
  }

  /** How far back the first entry on the main chain is, as GetDistanceBack counts it. */
  method GetDistanceBack(inMain: Hash -> bool, vHave: seq<Hash>) returns (nDistance: nat)
    ensures nDistance == Dist(Found(inMain, vHave))
  {
    nDistance := 0;
    var nStep := 1;
    for i := 0 to |vHave|
      invariant nDistance == Dist(i) && nStep == Step(i) && Found(inMain, vHave) >= i
    {
      if inMain(vHave[i]) {
        return;
      }
      Strides(i);
      nDistance := nDistance + nStep;
      if nDistance > 10 {
        nStep := nStep * 2;
      }
    }
  }

  method GetBlockIndex(inMain: Hash -> bool, vHave: seq<Hash>, genesis: Hash) returns (r: Hash)
    ensures r == if Found(inMain, vHave) < |vHave| then vHave[Found(inMain, vHave)] else genesis
  {
    for i := 0 to |vHave|
      invariant Found(inMain, vHave) >= i
    {
      if inMain(vHave[i]) {
        return vHave[i];
      }
    }
    return genesis;
  }

  /** The main chain shares with the branch of `h` exactly the blocks `fork` or more back. */
  ghost predicate ForksAt(t: Tree, h: Hash, inMain: Hash -> bool, fork: nat)
    requires WellFormed(t) && h in t
  {
    fork <= t[h].height && forall d :: 0 <= d <= t[h].height ==> (inMain(Back(t, h, d)) <==> d >= fork)
  }

  /** `d` back from the branch's tip is at or behind the fork, and less than twice as far back; no fork, no distance. */
  ghost predicate NearFork(d: nat, fork: nat) {
    fork <= d && (if fork == 0 then d == 0 else d < 2 * fork)
  }

  /** What a locator resolves to is on the main chain and at or behind the fork, less than twice as far back as
      the fork; on the main chain itself it is the very block. Before the last entry, the distance counted is exact. */
  lemma ResolvesNearFork(t: Tree, h: Hash, genesis: Hash, vHave: seq<Hash>, inMain: Hash -> bool, fork: nat)
      returns (d: nat)
    requires WellFormed(t) && h in t && Branch(t, h)[0] == genesis
    requires Locates(t, h, genesis, vHave) && ForksAt(t, h, inMain, fork)
    ensures var found := Found(inMain, vHave);
            && found < |vHave| && d <= t[h].height && vHave[found] == Back(t, h, d) && NearFork(d, fork)
            && (found < |vHave| - 1 ==> d == Dist(found))
  {
    var found := Found(inMain, vHave);
    var n := |vHave| - 1;
    GenesisEntry(t, h, genesis, vHave, inMain, fork);
    assert found <= n;
    if found > 0 {
      EntryAt(t, h, genesis, vHave, inMain, fork, found - 1);
      NextIsNear(found - 1, fork);
    } else {
      FirstIsHere();
    }
    if found < n {
      EntryAt(t, h, genesis, vHave, inMain, fork, found);
      d := Dist(found);
    } else {
      d := t[h].height;
    }
  }

  /** Two branches of one tree: what is on the main chain forks off where the last common ancestor is. */
  lemma ForkOfBranches(t: Tree, tip: Hash, h: Hash, f: Hash)
    requires WellFormed(t) && tip in t && h in t && IsFork(t, tip, h, f)
    ensures t[f].height <= t[h].height && ForksAt(t, h, x => x in Branch(t, tip), t[h].height - t[f].height)
  {
    BranchMember(t, h, f);
    hide Branch, IsFork;
    forall d | 0 <= d <= t[h].height ensures Back(t, h, d) in Branch(t, tip) <==> d >= t[h].height - t[f].height {
      CommonFrom(t, tip, h, f, d);
    }
  }

  lemma CommonFrom(t: Tree, tip: Hash, h: Hash, f: Hash, d: nat)
    requires WellFormed(t) && tip in t && h in t && IsFork(t, tip, h, f) && d <= t[h].height && f in t
    ensures Back(t, h, d) in Branch(t, tip) <==> d >= t[h].height - t[f].height
  {
    var x := Back(t, h, d);
    BranchMember(t, h, f);
    BranchPrefix(t, h, t[f].height);
    BranchPrefix(t, h, t[h].height - d);
    assert f in Branch(t, tip);
    if d >= t[h].height - t[f].height {
      hide Branch, IsFork;
      assert Branch(t, f)[t[h].height - d] == x;
      AncestorOfAncestor(t, tip, f, x);
    } else {
      NotCommon(t, tip, h, f, x);
    }
  }

  lemma NotCommon(t: Tree, tip: Hash, h: Hash, f: Hash, x: Hash)
    requires WellFormed(t) && tip in t && h in t && IsFork(t, tip, h, f)
    requires x in Branch(t, h) && x in t && t[x].height > t[f].height
    ensures x !in Branch(t, tip)
  {
    if x in Branch(t, tip) {
      assert x in Branch(t, f);
      BranchMember(t, f, x);
    }
  }

  /** So a locator for `h`, resolved by a node whose tip is `tip`, leads to a common ancestor, at the last one or less than
      twice as far back. */
  lemma ResolvesToCommonAncestor(t: Tree, tip: Hash, h: Hash, f: Hash, genesis: Hash, vHave: seq<Hash>) returns (d: nat)
    requires WellFormed(t) && tip in t && h in t && IsFork(t, tip, h, f) && Branch(t, h)[0] == genesis
    requires Locates(t, h, genesis, vHave)
    ensures var found := Found(x => x in Branch(t, tip), vHave);
            && found < |vHave| && d <= t[h].height && vHave[found] == Back(t, h, d)
            && vHave[found] in Branch(t, tip) && vHave[found] in Branch(t, h)
            && t[f].height <= t[h].height && NearFork(d, t[h].height - t[f].height)
            && (found < |vHave| - 1 ==> d == Dist(found))
  {
    ForkOfBranches(t, tip, h, f);
    d := ResolvesNearFork(t, h, genesis, vHave, x => x in Branch(t, tip), t[h].height - t[f].height);
  }

  lemma GenesisEntry(t: Tree, h: Hash, genesis: Hash, vHave: seq<Hash>, inMain: Hash -> bool, fork: nat)
    requires WellFormed(t) && h in t && Branch(t, h)[0] == genesis
    requires Locates(t, h, genesis, vHave) && ForksAt(t, h, inMain, fork)
    ensures var n := |vHave| - 1;
            n >= 1 && vHave[n] == Back(t, h, t[h].height) && inMain(vHave[n]) && fork <= t[h].height < Dist(n)
  {
    assert Back(t, h, t[h].height) == genesis;
  }

  lemma EntryAt(t: Tree, h: Hash, genesis: Hash, vHave: seq<Hash>, inMain: Hash -> bool, fork: nat, k: nat)
    requires WellFormed(t) && h in t && Locates(t, h, genesis, vHave) && ForksAt(t, h, inMain, fork) && k < |vHave| - 1
    ensures Dist(k) <= t[h].height && vHave[k] == Back(t, h, Dist(k)) && (inMain(vHave[k]) <==> Dist(k) >= fork)
  {
  }

  lemma NextIsNear(last: nat, fork: nat)
    ensures fork > Dist(last) ==> Dist(last + 1) < 2 * fork
  {
    Strides(last);
    if last == 11 {
      assert Pow2(1) == 2;
    }
  }

  lemma FirstIsHere()
    ensures Dist(0) == 0 && Dist(1) == 1
  {
  }
}
