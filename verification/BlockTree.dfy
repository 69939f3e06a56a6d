/** The block tree: entries reached by `prev`, branches, forward links and the fork search. */
module BlockTree {
  import opened Basics
  import opened ChainTypes

  /** CBlockIndex without its forward pointer. Pointers to entries are the hashes they are filed under. */
  datatype BlockIndex = BlockIndex(prev: Option<Hash>, height: nat, work: nat, file: nat, blockPos: nat)

  type Tree = map<Hash, BlockIndex>

  predicate WellFormed(t: Tree) {
    forall h {:trigger t[h].prev} :: h in t ==>
      match t[h].prev
      case None => t[h].height == 0
      case Some(p) => p in t && t[h].height == t[p].height + 1 && t[p].work <= t[h].work
  }

  /** The hashes from the root to `h`. */
  function Branch(t: Tree, h: Hash): (br: seq<Hash>)
    requires WellFormed(t) && h in t
    ensures |br| == t[h].height + 1 && br[|br| - 1] == h
    decreases t[h].height
  {
    if t[h].prev.None? then [h] else Branch(t, t[h].prev.value) + [h]
  }

  /** The entry at height `k` of a branch is in the tree, and its own branch is the prefix ending there. */
  lemma {:induction false} BranchPrefix(t: Tree, h: Hash, k: nat)
    requires WellFormed(t) && h in t && k <= t[h].height
    ensures Branch(t, h)[k] in t && t[Branch(t, h)[k]].height == k
    ensures Branch(t, Branch(t, h)[k]) == Branch(t, h)[..k + 1]
    ensures k > 0 ==> t[Branch(t, h)[k]].prev == Some(Branch(t, h)[k - 1])
    decreases t[h].height
  {
    if k < t[h].height {
      BranchPrefix(t, t[h].prev.value, k);
    } else {
      assert Branch(t, h)[..k + 1] == Branch(t, h);
    }
  }

  lemma BranchMember(t: Tree, h: Hash, x: Hash)
    requires WellFormed(t) && h in t && x in Branch(t, h)
    ensures x in t && t[x].height <= t[h].height && Branch(t, h)[t[x].height] == x
  {
    var k :| 0 <= k < |Branch(t, h)| && Branch(t, h)[k] == x;
    BranchPrefix(t, h, k);
  }

  lemma BranchDistinct(t: Tree, h: Hash)
    requires WellFormed(t) && h in t
    ensures forall i, j :: 0 <= i < j < |Branch(t, h)| ==> Branch(t, h)[i] != Branch(t, h)[j]
  {
    forall i, j | 0 <= i < j < |Branch(t, h)| ensures Branch(t, h)[i] != Branch(t, h)[j] {
      BranchPrefix(t, h, i);
      BranchPrefix(t, h, j);
    }
  }

  /** The block `d` back from `h`. */
  function Back(t: Tree, h: Hash, d: nat): Hash
    requires WellFormed(t) && h in t && d <= t[h].height
  {
    Branch(t, h)[t[h].height - d]
  }

  /** A block of the branch is as many steps back as it is lower, and no other block is. */
  lemma BackAt(t: Tree, h: Hash, x: Hash)
    requires WellFormed(t) && h in t && x in Branch(t, h)
    ensures x in t && t[x].height <= t[h].height && Back(t, h, t[h].height - t[x].height) == x
    ensures t[x].height == t[h].height ==> x == h
  {
    BranchMember(t, h, x);
  }

  /** Adding an entry leaves every other branch alone. */
  lemma {:induction false} BranchStable(t: Tree, h: Hash, x: Hash, e: BlockIndex)
    requires WellFormed(t) && WellFormed(t[x := e]) && x !in t && h in t
    ensures Branch(t[x := e], h) == Branch(t, h)
    decreases t[h].height
  {
    if t[h].prev.Some? {
      BranchStable(t, t[h].prev.value, x, e);
    }
  }

  // ---------------------------------------------------------------- forward links

  /** The `pnext` pointers of a main chain: each block but the last points at its successor. */
  function Links(br: seq<Hash>): map<Hash, Hash> {
    if |br| <= 1 then map[]
    else Links(br[..|br| - 1])[br[|br| - 2] := br[|br| - 1]]
  }

  predicate Distinct(br: seq<Hash>) {
    forall i, j :: 0 <= i < j < |br| ==> br[i] != br[j]
  }

  /** A block has a successor exactly when it is a proper ancestor of the tip. */
  lemma {:induction false} LinksMeaning(br: seq<Hash>)
    requires Distinct(br)
    ensures forall x :: x in Links(br) <==> exists k :: 0 <= k < |br| - 1 && br[k] == x
    ensures forall k :: 0 <= k < |br| - 1 ==> br[k] in Links(br) && Links(br)[br[k]] == br[k + 1]
  {
    if |br| > 1 {
      var init := br[..|br| - 1];
      LinksMeaning(init);
      forall k | 0 <= k < |br| - 1 ensures br[k] in Links(br) && Links(br)[br[k]] == br[k + 1] {
        if k < |br| - 2 { assert init[k] == br[k] && init[k + 1] == br[k + 1]; }
      }
      forall x | x in Links(br) ensures exists k :: 0 <= k < |br| - 1 && br[k] == x {
        if x in Links(init) {
          var k :| 0 <= k < |init| - 1 && init[k] == x;
          assert br[k] == x;
        } else {
          assert br[|br| - 2] == x;
        }
      }
    }
  }

  /** Taking the tip off removes exactly the link to it. */
  lemma LinksShrink(br: seq<Hash>)
    requires Distinct(br) && |br| > 1
    ensures Links(br) - {br[|br| - 2]} == Links(br[..|br| - 1])
  {
    var init := br[..|br| - 1];
    LinksMeaning(init);
    forall k | 0 <= k < |init| - 1 ensures init[k] != br[|br| - 2] {
      assert init[k] == br[k];
    }
  }

  // ---------------------------------------------------------------- fork search

  /** `f` is the last block the branches of `a` and `b` share. */
  ghost predicate IsFork(t: Tree, a: Hash, b: Hash, f: Hash)
    requires WellFormed(t) && a in t && b in t
  {
    && f in t && f in Branch(t, a) && f in Branch(t, b)
    && forall x :: x in Branch(t, a) && x in Branch(t, b) ==> x in Branch(t, f)
  }

  lemma AncestorOfAncestor(t: Tree, h: Hash, m: Hash, x: Hash)
    requires WellFormed(t) && h in t && m in Branch(t, h) && m in t && x in Branch(t, m)
    ensures x in Branch(t, h)
  {
    BranchMember(t, h, m);
    BranchPrefix(t, h, t[m].height);
  }

  /** The two pointers stand on the two branches, and no shared block lies above either of them. */
  ghost predicate Searching(t: Tree, best: Hash, newTip: Hash, pfork: Hash, plonger: Hash) {
    && WellFormed(t) && best in t && newTip in t && pfork in t && plonger in t
    && pfork in Branch(t, best) && plonger in Branch(t, newTip)
    && forall x :: x in Branch(t, best) && x in Branch(t, newTip) ==>
         x in Branch(t, pfork) && x in Branch(t, plonger)
  }

  lemma OneBack(t: Tree, h: Hash, x: Hash)
    requires WellFormed(t) && h in t && x in Branch(t, h) && x != h
    ensures t[h].prev.Some? && x in Branch(t, t[h].prev.value)
  {
    var k :| 0 <= k < |Branch(t, h)| && Branch(t, h)[k] == x;
    assert Branch(t, h)[k] == Branch(t, t[h].prev.value)[k];
  }

  lemma ParentOnBranch(t: Tree, tip: Hash, h: Hash)
    requires WellFormed(t) && tip in t && h in t && h in Branch(t, tip) && t[h].prev.Some?
    ensures t[h].prev.value in Branch(t, tip)
  {
    assert Branch(t, h)[t[h].height - 1] == t[h].prev.value;
    AncestorOfAncestor(t, tip, h, t[h].prev.value);
  }

  lemma LongerStepsBack(t: Tree, best: Hash, newTip: Hash, pfork: Hash, plonger: Hash)
    requires Searching(t, best, newTip, pfork, plonger) && t[plonger].height > t[pfork].height
    ensures t[plonger].prev.Some? && Searching(t, best, newTip, pfork, t[plonger].prev.value)
  {
    ParentOnBranch(t, newTip, plonger);
    forall x | x in Branch(t, best) && x in Branch(t, newTip) ensures x in Branch(t, t[plonger].prev.value) {
      BranchMember(t, pfork, x);
      OneBack(t, plonger, x);
    }
  }

  lemma ForkStepsBack(t: Tree, best: Hash, newTip: Hash, pfork: Hash, plonger: Hash)
    requires Searching(t, best, newTip, pfork, plonger) && pfork != plonger && t[plonger].height <= t[pfork].height
    ensures t[pfork].prev.Some? ==> Searching(t, best, newTip, t[pfork].prev.value, plonger)
    ensures t[pfork].prev.None? ==> forall x :: !(x in Branch(t, best) && x in Branch(t, newTip))
  {
    if t[pfork].prev.Some? {
      ParentOnBranch(t, best, pfork);
    }
    forall x | x in Branch(t, best) && x in Branch(t, newTip)
      ensures t[pfork].prev.Some? && x in Branch(t, t[pfork].prev.value)
    {
      BranchMember(t, plonger, x);
      OneBack(t, pfork, x);
    }
  }

  /** The fork search of Reorganize: two pointers walk back until they meet. It fails exactly when the
      two branches share no block at all. */
  method FindFork(t: Tree, best: Hash, newTip: Hash) returns (r: Option<Hash>)
    requires WellFormed(t) && best in t && newTip in t
    ensures r.Some? ==> IsFork(t, best, newTip, r.value)
    ensures r.None? ==> forall x :: !(x in Branch(t, best) && x in Branch(t, newTip))
  {
    var pfork, plonger := best, newTip;
    assert best in Branch(t, best) && newTip in Branch(t, newTip);
    while pfork != plonger
      invariant Searching(t, best, newTip, pfork, plonger)
      decreases t[pfork].height + t[plonger].height
    {
      ghost var startHeight := t[plonger].height;
      while t[plonger].height > t[pfork].height
        invariant Searching(t, best, newTip, pfork, plonger)
        invariant t[plonger].height <= startHeight
        decreases t[plonger].height
      {
        // A block above another has a parent, so the source's null check cannot fire here.
        LongerStepsBack(t, best, newTip, pfork, plonger);
        plonger := t[plonger].prev.value;
      }
      if pfork == plonger {
        break;
      }
      ForkStepsBack(t, best, newTip, pfork, plonger);
      if t[pfork].prev.None? {
        return None;
      }
      pfork := t[pfork].prev.value;
    }
    r := Some(pfork);
  }

  /** Nothing known is forgotten or changed. */
  predicate Grown(t: Tree, t': Tree) {
    forall h :: h in t ==> h in t' && t'[h] == t[h]
  }

  lemma GrownHas(t: Tree, t': Tree, h: Hash)
    requires Grown(t, t') && h in t
    ensures h in t' && t'[h] == t[h]
  {
  }

  lemma {:induction false} BranchGrown(t: Tree, t': Tree, h: Hash)
    requires WellFormed(t) && WellFormed(t') && Grown(t, t') && h in t
    ensures Branch(t', h) == Branch(t, h)
    decreases t[h].height
  {
    if t[h].prev.Some? {
      BranchGrown(t, t', t[h].prev.value);
    }
  }
}
