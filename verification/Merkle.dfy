/** Merkle trees: built level by level in one vector, an odd last node paired with itself; branches prove leaves. */
module Merkle {
  import opened Basics

  type Hash = int

  /** Hash of two hashes, left open. */
  type Combine = (Hash, Hash) -> Hash

  function Min(a: int, b: int): int { if a < b then a else b }

  // ---------------------------------------------------------------- the specification

  /** The next level up. */
  function Up(H: Combine, level: seq<Hash>): (up: seq<Hash>)
    ensures |up| == (|level| + 1) / 2
  {
    seq((|level| + 1) / 2, k requires 0 <= k < (|level| + 1) / 2 => H(level[2 * k], level[Min(2 * k + 1, |level| - 1)]))
  }

  function Root(H: Combine, leaves: seq<Hash>): Hash
    decreases |leaves|
  {
    if leaves == [] then 0 else if |leaves| == 1 then leaves[0] else Root(H, Up(H, leaves))
  }

  /** All levels in one row. */
  function Flat(H: Combine, leaves: seq<Hash>): seq<Hash>
    decreases |leaves|
  {
    if |leaves| <= 1 then leaves else leaves + Flat(H, Up(H, leaves))
  }

  /** The other side of the pair `i` is in. */
  function Sibling(i: nat): nat { if i % 2 == 0 then i + 1 else i - 1 }

  /** What stands beside leaf `i` on its way up. */
  function Branch(H: Combine, leaves: seq<Hash>, i: nat): seq<Hash>
    requires i < |leaves|
    decreases |leaves|
  {
    if |leaves| <= 1 then [] else [leaves[Min(Sibling(i), |leaves| - 1)]] + Branch(H, Up(H, leaves), i / 2)
  }

  /** Going up from `h` at place `i`. */
  function Climb(H: Combine, h: Hash, branch: seq<Hash>, i: nat): Hash
    decreases |branch|
  {
    if branch == [] then h
    else Climb(H, if i % 2 == 1 then H(branch[0], h) else H(h, branch[0]), branch[1..], i / 2)
  }

  // ---------------------------------------------------------------- the code

  method BuildMerkleTree(H: Combine, vTxHashes: seq<Hash>) returns (vMerkleTree: seq<Hash>, root: Hash)
    ensures vMerkleTree == Flat(H, vTxHashes) && root == Root(H, vTxHashes)
  {
    vMerkleTree := vTxHashes;
    var j, nSize := 0, |vTxHashes|;
    ghost var level, below := vTxHashes, [];
    hide Up;
    while nSize > 1
      invariant 0 <= j == |below| && nSize == |level| && vMerkleTree == below + level
      invariant below + Flat(H, level) == Flat(H, vTxHashes) && Root(H, level) == Root(H, vTxHashes)
      invariant vTxHashes == [] <==> level == []
      decreases nSize
    {
      assert vMerkleTree[j..] == level;
      vMerkleTree := PushLevel(H, vMerkleTree, j, nSize, level);
      assert (below + level) + Flat(H, Up(H, level)) == below + (level + Flat(H, Up(H, level)));
      below := below + level;
      j := j + nSize;
      level := Up(H, level);
      nSize := (nSize + 1) / 2;
    }
    root := if vMerkleTree == [] then 0 else vMerkleTree[|vMerkleTree| - 1];
  }

  /** The inner loop: the level above the one that starts at `j`. */
  method PushLevel(H: Combine, tree: seq<Hash>, j: nat, nSize: nat, ghost level: seq<Hash>) returns (vMerkleTree: seq<Hash>)
    requires nSize == |level| > 1 && |tree| == j + nSize && tree[j..] == level
    ensures vMerkleTree == tree + Up(H, level)
  {
    vMerkleTree := tree;
    var i := 0;
    while i < nSize
      invariant 0 <= i <= nSize + 1 && i % 2 == 0 && vMerkleTree == tree + Up(H, level)[..i / 2]
    {
      var i2 := Min(i + 1, nSize - 1);
      assert tree[j..][i] == tree[j + i] == vMerkleTree[j + i] && tree[j..][i2] == tree[j + i2] == vMerkleTree[j + i2];
      vMerkleTree := vMerkleTree + [H(vMerkleTree[j + i], vMerkleTree[j + i2])];
      i := i + 2;
    }
    assert Up(H, level)[..i / 2] == Up(H, level);
  }

  method GetMerkleBranch(H: Combine, leaves: seq<Hash>, vMerkleTree: seq<Hash>, index: nat) returns (vMerkleBranch: seq<Hash>)
    requires vMerkleTree == Flat(H, leaves) && index < |leaves|
    ensures vMerkleBranch == Branch(H, leaves, index)
  {
    vMerkleBranch := [];
    hide Up;
    var j, nSize := 0, |leaves|;
    var nIndex: nat := index;
    ghost var level := leaves;
    while nSize > 1
      invariant 0 <= j <= |vMerkleTree| && nSize == |level| && vMerkleTree[j..] == Flat(H, level) && nIndex < nSize
      invariant vMerkleBranch + Branch(H, level, nIndex) == Branch(H, leaves, index)
      decreases nSize
    {
      var i := Min(Sibling(nIndex), nSize - 1);
      assert vMerkleTree[j..][i] == level[i];
      assert Branch(H, level, nIndex) == [level[i]] + Branch(H, Up(H, level), nIndex / 2);
      vMerkleBranch := vMerkleBranch + [vMerkleTree[j + i]];
      nIndex := nIndex / 2;
      assert vMerkleTree[j + nSize..] == vMerkleTree[j..][nSize..] == Flat(H, Up(H, level));
      j := j + nSize;
      level := Up(H, level);
      nSize := (nSize + 1) / 2;
    }
  }

  /** An index of -1 stands for no index. */
  method CheckMerkleBranch(H: Combine, h: Hash, vMerkleBranch: seq<Hash>, index: int) returns (hash: Hash)
    requires index >= -1
    ensures hash == if index == -1 then 0 else Climb(H, h, vMerkleBranch, index)
  {
    if index == -1 {
      return 0;
    }
    hash := h;
    var nIndex: nat := index;
    for k := 0 to |vMerkleBranch|
      invariant Climb(H, hash, vMerkleBranch[k..], nIndex) == Climb(H, h, vMerkleBranch, index)
    {
      var otherside := vMerkleBranch[k];
      assert vMerkleBranch[k..][1..] == vMerkleBranch[k + 1..];
      if nIndex % 2 == 1 {
        hash := H(otherside, hash);
      } else {
        hash := H(hash, otherside);
      }
      nIndex := nIndex / 2;
    }
  }

  // ---------------------------------------------------------------- what a branch proves

  /** A node is the hash of a member of its pair and its sibling, in order. */
  lemma PairUp(H: Combine, level: seq<Hash>, i: nat)
    requires i < |level|
    ensures var s := level[Min(Sibling(i), |level| - 1)];
            i / 2 < |Up(H, level)| && Up(H, level)[i / 2] == if i % 2 == 1 then H(s, level[i]) else H(level[i], s)
  {
    assert i == 2 * (i / 2) + i % 2;
  }

  /** Completeness: the branch of a leaf leads to the root. */
  lemma {:induction false} BranchLeadsToRoot(H: Combine, leaves: seq<Hash>, i: nat)
    requires i < |leaves|
    ensures Climb(H, leaves[i], Branch(H, leaves, i), i) == Root(H, leaves)
    decreases |leaves|
  {
    if |leaves| > 1 {
      PairUp(H, leaves, i);
      hide Up;
      BranchLeadsToRoot(H, Up(H, leaves), i / 2);
      var b := Branch(H, leaves, i);
      assert b[1..] == Branch(H, Up(H, leaves), i / 2);
    }
  }

  ghost predicate CollisionFree(H: Combine) {
    forall a, b, c, d :: H(a, b) == H(c, d) ==> a == c && b == d
  }

  /** Soundness: unless two pairs collide, nothing else leads there. A hash climbing to the root from the place of
      leaf `i`, by a branch of the right length, is leaf `i`, and the branch is its branch. */
  lemma {:induction false} OnlyTheBranchLeadsToRoot(H: Combine, leaves: seq<Hash>, h: Hash, branch: seq<Hash>, i: nat)
    requires CollisionFree(H) && i < |leaves| && |branch| == |Branch(H, leaves, i)|
    requires Climb(H, h, branch, i) == Root(H, leaves)
    ensures h == leaves[i] && branch == Branch(H, leaves, i)
    decreases |leaves|
  {
    if |leaves| > 1 {
      PairUp(H, leaves, i);
      var s := leaves[Min(Sibling(i), |leaves| - 1)];
      hide Up, Min, Sibling, CollisionFree;
      if i % 2 == 1 {
        OnlyTheBranchLeadsToRoot(H, Up(H, leaves), H(branch[0], h), branch[1..], i / 2);
        NoCollision(H, branch[0], h, s, leaves[i]);
      } else {
        OnlyTheBranchLeadsToRoot(H, Up(H, leaves), H(h, branch[0]), branch[1..], i / 2);
        NoCollision(H, h, branch[0], leaves[i], s);
      }
      assert branch == [branch[0]] + branch[1..];
    }
  }

  lemma NoCollision(H: Combine, a: Hash, b: Hash, c: Hash, d: Hash)
    requires CollisionFree(H) && H(a, b) == H(c, d)
    ensures a == c && b == d
  {
  }

  // ---------------------------------------------------------------- lists with the same root

  /** Lists of one length have one root only if they are the same. */
  lemma {:induction false} SameLengthSameList(H: Combine, a: seq<Hash>, b: seq<Hash>)
    requires CollisionFree(H) && |a| == |b| && Root(H, a) == Root(H, b)
    ensures a == b
    decreases |a|
  {
    if |a| > 1 {
      hide CollisionFree;
      SameLengthSameList(H, Up(H, a), Up(H, b));
      forall i | 0 <= i < |a| ensures a[i] == b[i] { SamePair(H, a, b, i); }
    }
  }

  lemma SamePair(H: Combine, a: seq<Hash>, b: seq<Hash>, i: nat)
    requires CollisionFree(H) && i < |a| == |b| && Up(H, a) == Up(H, b)
    ensures a[i] == b[i]
  {
    PairUp(H, a, i);
    PairUp(H, b, i);
    hide Up, Min, Sibling, CollisionFree;
    var s, s' := a[Min(Sibling(i), |a| - 1)], b[Min(Sibling(i), |a| - 1)];
    if i % 2 == 1 {
      NoCollision(H, s, a[i], s', b[i]);
    } else {
      NoCollision(H, a[i], s, b[i], s');
    }
  }

  /** The number of levels above the leaves. */
  function Depth(n: nat): nat { if n <= 1 then 0 else 1 + Depth((n + 1) / 2) }

  /** Which of `n` leaves stands at place `i` of the full tree of that depth, where odd levels repeat their last node. */
  function Source(i: nat, n: nat): (k: nat)
    requires n > 0
    ensures k < n
    decreases n
  {
    if n == 1 then 0 else Min(2 * Source(i / 2, (n + 1) / 2) + i % 2, n - 1)
  }

  /** The leaves of the full tree. */
  function Filled(leaves: seq<Hash>): (f: seq<Hash>)
    requires leaves != []
  {
    seq(Pow2(Depth(|leaves|)), i requires i >= 0 => leaves[Source(i, |leaves|)])
  }

  lemma SourceDown(k: nat, n: nat)
    requires n > 1
    ensures var p := Source(k, (n + 1) / 2);
            2 * p < n && Source(2 * k, n) == 2 * p && Source(2 * k + 1, n) == Min(2 * p + 1, n - 1)
  {
    assert (2 * k) / 2 == k && (2 * k + 1) / 2 == k && (2 * k) % 2 == 0 && (2 * k + 1) % 2 == 1;
  }

  lemma HalfDepth(n: nat)
    requires n > 1
    ensures Pow2(Depth(n)) == 2 * Pow2(Depth((n + 1) / 2))
  {
  }

  lemma FilledAt(leaves: seq<Hash>, i: nat)
    requires leaves != [] && i < Pow2(Depth(|leaves|))
    ensures |Filled(leaves)| == Pow2(Depth(|leaves|)) && Filled(leaves)[i] == leaves[Source(i, |leaves|)]
  {
  }

  lemma UpAt(H: Combine, level: seq<Hash>, k: nat)
    requires k < |Up(H, level)|
    ensures 2 * k < |level| && Up(H, level)[k] == H(level[2 * k], level[Min(2 * k + 1, |level| - 1)])
  {
  }

  lemma FilledUp(H: Combine, leaves: seq<Hash>)
    requires |leaves| > 1
    ensures Filled(Up(H, leaves)) == Up(H, Filled(leaves))
  {
    hide Source, Depth, Up, Filled, Pow2;
    var n, m := |leaves|, Pow2(Depth((|leaves| + 1) / 2));
    HalfDepth(n);
    FilledAt(leaves, 0);
    FilledAt(Up(H, leaves), 0);
    forall k | 0 <= k < m
      ensures Filled(Up(H, leaves))[k] == Up(H, Filled(leaves))[k]
    {
      SourceDown(k, n);
      FilledAt(leaves, 2 * k);
      FilledAt(leaves, 2 * k + 1);
      FilledAt(Up(H, leaves), k);
      UpAt(H, Filled(leaves), k);
      UpAt(H, leaves, Source(k, (n + 1) / 2));
    }
  }

  /** Repeating nodes on odd levels is the same as repeating leaves. */
  lemma {:induction false} FilledRoot(H: Combine, leaves: seq<Hash>)
    requires leaves != []
    ensures Root(H, Filled(leaves)) == Root(H, leaves)
    decreases |leaves|
  {
    if |leaves| == 1 {
      assert Filled(leaves) == leaves;
    } else {
      FilledUp(H, leaves);
      FilledRoot(H, Up(H, leaves));
      assert |Filled(leaves)| == 2 * Pow2(Depth((|leaves| + 1) / 2));
    }
  }

  /** The list `k` levels up. */
  function UpTimes(H: Combine, leaves: seq<Hash>, k: nat): (up: seq<Hash>)
    requires k <= Depth(|leaves|) && leaves != []
    ensures up != [] && Depth(|up|) == Depth(|leaves|) - k
    decreases k
  {
    if k == 0 then leaves else UpTimes(H, Up(H, leaves), k - 1)
  }

  lemma {:induction false} UpTimesRoot(H: Combine, leaves: seq<Hash>, k: nat)
    requires leaves != [] && k <= Depth(|leaves|)
    ensures Root(H, UpTimes(H, leaves, k)) == Root(H, leaves)
    decreases k
  {
    hide Up;
    if k > 0 {
      UpTimesRoot(H, Up(H, leaves), k - 1);
    }
  }

  /** Exactly when two lists have the same root: their trees, filled up, have the same leaves at the depth of the lower. */
  lemma SameRootIff(H: Combine, a: seq<Hash>, b: seq<Hash>)
    requires CollisionFree(H) && a != [] && b != [] && Depth(|a|) <= Depth(|b|)
    ensures Root(H, a) == Root(H, b) <==> Filled(a) == Filled(UpTimes(H, b, Depth(|b|) - Depth(|a|)))
  {
    hide Up, Root, Filled, Depth, CollisionFree;
    var up := UpTimes(H, b, Depth(|b|) - Depth(|a|));
    FilledAt(a, 0);
    FilledAt(up, 0);
    UpTimesRoot(H, b, Depth(|b|) - Depth(|a|));
    FilledRoot(H, a);
    FilledRoot(H, up);
    if Root(H, a) == Root(H, b) {
      SameLengthSameList(H, Filled(a), Filled(up));
    }
  }

  /** Such a pair, for every hash: repeating the last of three leaves. */
  lemma RepeatedLastLeaf(H: Combine, x: Hash, y: Hash, z: Hash)
    ensures Root(H, [x, y, z]) == Root(H, [x, y, z, z]) && [x, y, z] != [x, y, z, z]
  {
    assert Up(H, [x, y, z]) == [H(x, y), H(z, z)] == Up(H, [x, y, z, z]);
  }
}
