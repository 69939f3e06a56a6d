/** A run in which a checkpoint lets memory and database part: in strict mode, on a store that never fails, a single block
    that the rules refuse becomes the tip in memory. */
module CheckpointSplit {
  import opened Basics
  import opened ChainTypes
  import opened TxIndexSpec
  import opened ConnectSpec
  import opened BlockTree
  import opened Storage
  import opened Connect
  import opened ChainSpec
  import opened ChainStateMachine
  import opened SyncCheckpoints
  import opened ChainRun
  import MoneySupply

  /** The work of a block at the easiest target. */
  const WORK: nat := 0x100001

  /** A coinbase that pays `value`, and a block of it alone; its txid is told from the block's hash. */
  function Coin(h: Hash, value: int): Tx {
    Tx(TxId(h), [OutPoint(0, NULL_INDEX)], [TxOut(value, 0)], 111, 0)
  }

  function TxId(h: Hash): Hash { h + 1000 }

  function CoinBlock(h: Hash, prev: Hash, value: int): Block {
    Block(h, prev, WORK, 1400000000, [Coin(h, value)])
  }

  /** Blocks of 192 bytes, each after its mark and length. */
  function Place(k: nat): nat { 200 * k + 8 }

  /** Such a block connects exactly if it pays no more than the subsidy. */
  lemma CoinConnects(c: Checks, disk: Disk, ix: Index, b: Block, value: int, file: nat, blockPos: nat, height: nat)
    requires b.vtx == [Coin(b.hash, value)] && TxId(b.hash) !in ix && 0 <= value <= MAX_MONEY
    ensures ConnectSpec.ConnectBlock(c, disk, ix, b, file, blockPos, height).Some? <==> value <= Subsidy(height)
    ensures value <= Subsidy(height) ==>
              ConnectSpec.ConnectBlock(c, disk, ix, b, file, blockPos, height).value.Keys == ix.Keys + {TxId(b.hash)}
  {
    var tx := b.vtx[0];
    assert SumOut(tx.vout[..0]) == 0 && tx.vout[..1] == tx.vout && SumOut(tx.vout) == value by {
      assert tx.vout[..0] == [];
    }
    assert tx.IsCoinBase() && CheckTransaction(tx);
    assert CheckBlock(b);
    assert Bip30(ix, b);
    assert ConnectTxs(c, disk, ix, b, file, blockPos, 0) == Some(Tally(ix, 0, 0));
    assert ConnectTxs(c, disk, ix, b, file, blockPos, 1)
        == Some(Tally(ix[tx.hash := NewEntry(tx, TxPosAt(b, file, blockPos, 0))], 0, 0));
  }

  /** On the branch to `h`, every block but the root is a coinbase that pays nothing. */
  ghost predicate Modest(t: Tree, disk: Disk, h: Hash) {
    && WellFormed(t) && Stored(t, disk) && h in t
    && forall x :: x in Branch(t, h) && x in t && t[x].prev.Some? ==> BlockOf(t, disk, x).vtx == [Coin(x, 0)]
  }

  lemma {:induction false} ModestReplays(t: Tree, disk: Disk, h: Hash)
    requires Modest(t, disk, h)
    ensures Replay(t, disk, h).Some? && forall x :: TxId(x) in Replay(t, disk, h).value ==> x in Branch(t, h)
    decreases t[h].height
  {
    if t[h].prev.Some? {
      var p := t[h].prev.value;
      ModestReplays(t, disk, p);
      NotBelowParent(t, h);
      CoinConnects(Bare(), disk, Replay(t, disk, p).value, BlockOf(t, disk, h), 0, t[h].file, t[h].blockPos, t[h].height);
      SubsidyAtLeast(t[h].height);
    }
  }

  lemma NotBelowParent(t: Tree, h: Hash)
    requires WellFormed(t) && h in t && t[h].prev.Some?
    ensures h !in Branch(t, t[h].prev.value)
  {
    if h in Branch(t, t[h].prev.value) {
      BranchMember(t, t[h].prev.value, h);
    }
  }

  lemma SubsidyAtLeast(height: nat)
    ensures Subsidy(height) >= 0
  {
    MoneySupply.SubsidyNonNegative(false, height);
  }

  /** On a branch like that, a coinbase block is refused exactly if it pays too much. */
  lemma CoinVerdict(env: Env, t: Tree, disk: Disk, x: Hash, value: int, bestHeight: int)
    requires WellFormed(t) && Stored(t, disk) && x in t && t[x].prev.Some? && Modest(t, disk, t[x].prev.value)
    requires BlockOf(t, disk, x).vtx == [Coin(x, value)] && 0 <= value <= MAX_MONEY
    ensures Rejects(env, t, disk, x, bestHeight) <==> value > Subsidy(t[x].height)
  {
    hide ConnectSpec.ConnectBlock, Replay, Branch, WellFormed, Modest, Stored, Subsidy, Rejects, ConnectsTo, ChecksFor;
    CoinReady(t, disk, x);
    var b := BlockOf(t, disk, x);
    VerdictMeans(env, t, disk, x, bestHeight);
    CoinConnects(ChecksFor(env, t, x, b.time, bestHeight), disk, Replay(t, disk, t[x].prev.value).value, b, value,
                 t[x].file, t[x].blockPos, t[x].height);
  }

  lemma CoinReady(t: Tree, disk: Disk, x: Hash)
    requires WellFormed(t) && Stored(t, disk) && x in t && t[x].prev.Some? && Modest(t, disk, t[x].prev.value)
    ensures t[x].prev.value in t && BlockOf(t, disk, x).hash == x
    ensures Replay(t, disk, t[x].prev.value).Some? && TxId(x) !in Replay(t, disk, t[x].prev.value).value
  {
    hide Replay, Modest;
    ModestReplays(t, disk, t[x].prev.value);
    NotBelowParent(t, x);
  }

  lemma VerdictMeans(env: Env, t: Tree, disk: Disk, x: Hash, bestHeight: int)
    requires WellFormed(t) && Stored(t, disk) && x in t && t[x].prev.Some? && Replay(t, disk, t[x].prev.value).Some?
    ensures var b := BlockOf(t, disk, x);
            Rejects(env, t, disk, x, bestHeight)
            <==> ConnectSpec.ConnectBlock(ChecksFor(env, t, x, b.time, bestHeight), disk, Replay(t, disk, t[x].prev.value).value, b,
                                          t[x].file, t[x].blockPos, t[x].height).None?
  {
    hide ConnectSpec.ConnectBlock, Replay, ChecksFor, Stored;
  }

  lemma RootPasses(env: Env, t: Tree, disk: Disk, x: Hash, bestHeight: int)
    requires WellFormed(t) && Stored(t, disk) && x in t && t[x].prev.None?
    ensures !Rejects(env, t, disk, x, bestHeight)
  {
  }

  /** Then the rules refuse no block of it. */
  lemma ModestPasses(env: Env, t: Tree, disk: Disk, h: Hash, bestWork: nat, bestHeight: int)
    requires Modest(t, disk, h)
    ensures !RejectedOn(env, t, disk, h, bestWork, bestHeight)
  {
    hide Rejects, Subsidy, Branch, WellFormed, Stored;
    forall x | x in Branch(t, h) && x in t ensures !Rejects(env, t, disk, x, bestHeight) {
      if t[x].prev.None? {
        RootPasses(env, t, disk, x, bestHeight);
      } else {
        ModestBelow(t, disk, h, x);
        CoinVerdict(env, t, disk, x, 0, bestHeight);
        SubsidyAtLeast(t[x].height);
      }
    }
  }

  lemma {:induction false} ModestIds(t: Tree, disk: Disk, h: Hash)
    requires Modest(t, disk, h)
    ensures forall x :: TxId(x) in BranchIds(t, disk, h) ==> x in Branch(t, h)
    decreases t[h].height
  {
    if t[h].prev.Some? {
      ModestBelow(t, disk, h, h);
      ModestIds(t, disk, t[h].prev.value);
    }
  }

  /** With a new block of that kind on top, in a larger tree and larger files. */
  lemma ModestGrows(t: Tree, disk: Disk, t': Tree, disk': Disk, prev: Hash, h: Hash)
    requires Modest(t, disk, prev) && WellFormed(t') && Stored(t', disk') && Grown(t, t') && Grows(disk, disk')
    requires h in t' && t'[h].prev == Some(prev) && BlockOf(t', disk', h).vtx == [Coin(h, 0)]
    ensures Modest(t', disk', h) && Modest(t', disk', prev)
  {
    GrownHas(t, t', prev);
    BranchGrown(t, t', prev);
    forall x | x in Branch(t', prev) ensures x in t && t'[x] == t[x] && BlockOf(t', disk', x) == BlockOf(t, disk, x) {
      BranchMember(t, prev, x);
      GrownHas(t, t', x);
    }
  }

  lemma ModestBelow(t: Tree, disk: Disk, h: Hash, x: Hash)
    requires Modest(t, disk, h) && x in Branch(t, h) && x in t && t[x].prev.Some?
    ensures Modest(t, disk, t[x].prev.value)
  {
    ParentOnBranch(t, h, x);
    forall y | y in Branch(t, t[x].prev.value) ensures y in Branch(t, h) {
      AncestorOfAncestor(t, h, t[x].prev.value, y);
    }
  }

  // ---------------------------------------------------------------- the run

  /** Genesis `g`; the main chain `a1`, `a2` on it; and a side branch `c1`, `d2` as heavy. */
  function Tree5(g: Hash): Tree {
    map[g := BlockIndex(None, 0, WORK, 1, Place(0)),
        g + 1 := BlockIndex(Some(g), 1, 2 * WORK, 1, Place(1)),
        g + 2 := BlockIndex(Some(g + 1), 2, 3 * WORK, 1, Place(2)),
        g + 3 := BlockIndex(Some(g), 1, 2 * WORK, 1, Place(3)),
        g + 4 := BlockIndex(Some(g + 3), 2, 3 * WORK, 1, Place(4))]
  }

  /** The block `e3` on `d2`, which pays more than its subsidy. */
  function LastBlock(g: Hash): Block { CoinBlock(g + 5, g + 4, 51 * COIN) }

  function Disk5(g: Hash): Disk {
    map[(1, Place(0)) := CoinBlock(g, 0, 0), (1, Place(1)) := CoinBlock(g + 1, g, 0), (1, Place(2)) := CoinBlock(g + 2, g + 1, 0),
        (1, Place(3)) := CoinBlock(g + 3, g, 0), (1, Place(4)) := CoinBlock(g + 4, g + 3, 0)]
  }

  lemma Branches(t: Tree, g: Hash)
    requires WellFormed(t) && Grown(Tree5(g), t)
    ensures Branch(t, g) == [g] && Branch(t, g + 2) == [g, g + 1, g + 2] && Branch(t, g + 3) == [g, g + 3]
    ensures Branch(t, g + 4) == [g, g + 3, g + 4]
    ensures g + 5 in t && t[g + 5].prev == Some(g + 4) ==> Branch(t, g + 5) == [g, g + 3, g + 4, g + 5]
  {
    GrownHas(Tree5(g), t, g);
    GrownHas(Tree5(g), t, g + 1);
    GrownHas(Tree5(g), t, g + 2);
    GrownHas(Tree5(g), t, g + 3);
    GrownHas(Tree5(g), t, g + 4);
    assert Branch(t, g + 1) == [g, g + 1];
  }

  /** Every block but the root is a coinbase that pays nothing. */
  ghost predicate AllModest(t: Tree, disk: Disk) {
    && WellFormed(t) && Stored(t, disk)
    && forall x {:trigger t[x].prev} :: x in t && t[x].prev.Some? ==> BlockOf(t, disk, x).vtx == [Coin(x, 0)]
  }

  lemma ModestAt(t: Tree, disk: Disk, h: Hash)
    requires AllModest(t, disk) && h in t
    ensures Modest(t, disk, h)
  {
  }

  lemma AllModestGrows(t: Tree, disk: Disk, t': Tree, disk': Disk, b: Block, e: BlockIndex)
    requires AllModest(t, disk) && t' == t[b.hash := e] && disk' == disk[(e.file, e.blockPos) := b] && (e.file, e.blockPos) !in disk
    requires b.hash !in t && b.vtx == [Coin(b.hash, 0)] && WellFormed(t') && Stored(t', disk')
    ensures AllModest(t', disk')
  {
    hide WellFormed;
    forall x | x in t' && t'[x].prev.Some? ensures BlockOf(t', disk', x).vtx == [Coin(x, 0)] {
      if x != b.hash {
        assert t'[x] == t[x] && BlockOf(t, disk, x).vtx == [Coin(x, 0)];
      }
    }
  }

  /** What rest says of the tip's work, and of the root. */
  lemma AtRest(n: CheckpointState)
    requires Standing(n, 0)
    ensures var t := n.chain.mapBlockIndex;
            && WellFormed(t) && Stored(t, n.chain.db.disk) && n.chain.pindexBest.value in t
            && n.chain.bnBestChainWork == t[n.chain.pindexBest.value].work && n.hashSyncCheckpoint == n.adopted[|n.adopted| - 1]
            && forall h :: h in t ==> Below(t, n.chain.env.genesis, h)
  {
    hide AtTip, Replay, Fresh, DiskImage, Links, Stored;
    forall h | h in n.chain.mapBlockIndex ensures Below(n.chain.mapBlockIndex, n.chain.env.genesis, h) {
      SameRoot(n.chain.mapBlockIndex, h, h, n.chain.env.genesis);
    }
  }

  /** A harmless block on a known one is accepted, in strict mode too while no checkpoint but genesis is adopted. */
  method Extend(n: CheckpointState, b: Block, nBlockPos: nat)
    requires Standing(n, 0) && n.hashPendingCheckpoint.None? && n.chain.Heaviest() && n.chain.db.reliable
    requires n.adopted == [n.chain.env.genesis]
    requires b == CoinBlock(b.hash, b.prev, 0) && (1, nBlockPos) !in n.chain.db.disk
    requires b.hash !in n.chain.mapBlockIndex && b.prev in n.chain.mapBlockIndex
    requires AllModest(n.chain.mapBlockIndex, n.chain.db.disk)
    modifies n, n.chain, n.chain.db`disk, n.chain.db`committed, n.chain.db`txn, n.chain.db`broken
    ensures Standing(n, 0) && n.hashPendingCheckpoint.None? && n.chain.Heaviest() && n.adopted == old(n.adopted)
    ensures n.chain.mapBlockIndex == old(n.chain.mapBlockIndex)[b.hash := old(n.chain.NewEntry(b, 1, nBlockPos))]
    ensures n.chain.db.disk == old(n.chain.db.disk)[(1, nBlockPos) := b]
    ensures AllModest(n.chain.mapBlockIndex, n.chain.db.disk)
    ensures n.chain.pindexBest ==
            if old(n.chain.NewEntry(b, 1, nBlockPos)).work > old(n.chain.bnBestChainWork) then Some(b.hash)
            else old(n.chain.pindexBest)
  {
    hide AtTip, Replay, Fresh, DiskImage, Links, ConnectsTo, Rejects, ChainState.LeftOver, ChainState.Lagging, Branch, Below,
         ChainState.MemoryAt, ChainState.Heaviest, WellFormed, BranchIds, Ascending, AllVouched, Modest, RejectedOn, AllModest;
    ghost var t, disk := n.chain.mapBlockIndex, n.chain.db.disk;
    AtRest(n);
    ModestAt(t, disk, b.prev);
    ModestIds(t, disk, b.prev);
    BranchHasNot(t, b.prev, b.hash);
    var v, left := n.AcceptBlock(b, 1, nBlockPos, true, false, false, true);
    ghost var e := BlockIndex(Some(b.prev), t[b.prev].height + 1, t[b.prev].work + b.work, 1, nBlockPos);
    if v.Refused? {
      NewcomerPasses(n.chain.env, t, disk, t[b.hash := e], n.chain.db.disk, b, old(n.chain.bnBestChainWork), old(n.chain.nBestHeight));
    }
    Stands(n, left);
    AtRest(n);
    AllModestGrows(t, disk, n.chain.mapBlockIndex, n.chain.db.disk, b, e);
  }

  lemma NewcomerPasses(env: Env, t: Tree, disk: Disk, t': Tree, disk': Disk, b: Block, bestWork: nat, bestHeight: int)
    requires Modest(t, disk, b.prev) && b.hash !in t && b.vtx == [Coin(b.hash, 0)]
    requires exists e: BlockIndex :: t' == t[b.hash := e] && e.prev == Some(b.prev)
               && (disk' == disk || disk' == disk[(e.file, e.blockPos) := b]) && (e.file, e.blockPos) !in disk
    ensures !RejectedOn(env, t', disk', b.hash, bestWork, bestHeight)
  {
    hide Rejects, Branch, Modest;
    var e: BlockIndex :| t' == t[b.hash := e] && e.prev == Some(b.prev)
               && (disk' == disk || disk' == disk[(e.file, e.blockPos) := b]) && (e.file, e.blockPos) !in disk;
    if WellFormed(t') && Stored(t', disk') {
      assert t'[b.hash] == e;
      assert BlockOf(t', disk', b.hash) == b;
      IsModest(t, disk, b.prev);
      ModestGrows(t, disk, t', disk', b.prev, b.hash);
      ModestPasses(env, t', disk', b.hash, bestWork, bestHeight);
    }
  }

  lemma IsModest(t: Tree, disk: Disk, h: Hash)
    requires Modest(t, disk, h)
    ensures WellFormed(t) && Stored(t, disk) && h in t
  {
  }

  lemma BranchHasNot(t: Tree, h: Hash, x: Hash)
    requires WellFormed(t) && h in t && x !in t
    ensures x !in Branch(t, h)
  {
    if x in Branch(t, h) {
      BranchMember(t, h, x);
    }
  }

  function Tree3(g: Hash): Tree {
    map[g := BlockIndex(None, 0, WORK, 1, Place(0)),
        g + 1 := BlockIndex(Some(g), 1, 2 * WORK, 1, Place(1)),
        g + 2 := BlockIndex(Some(g + 1), 2, 3 * WORK, 1, Place(2))]
  }

  function Disk3(g: Hash): Disk {
    map[(1, Place(0)) := CoinBlock(g, 0, 0), (1, Place(1)) := CoinBlock(g + 1, g, 0), (1, Place(2)) := CoinBlock(g + 2, g + 1, 0)]
  }

  /** Genesis, `a1` and `a2` have arrived. */
  method MainChain(env: Env) returns (n: CheckpointState?)
    ensures n != null && fresh(n) && fresh(n.chain) && fresh(n.chain.db) && n.chain.db.reliable && n.chain.env == env
    ensures Standing(n, 0) && n.hashPendingCheckpoint.None? && n.adopted == [env.genesis] && n.hashSyncCheckpoint == env.genesis
    ensures n.chain.mapBlockIndex == Tree3(env.genesis) && n.chain.db.disk == Disk3(env.genesis) && n.chain.Heaviest()
    ensures n.chain.pindexBest == Some(env.genesis + 2) && AllModest(n.chain.mapBlockIndex, n.chain.db.disk)
  {
    hide AtTip, Replay, Fresh, DiskImage, Links, ChainState.Lagging, Branch, Stored,
         ChainState.MemoryAt, ChainState.Heaviest, WellFormed, BranchIds, Ascending, AllVouched, Modest, AllModest, Below;
    var g := env.genesis;
    n := FirstStart(env, CoinBlock(g, 0, 0), 1, Place(0), true);
    AtRest(n);
    GenesisModest(n.chain.mapBlockIndex, n.chain.db.disk);
    Extend(n, CoinBlock(g + 1, g, 0), Place(1));
    AtRest(n);
    Extend(n, CoinBlock(g + 2, g + 1, 0), Place(2));
    AtRest(n);
  }

  /** Then `c1` and `d2`. */
  method SideBranch(env: Env) returns (n: CheckpointState?)
    ensures n != null && fresh(n) && fresh(n.chain) && fresh(n.chain.db) && n.chain.db.reliable && n.chain.env == env
    ensures Standing(n, 0) && n.hashPendingCheckpoint.None? && n.adopted == [env.genesis] && n.hashSyncCheckpoint == env.genesis
    ensures n.chain.mapBlockIndex == Tree5(env.genesis) && n.chain.db.disk == Disk5(env.genesis)
    ensures n.chain.pindexBest == Some(env.genesis + 2) && AllModest(n.chain.mapBlockIndex, n.chain.db.disk)
  {
    hide AtTip, Replay, Fresh, DiskImage, Links, ChainState.Lagging, Branch, Stored,
         ChainState.MemoryAt, ChainState.Heaviest, WellFormed, BranchIds, Ascending, AllVouched, Modest, AllModest, Below;
    n := MainChain(env);
    AtRest(n);
    var g := env.genesis;
    Extend(n, CoinBlock(g + 3, g, 0), Place(3));
    AtRest(n);
    Extend(n, CoinBlock(g + 4, g + 3, 0), Place(4));
    AtRest(n);
  }

  lemma GenesisModest(t: Tree, disk: Disk)
    requires WellFormed(t) && Stored(t, disk) && forall x {:trigger t[x].prev} :: x in t ==> t[x].prev.None?
    ensures AllModest(t, disk)
  {
  }

  /** `c1` is not on the main chain, and its parent is not heavier than the tip. */
  lemma SideShape(g: Hash)
    requires WellFormed(Tree5(g))
    ensures var t := Tree5(g);
            && g + 2 in t && t[g + 2].work == 3 * WORK && g + 3 !in Branch(t, g + 2) && Below(t, g, g + 3) && g + 3 in t
            && !ParentHeavier(t, g + 3, 3 * WORK)
  {
    Branches(Tree5(g), g);
  }

  /** A checkpoint for `c1` is adopted, and the lighter `c1` is the tip. */
  method Switch(n: CheckpointState)
    requires Standing(n, 0) && n.chain.db.reliable && n.hashPendingCheckpoint.None? && n.hashSyncCheckpoint == n.chain.env.genesis
    requires n.chain.mapBlockIndex == Tree5(n.chain.env.genesis) && n.chain.db.disk == Disk5(n.chain.env.genesis)
    requires AllModest(n.chain.mapBlockIndex, n.chain.db.disk) && n.chain.pindexBest == Some(n.chain.env.genesis + 2)
    modifies n, n.chain, n.chain.db`committed, n.chain.db`txn, n.chain.db`broken
    ensures Standing(n, 0) && n.hashPendingCheckpoint.None? && n.chain.mapBlockIndex == Tree5(n.chain.env.genesis)
    ensures n.hashSyncCheckpoint == n.chain.env.genesis + 3 && n.chain.pindexBest == Some(n.chain.env.genesis + 3)
  {
    hide AtTip, Replay, Fresh, DiskImage, Links, ChainState.Lagging, Branch, Stored, ChainState.MemoryAt, ChainState.Heaviest,
         WellFormed, Ascending, AllVouched, AllModest, Modest, Below, RejectedOn, PostponedAs, ParentHeavier, Tree5, Disk5, ChainState.CommittedAt, CheckpointState.Contained;
    ghost var env, t, disk, g := n.chain.env, n.chain.mapBlockIndex, n.chain.db.disk, n.chain.env.genesis;
    AtRest(n);
    SideShape(g);
    ModestAt(t, disk, g + 3);
    ModestPasses(env, t, disk, g + 3, n.chain.bnBestChainWork, n.chain.nBestHeight);
    var ok, left := n.ProcessSyncCheckpoint(n.chain.env.genesis + 3, true, true);
    LeftOverIff(env, t, disk, true, g + 3, left, 3 * WORK, old(n.chain.nBestHeight));
    Stands(n, left);
  }

  function Tree6(g: Hash): Tree { Tree5(g)[g + 5 := BlockIndex(Some(g + 4), 3, 4 * WORK, 1, Place(5))] }

  function Disk6(g: Hash): Disk { Disk5(g)[(1, Place(5)) := LastBlock(g)] }

  /** The shape of the tree with `e3`, and what is postponed while `c1` is the tip. */
  lemma Shape(g: Hash)
    requires WellFormed(Tree6(g))
    ensures var t := Tree6(g);
            && g in t && g + 3 in t && g + 4 in t && g + 5 in t && t[g + 5].prev == Some(g + 4) && t[g + 5].height == 3
            && Branch(t, g + 4) == [g, g + 3, g + 4] && Branch(t, g + 5) == [g, g + 3, g + 4, g + 5]
            && ParentHeavier(t, g + 5, 2 * WORK) && !ParentHeavier(t, g + 4, 2 * WORK) && !ParentHeavier(t, g + 3, 2 * WORK)
            && !ParentHeavier(t, g, 2 * WORK)
  {
    Branches(Tree6(g), g);
  }

  /** What the blocks hold. */
  lemma Contents(g: Hash)
    requires WellFormed(Tree6(g)) && Stored(Tree6(g), Disk6(g))
    ensures var t, disk := Tree6(g), Disk6(g);
            && g + 3 in t && g + 4 in t && g + 5 in t && BlockOf(t, disk, g + 3).vtx == [Coin(g + 3, 0)]
            && BlockOf(t, disk, g + 4).vtx == [Coin(g + 4, 0)] && BlockOf(t, disk, g + 5).vtx == [Coin(g + 5, 51 * COIN)]
            && t[g].prev.None?
  {
  }

  lemma SideIsModest(g: Hash)
    requires WellFormed(Tree6(g)) && Stored(Tree6(g), Disk6(g))
    ensures Modest(Tree6(g), Disk6(g), g + 4)
  {
    Shape(g);
    Contents(g);
    hide Tree5, Tree6, Disk5, Disk6, Stored, WellFormed;
    var t, disk := Tree6(g), Disk6(g);
    forall x | x in Branch(t, g + 4) && x in t && t[x].prev.Some? ensures BlockOf(t, disk, x).vtx == [Coin(x, 0)] {
      assert x == g || x == g + 3 || x == g + 4;
    }
  }

  lemma LastIsRefused(env: Env, bestHeight: int)
    requires WellFormed(Tree6(env.genesis)) && Stored(Tree6(env.genesis), Disk6(env.genesis))
    ensures RefusedAt(env, Tree6(env.genesis), Disk6(env.genesis), env.genesis + 5, bestHeight)
  {
    hide Tree5, Tree6, Disk5, Disk6, Stored, WellFormed, Modest, Rejects, Branch, Coin, SubsidyOn, LastBlock;
    var g := env.genesis;
    Shape(g);
    Contents(g);
    SideIsModest(g);
    MoneySupply.SubsidyByPeriod(false, 3);
    CoinVerdict(env, Tree6(g), Disk6(g), g + 5, 51 * COIN, bestHeight);
  }

  /** No block below `e3` is refused, so nothing but `e3` is, and that is postponed. */
  lemma OthersPass(env: Env, bestHeight: int)
    requires WellFormed(Tree6(env.genesis)) && Stored(Tree6(env.genesis), Disk6(env.genesis))
    ensures !RejectedOn(env, Tree6(env.genesis), Disk6(env.genesis), env.genesis + 5, 2 * WORK, bestHeight)
  {
    hide Tree5, Tree6, Disk5, Disk6, Stored, WellFormed, Modest, Rejects, Branch, ParentHeavier, Coin, LastBlock;
    var t, disk, g := Tree6(env.genesis), Disk6(env.genesis), env.genesis;
    Shape(g);
    Contents(g);
    SideIsModest(g);
    ModestPasses(env, t, disk, g + 4, 2 * WORK, bestHeight);
    forall x | x in Branch(t, g + 5) && x in t && !ParentHeavier(t, x, 2 * WORK) ensures !Rejects(env, t, disk, x, bestHeight) {
      assert x == g || x == g + 3 || x == g + 4;
      assert x in Branch(t, g + 4);
    }
  }

  /** Exactly one reconnect is left over. */
  lemma LeftIsOne(env: Env, left: nat, bestHeight: int)
    requires PostponedAs(env, Tree6(env.genesis), Disk6(env.genesis), true, env.genesis + 5, left, 2 * WORK, bestHeight)
    ensures left == 1
  {
    hide Tree5, Tree6, Disk5, Disk6, Stored, WellFormed, Rejects, Branch, ParentHeavier, RefusedAt;
    var t, disk, g := Tree6(env.genesis), Disk6(env.genesis), env.genesis;
    Shape(g);
    LastIsRefused(env, bestHeight);
    assert Back(t, g + 5, 0) == g + 5 && Back(t, g + 5, 1) == g + 4 && Back(t, g + 5, 2) == g + 3 && Back(t, g + 5, 3) == g;
    assert LaterBlock(t, g + 5, 0, 2 * WORK) && RefusedBack(env, t, disk, g + 5, 0, bestHeight);
  }

  /** The run. All blocks have the same work. A checkpoint for `c1` makes it the tip although `a2` and `d2` have more in
      their chains. Then `e3` arrives: it has passed every check but those of ConnectBlock, its parent `d2` is heavier than
      the tip, so its connection is postponed, and refused. Memory names it the tip all the same, with the database at `d2`. */
  method Split(env: Env) returns (n: CheckpointState, left: nat)
    ensures fresh(n) && n.chain.db.reliable && Standing(n, left) && left == 1 && n.chain.Lagging(1) && !n.chain.Valid()
    ensures n.chain.pindexBest == Some(env.genesis + 5) && n.chain.db.committed.best == env.genesis + 4
    ensures forall p :: p in n.chain.db.disk ==> n.chain.db.disk[p].work == WORK
  {
    hide AtTip, Replay, Fresh, DiskImage, Links, ChainState.Lagging, Branch, Stored, ChainState.MemoryAt, ChainState.Heaviest,
         WellFormed, Ascending, AllVouched, AllModest, Below, RejectedOn, PostponedAs, ParentHeavier, BranchIds, RefusedAt;
    n := SideBranch(env);
    ghost var g := env.genesis;
    ghost var t, disk := n.chain.mapBlockIndex, n.chain.db.disk;
    Switch(n);
    AtRest(n);
    left := Last(n);
  }

  /** The last block of the run. */
  method Last(n: CheckpointState) returns (left: nat)
    requires Standing(n, 0) && n.chain.db.reliable && n.hashPendingCheckpoint.None?
    requires n.chain.mapBlockIndex == Tree5(n.chain.env.genesis) && n.chain.db.disk == Disk5(n.chain.env.genesis)
    requires AllModest(n.chain.mapBlockIndex, n.chain.db.disk)
    requires n.hashSyncCheckpoint == n.chain.env.genesis + 3 && n.chain.pindexBest == Some(n.chain.env.genesis + 3)
    modifies n, n.chain, n.chain.db`disk, n.chain.db`committed, n.chain.db`txn, n.chain.db`broken
    ensures Standing(n, left) && left == 1 && n.chain.Lagging(1) && !n.chain.Valid()
    ensures n.chain.pindexBest == Some(n.chain.env.genesis + 5) && n.chain.db.committed.best == n.chain.env.genesis + 4
    ensures n.chain.db.disk == Disk6(n.chain.env.genesis)
  {
    hide AtTip, Replay, Fresh, DiskImage, Links, ChainState.Lagging, Branch, ChainState.MemoryAt, ChainState.Heaviest,
         WellFormed, Ascending, AllVouched, AllModest, Below, RejectedOn, PostponedAs, ParentHeavier, BranchIds, RefusedAt, Modest;
    ghost var env, t, disk, g := n.chain.env, n.chain.mapBlockIndex, n.chain.db.disk, n.chain.env.genesis;
    var b := LastBlock(n.chain.env.genesis);
    AtRest(n);
    ReadyForLast(t, disk, g);
    var v;
    v, left := n.AcceptBlock(b, 1, Place(5), true, false, false, true);
    LastNotRefused(env, n.chain.db.disk, old(n.chain.nBestHeight));
    Stands(n, left);
    AtTheEnd(n, left, old(n.chain.nBestHeight));
  }

  lemma ReadyForLast(t: Tree, disk: Disk, g: Hash)
    requires t == Tree5(g) && disk == Disk5(g) && AllModest(t, disk)
    ensures WellFormed(t) && Stored(t, disk) && Ids(LastBlock(g).vtx) !! BranchIds(t, disk, g + 4) && Below(t, g + 3, g + 4)
  {
    Branches(t, g);
    ModestAt(t, disk, g + 4);
    ModestIds(t, disk, g + 4);
    assert Ids(LastBlock(g).vtx) == {TxId(g + 5)} && g + 5 !in Branch(t, g + 4);
  }

  lemma LastNotRefused(env: Env, disk: Disk, bestHeight: int)
    requires disk == Disk5(env.genesis) || disk == Disk6(env.genesis)
    ensures !RejectedOn(env, Tree6(env.genesis), disk, env.genesis + 5, 2 * WORK, bestHeight)
  {
    var t, g := Tree6(env.genesis), env.genesis;
    hide Rejects;
    if WellFormed(t) && Stored(t, disk) {
      assert (t[g + 5].file, t[g + 5].blockPos) in disk;
      OthersPass(env, bestHeight);
    }
  }

  lemma AtTheEnd(n: CheckpointState, left: nat, bestHeight: int)
    requires Standing(n, left) && n.chain.pindexBest == Some(n.chain.env.genesis + 5)
    requires n.chain.mapBlockIndex == Tree6(n.chain.env.genesis) && n.chain.db.disk == Disk6(n.chain.env.genesis)
    requires PostponedAs(n.chain.env, n.chain.mapBlockIndex, n.chain.db.disk, true, n.chain.env.genesis + 5, left, 2 * WORK, bestHeight)
    ensures left == 1 && n.chain.Lagging(1) && !n.chain.Valid() && n.chain.db.committed.best == n.chain.env.genesis + 4
  {
    hide AtTip, Replay, Fresh, DiskImage, Links, Ascending, AllVouched, PostponedAs, Branch, Tree5, Tree6, Disk5, Disk6,
         ChainState.MemoryAt;
    LeftIsOne(n.chain.env, left, bestHeight);
    AtRestLagging(n.chain);
    Shape(n.chain.env.genesis);
    assert n.chain.Lagging(1);
  }

  lemma AtRestLagging(c: ChainState)
    requires c.Lagging(1)
    ensures WellFormed(c.mapBlockIndex)
  {
  }
}
