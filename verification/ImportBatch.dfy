/** Importing many blocks in one database transaction, with the in-memory chain running ahead of it. */
module ImportBatch {
  import opened Basics
  import opened ChainTypes
  import opened ConnectSpec
  import opened BlockTree
  import opened Storage
  import opened Connect
  import opened ChainSpec
  import opened ChainStateMachine

  function TopOf(tip0: Hash, es: seq<Hash>): Hash {
    if es == [] then tip0 else es[|es| - 1]
  }

  /** `t` is `t0` with the blocks `es` stacked on `tip0`, one on the other. */
  ghost predicate Stacked(t0: Tree, tip0: Hash, t: Tree, es: seq<Hash>) {
    && WellFormed(t) && tip0 in t0
    && if es == [] then t == t0
       else
         var h, below := es[|es| - 1], es[..|es| - 1];
         h in t && t[h].prev == Some(TopOf(tip0, below)) && Stacked(t0, tip0, t - {h}, below)
  }

  lemma NothingStacked(t: Tree, tip: Hash)
    requires WellFormed(t) && tip in t
    ensures Stacked(t, tip, t, [])
  {
  }

  /** One more block on the stack. */
  lemma StackOne(t0: Tree, tip0: Hash, t: Tree, es: seq<Hash>, h: Hash, e: BlockIndex)
    requires Stacked(t0, tip0, t, es) && h !in t && WellFormed(t[h := e]) && e.prev == Some(TopOf(tip0, es))
    ensures Stacked(t0, tip0, t[h := e], es + [h])
  {
    assert t[h := e] - {h} == t;
    assert (es + [h])[..|es|] == es;
  }

  /** What a new entry on top of the stack does to the tree. */
  lemma EntryStacks(t0: Tree, tip0: Hash, t: Tree, disk: Disk, es: seq<Hash>, b: Block, h: Hash, e: BlockIndex)
    requires Stacked(t0, tip0, t, es) && Stored(t, disk) && Fresh(t, disk) && h !in t && e.prev == Some(b.prev)
    requires b.prev == TopOf(tip0, es) && b.prev in t && e.height == t[b.prev].height + 1 && t[b.prev].work < e.work
    requires (e.file, e.blockPos) in disk && disk[(e.file, e.blockPos)] == b && b.hash == h
    requires Ids(b.vtx) !! BranchIds(t, disk, b.prev)
    ensures var t' := t[h := e];
            && WellFormed(t') && Stored(t', disk) && Fresh(t', disk) && Stacked(t0, tip0, t', es + [h])
            && Branch(t', b.prev) == Branch(t, b.prev) && BlockOf(t', disk, h) == b && !ParentHeavier(t', h, t[b.prev].work)
  {
    hide Fresh, Stacked;
    StackedWellFormed(t0, tip0, t, es);
    BranchStable(t, b.prev, h, e);
    TreeGrows(t, disk, h, e);
    StackOne(t0, tip0, t, es, h, e);
  }

  lemma StackedWellFormed(t0: Tree, tip0: Hash, t: Tree, es: seq<Hash>)
    requires Stacked(t0, tip0, t, es)
    ensures WellFormed(t)
  {
  }

  /** The stack continues the branch it stands on. */
  lemma {:induction false} BranchStacked(t0: Tree, tip0: Hash, t: Tree, es: seq<Hash>)
    requires Stacked(t0, tip0, t, es)
    ensures WellFormed(t0) && TopOf(tip0, es) in t
    ensures Branch(t, TopOf(tip0, es)) == Branch(t0, tip0) + es
  {
    if es != [] {
      var h, below := es[|es| - 1], es[..|es| - 1];
      BranchStacked(t0, tip0, t - {h}, below);
      assert (t - {h})[h := t[h]] == t;
      BranchStable(t - {h}, TopOf(tip0, below), h, t[h]);
      assert es == below + [h];
    }
  }

  /** A chain at rest at `tip`: a good tree, with the database at `tip` too; if `heavy`, no block has more work. */
  ghost predicate Snapshot(genesis: Hash, t: Tree, disk: Disk, tip: Hash, d: ChainDb, height: int, work: nat, last: Option<Hash>,
                           heavy: bool) {
    && WellFormed(t) && Stored(t, disk) && Fresh(t, disk) && tip in t
    && (forall h {:trigger t[h].prev} :: h in t && t[h].prev.None? ==> h == genesis)
    && height == t[tip].height && work == t[tip].work
    && (heavy ==> forall h {:trigger t[h].work} :: h in t ==> t[h].work <= work)
    && (last.Some? ==> last.value in Branch(t, tip))
    && AtTip(d, t, disk, tip) && d.best == tip
  }

  lemma RestIsSnapshot(c: ChainState)
    requires c.Valid() && c.pindexBest.Some?
    ensures Snapshot(c.env.genesis, c.mapBlockIndex, c.db.disk, c.pindexBest.value, c.db.committed,
                     c.nBestHeight, c.bnBestChainWork, c.pblockindexFBBHLast, c.Heaviest())
    ensures WellFormed(c.mapBlockIndex) && c.pindexBest.value in c.mapBlockIndex
    ensures c.hashBestChain == c.pindexBest.value && c.pindexGenesisBlock == Some(c.env.genesis)
    ensures c.pnext == Links(Branch(c.mapBlockIndex, c.pindexBest.value))
  {
    hide AtTip, Replay, Fresh, Stored, DiskImage, Links;
  }

  lemma SnapshotIsRest(c: ChainState, heavy: bool)
    requires c.db.txn.None? && !c.db.broken && c.pindexBest == Some(c.hashBestChain) && c.pindexGenesisBlock == Some(c.env.genesis)
    requires Snapshot(c.env.genesis, c.mapBlockIndex, c.db.disk, c.hashBestChain, c.db.committed,
                      c.nBestHeight, c.bnBestChainWork, c.pblockindexFBBHLast, heavy)
    requires c.pnext == Links(Branch(c.mapBlockIndex, c.hashBestChain))
    ensures c.Valid() && (heavy ==> c.Heaviest())
  {
    hide AtTip, Replay, Fresh, Stored, DiskImage, Links;
  }

  /** CChainImportBatch. `snapTree` and `snapCommitted` remember the chain as Begin found it. */
  class CChainImportBatch {
    const chain: ChainState
    var fActive: bool
    var vEntries: seq<Hash>
    var savedBest: Option<Hash>
    var savedBestChain: Hash
    var savedGenesis: Option<Hash>
    var savedBestHeight: int
    var savedBestWork: nat
    var savedFBBHLast: Option<Hash>
    var savedBestNext: Option<Hash>
    ghost var snapTree: Tree
    ghost var snapCommitted: ChainDb
    ghost var snapHeavy: bool

    constructor (chain: ChainState)
      ensures this.chain == chain && !fActive
    {
      this.chain := chain;
      fActive, vEntries := false, [];
      savedBest, savedBestChain, savedGenesis, savedBestHeight, savedBestWork := None, 0, None, -1, 0;
      savedFBBHLast, savedBestNext := None, None;
      snapTree, snapCommitted, snapHeavy := map[], ChainDb(map[], map[], 0), false;
    }

    /** The saved fields are what memory showed at Begin, and the database still is. */
    ghost predicate Saved()
      reads this, chain, chain.db
    {
      && savedBest.Some? && savedBestChain == savedBest.value && savedGenesis == Some(chain.env.genesis)
      && savedBestNext.None? && chain.db.committed == snapCommitted
      && Snapshot(chain.env.genesis, snapTree, chain.db.disk, savedBest.value, snapCommitted,
                  savedBestHeight, savedBestWork, savedFBBHLast, snapHeavy)
    }

    /** Memory may have run ahead by the recorded blocks, of which the first `linked` are on the chain. */
    ghost predicate Ahead(linked: nat)
      reads this, chain, chain.db
    {
      && Saved() && linked <= |vEntries| && WellFormed(snapTree) && savedBest.value in snapTree
      && Stacked(snapTree, savedBest.value, chain.mapBlockIndex, vEntries)
      && chain.pnext == Links(Branch(snapTree, savedBest.value) + vEntries[..linked])
    }

    /** A batch in progress: memory at the last recorded block, the transaction with it. */
    ghost predicate Running()
      reads this, chain, chain.db
    {
      && fActive && Ahead(|vEntries|)
      && chain.MemoryAt(TopOf(savedBest.value, vEntries)) && (snapHeavy ==> chain.Heaviest())
      && chain.TxnAt(TopOf(savedBest.value, vEntries))
      && (chain.db.broken || chain.db.txn.value.best == TopOf(savedBest.value, vEntries))
    }

    /** A batch that can only be aborted: its last block may be recorded without being connected. */
    ghost predicate Abortable()
      reads this, chain, chain.db
    {
      fActive && exists linked :: Ahead(linked)
    }

    method Begin() returns (ok: bool)
      requires !fActive && chain.Valid() && chain.pindexBest.Some?
      modifies this, chain.db`txn, chain.db`broken
      ensures ok ==> Running() && vEntries == [] && snapTree == chain.mapBlockIndex && snapCommitted == chain.db.committed
                     && savedBest == chain.pindexBest && snapHeavy == chain.Heaviest()
      ensures !ok ==> !fActive && chain.Valid()
      ensures chain.db.reliable ==> ok && !chain.db.broken
    {
      hide Snapshot, AtTip, Replay, Fresh, Stored, DiskImage, Links, Branch, WellFormed, ChainState.Heaviest, Stacked;
      RestIsSnapshot(chain);
      ok := chain.db.TxnBegin();
      if !ok {
        return;
      }
      snapTree, snapCommitted, snapHeavy := chain.mapBlockIndex, chain.db.committed, chain.Heaviest();
      Remember();
      JustBegun();
    }

    /** What a rollback will put back. */
    method Remember()
      requires chain.pindexBest.Some?
      modifies this`savedBestChain, this`savedBest, this`savedGenesis, this`savedBestHeight, this`savedBestWork,
               this`savedFBBHLast, this`savedBestNext, this`vEntries, this`fActive
      ensures fActive && vEntries == []
      ensures savedBest == chain.pindexBest && savedBestChain == chain.hashBestChain && savedGenesis == chain.pindexGenesisBlock
      ensures savedBestHeight == chain.nBestHeight && savedBestWork == chain.bnBestChainWork
      ensures savedFBBHLast == chain.pblockindexFBBHLast && savedBestNext == NextOf(chain.pnext, savedBest.value)
    {
      savedBestChain, savedBest, savedGenesis := chain.hashBestChain, chain.pindexBest, chain.pindexGenesisBlock;
      savedBestHeight, savedBestWork, savedFBBHLast := chain.nBestHeight, chain.bnBestChainWork, chain.pblockindexFBBHLast;
      savedBestNext := NextOf(chain.pnext, chain.pindexBest.value);
      vEntries, fActive := [], true;
    }

    /** With nothing recorded yet, a batch runs. */
    lemma JustBegun()
      requires fActive && vEntries == [] && snapTree == chain.mapBlockIndex && snapCommitted == chain.db.committed
      requires chain.pindexBest.Some? && chain.MemoryAt(chain.pindexBest.value)
      requires savedBest == chain.pindexBest && savedBestChain == chain.hashBestChain && savedGenesis == chain.pindexGenesisBlock
      requires Snapshot(chain.env.genesis, snapTree, chain.db.disk, savedBest.value, snapCommitted,
                        savedBestHeight, savedBestWork, savedFBBHLast, snapHeavy)
      requires savedBestNext == NextOf(chain.pnext, savedBest.value) && snapHeavy == chain.Heaviest()
      requires chain.TxnAt(savedBest.value) && (chain.db.broken || chain.db.txn.value.best == savedBest.value)
      ensures Running()
    {
      hide Snapshot, AtTip, Replay, Fresh, Stored, DiskImage, Links, Branch, WellFormed, ChainState.Heaviest, Stacked;
      NothingStacked(snapTree, savedBest.value);
      TipHasNoNext(snapTree, savedBest.value);
      assert Branch(snapTree, savedBest.value) + vEntries[..0] == Branch(snapTree, savedBest.value);
    }

    /** IsExtending: only a heavier block on top of the current tip may join. */
    predicate IsExtending(hashPrev: Hash, work: nat)
      reads this, chain
    {
      fActive && hashPrev == chain.hashBestChain && work > chain.bnBestChainWork
    }

    /** Append a block to the block files while the batch runs. */
    method WriteToDisk(b: Block, nFile: nat, nBlockPos: nat)
      requires Running() && (nFile, nBlockPos) !in chain.db.disk
      modifies chain.db`disk
      ensures Running() && chain.TreeOk() && chain.db.disk == old(chain.db.disk)[(nFile, nBlockPos) := b]
      ensures forall h :: h in chain.mapBlockIndex ==>
                BranchIds(chain.mapBlockIndex, chain.db.disk, h) == BranchIds(chain.mapBlockIndex, old(chain.db.disk), h)
    {
      hide Links, DiskImage, Replay, BranchIds, Fresh, AtTip, Stacked, Stored;
      ghost var disk := chain.db.disk;
      chain.db.disk := chain.db.disk[(nFile, nBlockPos) := b];
      DiskGrows(chain.mapBlockIndex, disk, chain.db.disk);
      DiskGrows(snapTree, disk, chain.db.disk);
    }

    /** AcceptBlock inside a batch. */
    method AcceptBlock(b: Block, nFile: nat, nBlockPos: nat) returns (v: Verdict)
      requires Running() && chain.TreeOk() && b.work > 0 && (nFile, nBlockPos) !in chain.db.disk
      requires b.prev in chain.mapBlockIndex ==> Ids(b.vtx) !! BranchIds(chain.mapBlockIndex, chain.db.disk, b.prev)
      modifies this`vEntries, chain, chain.db`disk, chain.db`committed, chain.db`txn, chain.db`broken
      ensures v.Accepted? ==>
        && Running() && vEntries == old(vEntries) + [b.hash]
        && chain.mapBlockIndex == old(chain.mapBlockIndex)[b.hash := old(chain.NewEntry(b, nFile, nBlockPos))]
      ensures v.Accepted? ==>
        && chain.db.disk == old(chain.db.disk)[(nFile, nBlockPos) := b]
        && (chain.db.broken || !Rejects(chain.env, chain.mapBlockIndex, chain.db.disk, b.hash, old(chain.nBestHeight)))
      ensures !v.Accepted? ==> Abortable()
      ensures v.Refused? && old(b.hash !in chain.mapBlockIndex && b.prev in chain.mapBlockIndex) ==>
        RefusedAt(chain.env, old(chain.mapBlockIndex)[b.hash := old(chain.NewEntry(b, nFile, nBlockPos))],
                  old(chain.db.disk)[(nFile, nBlockPos) := b], b.hash, old(chain.nBestHeight))
      ensures chain.db.reliable && !old(chain.db.broken) ==>
        !chain.db.broken
        && (v.Faulted? ==> old(b.hash in chain.mapBlockIndex || !IsExtending(b.prev, chain.NewEntry(b, nFile, nBlockPos).work)))
    {
      hide Snapshot, AtTip, Replay, Fresh, DiskImage, Links, Stacked, Stored, BranchIds, WellFormed, Rejects, RefusedAt;
      if b.hash in chain.mapBlockIndex || b.prev !in chain.mapBlockIndex {
        assert Ahead(|vEntries|);
        return Refused;
      }
      WriteToDisk(b, nFile, nBlockPos);
      v := Append(b, nFile, nBlockPos);
    }

    /** AddToBlockIndex inside a batch. An accepted block is recorded and connected, in memory and in the
        open transaction; anything else leaves a batch that can be aborted. */
    method Append(b: Block, nFile: nat, nBlockPos: nat) returns (v: Verdict)
      requires Running() && chain.Addable(b, nFile, nBlockPos)
      modifies this`vEntries, chain, chain.db`committed, chain.db`txn, chain.db`broken
      ensures v.Accepted? ==>
        && Running() && vEntries == old(vEntries) + [b.hash]
        && chain.mapBlockIndex == old(chain.mapBlockIndex)[b.hash := old(chain.NewEntry(b, nFile, nBlockPos))]
      ensures !v.Accepted? ==> Abortable()
      ensures v.Refused? ==>
        RefusedAt(chain.env, old(chain.mapBlockIndex)[b.hash := old(chain.NewEntry(b, nFile, nBlockPos))], chain.db.disk,
                  b.hash, old(chain.nBestHeight))
      ensures v.Accepted? ==>
        chain.db.broken || !Rejects(chain.env, chain.mapBlockIndex, chain.db.disk, b.hash, old(chain.nBestHeight))
      ensures chain.db.reliable && !old(chain.db.broken) ==>
        !chain.db.broken
        && (v.Faulted? <==> old(b.hash in chain.mapBlockIndex || !IsExtending(b.prev, chain.NewEntry(b, nFile, nBlockPos).work)))
    {
      hide Snapshot, AtTip, Replay, Fresh, DiskImage, Links, RejectedOn, Rejects, RefusedAt;
      var h := b.hash;
      if h in chain.mapBlockIndex {
        assert Ahead(|vEntries|);
        return Faulted;
      }
      var e := chain.NewEntry(b, nFile, nBlockPos);
      if !IsExtending(b.prev, e.work) {
        assert Ahead(|vEntries|);
        return Faulted;
      }
      RecordEntry(h, e, b);
      ghost var d := chain.db.txn.value;
      var wrote := chain.db.WriteBlockIndex(h, DiskBlockIndex(e, None));
      if !wrote {
        assert Ahead(|vEntries| - 1);
        return Faulted;
      }
      if !chain.db.broken {
        AddLeaf(d, old(chain.mapBlockIndex), chain.db.disk, b.prev, h, e);
        AtTipIgnoresBest(d.(blockIndex := d.blockIndex[h := DiskBlockIndex(e, None)]), chain.db.txn.value,
                         chain.mapBlockIndex, chain.db.disk, b.prev);
      }
      v := ConnectRecorded(h, e, b);
    }

    /** The recorded block becomes the tip, in memory and in the open transaction. */
    method ConnectRecorded(h: Hash, e: BlockIndex, b: Block) returns (v: Verdict)
      requires Recorded(h, e, b) && chain.TxnAt(b.prev)
      modifies this`vEntries, chain, chain.db`committed, chain.db`txn, chain.db`broken
      ensures vEntries == old(vEntries) && chain.mapBlockIndex == old(chain.mapBlockIndex)
      ensures v.Accepted? ==> Running()
      ensures !v.Accepted? ==> Abortable()
      ensures v.Refused? ==> RefusedAt(chain.env, chain.mapBlockIndex, chain.db.disk, h, old(chain.nBestHeight))
      ensures v.Accepted? ==>
        chain.db.broken || !Rejects(chain.env, chain.mapBlockIndex, chain.db.disk, h, old(chain.nBestHeight))
      ensures chain.db.reliable && !old(chain.db.broken) ==> !v.Faulted? && !chain.db.broken
    {
      hide Snapshot, AtTip, Replay, Fresh, DiskImage, Links, RejectedOn, PostponedAs, Rejects, Stored;
      ghost var reached;
      ghost var left;
      v, left, reached := chain.SetBestChain(h, b, true);
      if v.Accepted? {
        BranchMember(chain.mapBlockIndex, h, reached);
        BranchStacked(snapTree, savedBest.value, chain.mapBlockIndex, vEntries);
        assert vEntries[..|vEntries|] == vEntries;
        assert Ahead(|vEntries|);
      } else {
        assert Ahead(|vEntries| - 1);
      }
    }

    /** A heavier block on top of the tip is in the tree and recorded, but not connected. */
    ghost predicate Recorded(h: Hash, e: BlockIndex, b: Block)
      reads this, chain, chain.db
    {
      && fActive && vEntries != [] && savedBest.Some? && TopOf(savedBest.value, vEntries) == h && Ahead(|vEntries| - 1)
      && h in chain.mapBlockIndex && chain.mapBlockIndex[h] == e && e.prev == Some(b.prev)
      && chain.MemoryAt(b.prev) && e.work > chain.bnBestChainWork
      && b == BlockOf(chain.mapBlockIndex, chain.db.disk, h)
      && !ParentHeavier(chain.mapBlockIndex, h, chain.bnBestChainWork)
      && (snapHeavy ==> forall x {:trigger chain.mapBlockIndex[x].work} :: x in chain.mapBlockIndex ==> chain.mapBlockIndex[x].work <= e.work)
    }

    /** Insert the entry into the tree and record it for a later rollback. */
    method RecordEntry(h: Hash, e: BlockIndex, b: Block)
      requires Running() && chain.Addable(b, e.file, e.blockPos) && h == b.hash && h !in chain.mapBlockIndex
      requires e == chain.NewEntry(b, e.file, e.blockPos) && IsExtending(b.prev, e.work)
      modifies this`vEntries, chain`mapBlockIndex
      ensures Recorded(h, e, b) && vEntries == old(vEntries) + [h]
      ensures chain.mapBlockIndex == old(chain.mapBlockIndex)[h := e]
    {
      hide Snapshot, AtTip, Replay, Fresh, DiskImage, Links, Stored, Stacked, WellFormed, Branch, ParentHeavier;
      EntryStacks(snapTree, savedBest.value, chain.mapBlockIndex, chain.db.disk, vEntries, b, h, e);
      chain.mapBlockIndex := chain.mapBlockIndex[h := e];
      vEntries := vEntries + [h];
      assert vEntries[..|vEntries| - 1] == old(vEntries);
      assert old(vEntries)[..|old(vEntries)|] == old(vEntries);
    }

    /** RollbackMemory: take the recorded blocks back, last one first, and restore the saved fields. */
    method RollbackMemory(ghost linked: nat)
      requires Ahead(linked) && chain.db.txn.None? && !chain.db.broken
      modifies this`vEntries, chain
      ensures chain.Valid() && (snapHeavy ==> chain.Heaviest()) && vEntries == []
      ensures chain.mapBlockIndex == snapTree && chain.db.committed == snapCommitted
      ensures chain.pindexBest == savedBest && chain.hashBestChain == savedBestChain && chain.nBestHeight == savedBestHeight
      ensures chain.bnBestChainWork == savedBestWork && chain.pindexGenesisBlock == savedGenesis
      ensures chain.pblockindexFBBHLast == savedFBBHLast
    {
      hide Snapshot, AtTip, Replay, Fresh, Stored, DiskImage, Links;
      TipHasNoNext(snapTree, savedBest.value);
      chain.mapBlockIndex, chain.pnext := Unwind(snapTree, savedBest.value, chain.mapBlockIndex, chain.pnext, vEntries, linked);
      chain.hashBestChain := savedBestChain;
      chain.pindexBest := savedBest;
      chain.pindexGenesisBlock := savedGenesis;
      chain.nBestHeight := savedBestHeight;
      chain.bnBestChainWork := savedBestWork;
      chain.pblockindexFBBHLast := savedFBBHLast;
      if savedBest.Some? {
        chain.pnext := SetNext(chain.pnext, savedBest.value, savedBestNext);
      }
      vEntries := [];
      SnapshotIsRest(chain, snapHeavy);
    }

    /** Abort: the chain is exactly what Begin found, in memory and on disk. */
    method Abort()
      requires Abortable()
      modifies this`vEntries, this`fActive, chain, chain.db`txn, chain.db`broken
      ensures !fActive && chain.Valid() && (snapHeavy ==> chain.Heaviest())
      ensures chain.mapBlockIndex == snapTree && chain.db.committed == snapCommitted && chain.pindexBest == savedBest
      ensures chain.pblockindexFBBHLast == savedFBBHLast
    {
      ghost var linked :| Ahead(linked);
      fActive := false;
      chain.db.TxnAbort();
      RollbackMemory(linked);
    }

    /** Commit: either every recorded block is committed, or the chain is exactly what Begin found. */
    method Commit() returns (ok: bool)
      requires Running()
      modifies this`vEntries, this`fActive, chain, chain.db`committed, chain.db`txn, chain.db`broken
      ensures !fActive && chain.Valid() && (snapHeavy ==> chain.Heaviest())
      ensures ok ==> chain.mapBlockIndex == old(chain.mapBlockIndex)
                     && chain.pindexBest == Some(TopOf(savedBest.value, old(vEntries)))
      ensures !ok ==> chain.mapBlockIndex == snapTree && chain.db.committed == snapCommitted && chain.pindexBest == savedBest
      ensures chain.db.reliable && !old(chain.db.broken) ==> ok
    {
      hide Snapshot, AtTip, Replay, Fresh, Stored, DiskImage, Links;
      fActive := false;
      ok := chain.db.TxnCommit();
      if !ok {
        RollbackMemory(|vEntries|);
        return;
      }
      vEntries := [];
    }
  }

  /** At rest, tree, block files and tip determine everything else: a committed batch leaves the same links and
      the same database records as connecting and committing its blocks one by one. */
  lemma RestIsDetermined(c: ChainState, c': ChainState)
    requires c.Valid() && c'.Valid() && c.env.genesis == c'.env.genesis && c.pindexBest.Some?
    requires c'.mapBlockIndex == c.mapBlockIndex && c'.db.disk == c.db.disk && c'.pindexBest == c.pindexBest
    ensures c'.pnext == c.pnext && c'.hashBestChain == c.hashBestChain
    ensures c'.nBestHeight == c.nBestHeight && c'.bnBestChainWork == c.bnBestChainWork
    ensures c'.pindexGenesisBlock == c.pindexGenesisBlock
    ensures c'.db.committed.tx == c.db.committed.tx && c'.db.committed.best == c.db.committed.best
    ensures c'.db.committed.blockIndex == c.db.committed.blockIndex
  {
    hide Fresh, Links, DiskImage;
    assert c.CommittedAt(c.pindexBest.value) && c'.CommittedAt(c.pindexBest.value);
  }

  /** Assigning a pnext pointer. */
  function SetNext(pnext: map<Hash, Hash>, h: Hash, next: Option<Hash>): map<Hash, Hash> {
    if next.Some? then pnext[h := next.value] else pnext - {h}
  }

  /** The loop of RollbackMemory over the recorded blocks. */
  method Unwind(ghost t0: Tree, ghost tip0: Hash, t: Tree, links: map<Hash, Hash>, es: seq<Hash>, ghost linked: nat)
      returns (t': Tree, pnext: map<Hash, Hash>)
    requires WellFormed(t0) && Stacked(t0, tip0, t, es) && linked <= |es|
    requires links == Links(Branch(t0, tip0) + es[..linked])
    ensures t' == t0 && pnext == Links(Branch(t0, tip0))
  {
    hide Links;
    t', pnext := t, links;
    ghost var base := Branch(t0, tip0);
    BranchStacked(t0, tip0, t, es);
    BranchDistinct(t, TopOf(tip0, es));
    var i := |es|;
    assert es[..i] == es;
    while i > 0
      invariant 0 <= i <= |es| && Stacked(t0, tip0, t', es[..i])
      invariant pnext == Links(base + es[..Min(i, linked)])
    {
      var h := es[i - 1];
      assert es[..i][..i - 1] == es[..i - 1];
      UnlinkTop(base, es, linked, i);
      var prev := t'[h].prev;
      if prev.Some? && prev.value in pnext && pnext[prev.value] == h {
        pnext := pnext - {prev.value};
      }
      t' := t' - {h};
      i := i - 1;
    }
    assert base + es[..0] == base;
  }

  function Min(a: nat, b: nat): nat { if a < b then a else b }

  /** Unlinking entry `i - 1` shortens the linked stack when it was linked, and changes nothing otherwise. */
  lemma UnlinkTop(base: seq<Hash>, es: seq<Hash>, linked: nat, i: nat)
    requires base != [] && Distinct(base + es) && linked <= |es| && 0 < i <= |es|
    ensures Unlinked(Links(base + es[..Min(i, linked)]), Some(TopOf(base[|base| - 1], es[..i - 1])), es[i - 1])
         == Links(base + es[..Min(i - 1, linked)])
  {
    hide Links, Distinct;
    if i <= linked {
      UnlinkLast(base + es[..i - 1], es[i - 1], base + es, |base| + i - 1);
      assert base + es[..i - 1] + [es[i - 1]] == base + es[..i];
      assert (base + es[..i - 1])[|base| + i - 2] == TopOf(base[|base| - 1], es[..i - 1]);
    } else {
      NotAValue(base + es[..linked], es[i - 1], base + es, |base| + i - 1);
    }
  }

  lemma UnlinkLast(br: seq<Hash>, h: Hash, all: seq<Hash>, n: nat)
    requires br != [] && Distinct(all) && n == |br| < |all| && br == all[..n] && h == all[n]
    ensures Unlinked(Links(br + [h]), Some(br[|br| - 1]), h) == Links(br)
  {
    assert br + [h] == all[..n + 1] && (br + [h])[..|br|] == br;
    LinksShrink(br + [h]);
  }

  lemma NotAValue(br: seq<Hash>, h: Hash, all: seq<Hash>, n: nat)
    requires Distinct(all) && |br| <= n < |all| && br == all[..|br|] && h == all[n]
    ensures forall x :: x in Links(br) ==> Links(br)[x] != h
  {
    LinksMeaning(br);
    forall x | x in Links(br) ensures Links(br)[x] != h {
      var k :| 0 <= k < |br| - 1 && br[k] == x;
      assert Links(br)[br[k]] == br[k + 1] && br[k + 1] == all[k + 1];
    }
  }

  lemma TipHasNoNext(t: Tree, tip: Hash)
    requires WellFormed(t) && tip in t
    ensures tip !in Links(Branch(t, tip))
  {
    BranchDistinct(t, tip);
    LinksMeaning(Branch(t, tip));
  }
}
