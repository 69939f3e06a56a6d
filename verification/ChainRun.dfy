/** Whole histories of the node: blocks arriving one by one or from a file, checkpoints that move the chain, storage failing
    at any time, and restarts. */
module ChainRun {
  import opened Basics
  import opened ChainTypes
  import opened TxIndexSpec
  import opened BlockTree
  import opened Storage
  import opened Connect
  import opened ChainSpec
  import opened ChainStateMachine
  import opened ImportBatch
  import opened SyncCheckpoints
  import opened ChainHistory
  import ConnectSpec
  import Money
  import MoneySupply

  const MAX_IMPORT_BATCH_BLOCKS: nat := 1000

  /** The standing assumptions on an arriving block: its place is free, it carries work, and no transaction of it
      occurs earlier on its branch. */
  predicate Suits(c: ChainState, a: Arrival)
    reads c, c.db
    requires c.TreeOk()
  {
    && a.b.work > 0 && (a.nFile, a.nBlockPos) !in c.db.disk
    && (a.b.prev in c.mapBlockIndex ==> Ids(a.b.vtx) !! BranchIds(c.mapBlockIndex, c.db.disk, a.b.prev))
  }

  /** Nothing waits and the tip is the heaviest block, as it stays while no checkpoint is announced. */
  ghost predicate Plain(n: CheckpointState)
    reads n, n.chain
  {
    n.hashPendingCheckpoint.None? && n.chain.Heaviest()
  }

  /** At rest, or with `left` reconnects left over. */
  ghost predicate Standing(n: CheckpointState, left: nat)
    reads n, n.chain, n.chain.db
  {
    && n.Sound() && n.chain.TreeOk() && n.chain.pindexBest.Some? && n.chain.pindexBest.value in n.chain.mapBlockIndex
    && (n.chain.Valid() <==> left == 0) && (left > 0 ==> n.chain.Lagging(left))
  }

  lemma RestHasTree(c: ChainState)
    requires c.Valid()
    ensures c.TreeOk() && (c.pindexBest.Some? ==> c.pindexBest.value in c.mapBlockIndex)
  {
    hide AtTip, Replay, DiskImage, Links, Branch;
  }

  lemma Stands(n: CheckpointState, left: nat)
    requires n.Sound() && n.chain.pindexBest.Some? && (n.chain.Valid() <==> left == 0) && (left > 0 ==> n.chain.Lagging(left))
    ensures Standing(n, left)
  {
    hide AtTip, Replay, DiskImage, Links, Branch;
  }

  // ---------------------------------------------------------------- one block

  /** A block from a peer. */
  method Receive(n: CheckpointState, a: Arrival, fStrict: bool) returns (left: nat)
    requires Standing(n, 0)
    modifies n, n.chain, n.chain.db`disk, n.chain.db`committed, n.chain.db`txn, n.chain.db`broken
    ensures Standing(n, left) && Received(n.chain.env, fStrict, old(Seen(n, 0)), a, Seen(n, left))
    ensures old(Plain(n)) ==> left == 0 && Plain(n)
    ensures fStrict && !a.fInitialDownload && old(n.Contained()) ==> n.Contained()
  {
    hide AtTip, Replay, Fresh, DiskImage, Links, BranchIds, Stored, WellFormed, Branch, Below, ChainState.Heaviest,
         ChainState.Lagging, ChainState.LeftOver, ChainState.MemoryAt, ChainState.CommittedAt, Ascending, AllVouched, RejectedOn,
         Received, Open;
    left := 0;
    ghost var u := Seen(n, 0);
    StandingSeen(n, 0);
    SuitsIsOpen(n.chain, a);
    if !Suits(n.chain, a) {
      PassedOver(n.chain.env, fStrict, u, a);
      return;
    }
    var v;
    v, left := n.AcceptBlock(a.b, a.nFile, a.nBlockPos, fStrict, a.fInitialDownload, a.fStillDownload, a.written);
    Stands(n, left);
    StandingSeen(n, left);
    WasReceived(n.chain.env, fStrict, u, a, Seen(n, left), v);
  }

  /** What memory shows of a standing chain. */
  lemma StandingSeen(n: CheckpointState, left: nat)
    requires Standing(n, left)
    ensures var c := n.chain; var t := c.mapBlockIndex;
            && WellFormed(t) && Stored(t, c.db.disk) && c.pindexBest == Some(c.hashBestChain) && c.hashBestChain in t
            && c.bnBestChainWork == t[c.hashBestChain].work && c.nBestHeight == t[c.hashBestChain].height
    ensures |n.adopted| > 0 && n.hashSyncCheckpoint == n.adopted[|n.adopted| - 1] && n.hashSyncCheckpoint in n.chain.mapBlockIndex
    ensures left > 0 ==> left <= n.chain.mapBlockIndex[n.chain.hashBestChain].height
  {
    hide AtTip, Replay, Fresh, DiskImage, Links, Branch, Stored, Below;
  }

  lemma SuitsIsOpen(c: ChainState, a: Arrival)
    requires c.TreeOk()
    ensures Open(c.mapBlockIndex, c.db.disk, a)
       <==> Suits(c, a) && a.b.hash !in c.mapBlockIndex && a.b.prev in c.mapBlockIndex
    ensures c.NewEntry(a.b, a.nFile, a.nBlockPos) == EntryOn(c.mapBlockIndex, a)
  {
  }

  lemma PassedOver(env: Env, fStrict: bool, u: View, a: Arrival)
    requires !Open(u.t, u.disk, a)
    ensures Received(env, fStrict, u, a, u)
  {
  }

  /** AcceptBlock's contract, seen from outside. */
  lemma WasReceived(env: Env, fStrict: bool, u: View, a: Arrival, v: View, verdict: Verdict)
    requires u.tip in u.t && v.reliable == u.reliable && u.adopted <= v.adopted && u.left == 0
    requires v.t == if verdict.Accepted? then TreeWith(u.t, a) else u.t
    requires v.disk == u.disk || v.disk == DiskWith(u.disk, a)
    requires verdict.Accepted? ==> v.disk == DiskWith(u.disk, a)
    requires !verdict.Accepted? ==> v == u.(disk := v.disk)
    requires !Open(u.t, u.disk, a) ==> !verdict.Accepted? && v.disk == u.disk
    requires u.reliable ==> !verdict.Faulted?
    requires verdict.Refused? && Open(u.t, u.disk, a) ==>
               || (fStrict && !a.fInitialDownload && WellFormed(u.t) && a.b.prev in u.t && !Below(u.t, u.sync, a.b.prev))
               || RejectedOn(env, TreeWith(u.t, a), v.disk, a.b.hash, u.t[u.tip].work, u.t[u.tip].height)
    requires verdict.Accepted? && (u.pending.None? || a.fStillDownload) ==>
               && v.tip == (if EntryOn(u.t, a).work > u.t[u.tip].work then a.b.hash else u.tip)
               && v.pending == u.pending && v.adopted == u.adopted && v.sync == u.sync
    ensures Received(env, fStrict, u, a, v)
  {
    hide Below, Rejects, Branch, BranchIds;
    if verdict.Refused? && Open(u.t, u.disk, a) && v.disk == u.disk {
      NotStoredYet(env, u.t, u.disk, a, u.t[u.tip].work, u.t[u.tip].height);
    }
  }

  /** The rules object to a stored block only. */
  lemma NotStoredYet(env: Env, t: Tree, disk: Disk, a: Arrival, work: nat, height: int)
    requires Open(t, disk, a)
    ensures !RejectedOn(env, TreeWith(t, a), disk, a.b.hash, work, height)
  {
    assert TreeWith(t, a)[a.b.hash].file == a.nFile && TreeWith(t, a)[a.b.hash].blockPos == a.nBlockPos;
  }

  // ---------------------------------------------------------------- importing a file

  /** IsEligible and CanAppend, but for the number of blocks. */
  predicate MayJoin(c: ChainState, a: Arrival)
    reads c
  {
    a.fInitialDownload && a.quiet && c.pindexBest.Some? && a.b.prev == c.hashBestChain
  }

  /** Between two blocks of an import: a running batch of no more than 1000 blocks over a sound snapshot, or no batch and the
      chain standing. */
  ghost predicate Importing(n: CheckpointState, batch: CChainImportBatch, left: nat)
    reads n, n.chain, n.chain.db, batch
  {
    && batch.chain == n.chain && n.Sound() && n.chain.TreeOk()
    && if batch.fActive
       then batch.Running() && |batch.vEntries| <= 1000 && n.SoundOn(batch.snapTree) && left == 0 && (n.chain.db.reliable ==> !n.chain.db.broken)
       else Standing(n, left)
  }

  ghost predicate PlainImport(n: CheckpointState, batch: CChainImportBatch)
    reads n, n.chain, batch
  {
    n.hashPendingCheckpoint.None? && if batch.fActive then batch.snapHeavy else n.chain.Heaviest()
  }

  /** LoadExternalBlockFile over the blocks of a file. Runs of blocks that extend the tip share one transaction; the
      first rejected block ends the import and drops the open batch, and so does a commit that fails. */
  method LoadExternalBlockFile(n: CheckpointState, blocks: seq<Arrival>, fStrict: bool)
      returns (left: nat, ghost k: nat, ghost j: nat, ghost work: nat, ghost height: int)
    requires Standing(n, 0)
    modifies n, n.chain, n.chain.db`disk, n.chain.db`committed, n.chain.db`txn, n.chain.db`broken
    ensures Standing(n, left) && Imported(n.chain.env, fStrict, old(Seen(n, 0)), blocks, Seen(n, left), k, j, work, height)
    ensures old(Plain(n)) ==> left == 0 && Plain(n)
    ensures fStrict && (forall a :: a in blocks ==> !a.fInitialDownload) && old(n.Contained()) ==> n.Contained()
  {
    hide AtTip, Replay, Fresh, DiskImage, Links, BranchIds, Stored, WellFormed, Branch, Below, ChainState.Heaviest,
         ChainState.Lagging, CChainImportBatch.Running, Standing, Open, Objection, Ascending, AllVouched, ChainState.TreeOk;
    var batch := new CChainImportBatch(n.chain);
    var i, stopped := 0, false;
    ghost var b := 0;
    ghost var t, disk := n.chain.mapBlockIndex, n.chain.db.disk;
    left, k, j, work, height := 0, 0, 0, 0, 0;
    StandingFacts(n, 0);
    assert blocks[..0] == [];
    while i < |blocks| && !stopped
      invariant 0 <= b <= i <= |blocks| && k <= i && fresh(batch) && Importing(n, batch, left)
      invariant n.chain.db.reliable == old(n.chain.db.reliable) && old(n.adopted) <= n.adopted
      invariant old(n.hashPendingCheckpoint).None? ==>
        n.hashPendingCheckpoint.None? && n.adopted == old(n.adopted) && n.hashSyncCheckpoint == old(n.hashSyncCheckpoint)
      invariant stopped ==> !batch.fActive && n.chain.mapBlockIndex == Through(t, disk, blocks[..k]).0
      invariant !stopped ==> left == 0 && (n.chain.mapBlockIndex, n.chain.db.disk) == Through(t, disk, blocks[..i])
      invariant batch.fActive ==> batch.snapTree == Through(t, disk, blocks[..b]).0
      invariant stopped && left == 0 && n.chain.db.reliable && old(n.hashPendingCheckpoint).None? ==>
        && k <= j < |blocks|
        && var (below, files) := Through(t, disk, blocks[..j]);
        && Open(below, files, blocks[j]) && Objection(n.chain.env, fStrict, old(n.hashSyncCheckpoint), below, files, blocks[j], work, height)
      invariant old(Plain(n)) ==> left == 0 && PlainImport(n, batch)
      invariant fStrict && (forall a :: a in blocks ==> !a.fInitialDownload) && old(n.Contained()) ==> n.Contained() && !batch.fActive
      decreases |blocks| - i, !stopped
    {
      ghost var kept, below := batch.fActive, n.chain.mapBlockIndex;
      ghost var snap := batch.snapTree;
      ThroughNext(t, disk, blocks, i);
      stopped, left, work, height := ImportOne(n, batch, blocks[i], fStrict);
      j := i;
      if stopped {
        k := if left > 0 then i + 1 else if n.chain.mapBlockIndex == below then i else b;
      } else if batch.fActive && !(kept && batch.snapTree == snap) {
        b := i;
      }
      i := i + 1;
    }
    if !stopped {
      k := i;
    }
    if batch.fActive {
      var ok := EndBatch(n, batch);
      if !ok {
        k := b;
      }
    }
  }

  lemma StandingFacts(n: CheckpointState, left: nat)
    requires Standing(n, left)
    ensures n.Sound() && n.chain.TreeOk() && n.chain.pindexBest.Some? && (n.chain.Valid() <==> left == 0)
  {
  }

  /** Commit the open batch. */
  method EndBatch(n: CheckpointState, batch: CChainImportBatch) returns (ok: bool)
    requires Importing(n, batch, 0) && batch.fActive
    modifies batch, n.chain, n.chain.db`committed, n.chain.db`txn, n.chain.db`broken
    ensures !batch.fActive && Standing(n, 0) && Importing(n, batch, 0)
    ensures n.chain.mapBlockIndex == if ok then old(n.chain.mapBlockIndex) else old(batch.snapTree)
    ensures n.chain.db.reliable ==> ok
    ensures old(PlainImport(n, batch)) ==> PlainImport(n, batch)
  {
    hide AtTip, Replay, Fresh, DiskImage, Links, BranchIds, Stored, WellFormed, Branch, Below, ChainState.Heaviest,
         ChainState.MemoryAt, Snapshot, Stacked;
    ok := batch.Commit();
    RestHasTree(n.chain);
  }

  /** Drop the open batch. */
  method DropBatch(n: CheckpointState, batch: CChainImportBatch)
    requires batch.chain == n.chain && batch.Abortable() && n.SoundOn(batch.snapTree)
    modifies batch, n.chain, n.chain.db`txn, n.chain.db`broken
    ensures !batch.fActive && Standing(n, 0) && Importing(n, batch, 0) && n.chain.mapBlockIndex == old(batch.snapTree)
    ensures old(n.hashPendingCheckpoint.None? && batch.snapHeavy) ==> PlainImport(n, batch)
  {
    hide AtTip, Replay, Fresh, DiskImage, Links, BranchIds, Stored, WellFormed, Branch, Below, ChainState.Heaviest,
         ChainState.MemoryAt, Snapshot, Stacked;
    batch.Abort();
    RestHasTree(n.chain);
  }

  /** One turn of LoadExternalBlockFile. A known block is skipped; one whose parent is unknown waits elsewhere. */
  method ImportOne(n: CheckpointState, batch: CChainImportBatch, a: Arrival, fStrict: bool)
      returns (stopped: bool, left: nat, ghost work: nat, ghost height: int)
    requires Importing(n, batch, 0)
    modifies n, batch, n.chain, n.chain.db`disk, n.chain.db`committed, n.chain.db`txn, n.chain.db`broken
    ensures Importing(n, batch, left) && (stopped ==> !batch.fActive) && (!stopped ==> left == 0)
    ensures old(PlainImport(n, batch)) ==> left == 0 && PlainImport(n, batch)
    ensures fStrict && !a.fInitialDownload && old(n.Contained() && !batch.fActive) ==> n.Contained() && !batch.fActive
    ensures old(n.adopted) <= n.adopted && KeepsCheckpoints(old(Seen(n, 0)), Seen(n, 0))
    ensures batch.fActive ==>
      batch.snapTree == old(n.chain.mapBlockIndex) || (old(batch.fActive) && batch.snapTree == old(batch.snapTree))
    ensures OneImported(old(Seen(n, 0)), a, Seen(n, 0), stopped, left, old(batch.fActive), old(batch.snapTree))
    ensures batch.fActive && old(Open(n.chain.mapBlockIndex, n.chain.db.disk, a)) ==> a.fInitialDownload && a.quiet
    ensures stopped && left == 0 && n.chain.db.reliable && old(n.hashPendingCheckpoint).None? ==>
      && old(Open(n.chain.mapBlockIndex, n.chain.db.disk, a))
      && Objection(n.chain.env, fStrict, old(n.hashSyncCheckpoint), old(n.chain.mapBlockIndex), old(n.chain.db.disk), a, work, height)
  {
    hide AtTip, Replay, Fresh, DiskImage, Links, BranchIds, Stored, WellFormed, Branch, Below, ChainState.Heaviest, ChainState.MemoryAt,
         ChainState.Lagging, CChainImportBatch.Running, Ascending, AllVouched, Open, Objection, ChainState.TreeOk, Standing;
    stopped, left, work, height := false, 0, 0, 0;
    SuitsIsOpen(n.chain, a);
    if !Suits(n.chain, a) || a.b.hash in n.chain.mapBlockIndex || a.b.prev !in n.chain.mapBlockIndex {
      return;
    }
    if batch.fActive && !(|batch.vEntries| < MAX_IMPORT_BATCH_BLOCKS && MayJoin(n.chain, a)) {
      var ok := EndBatch(n, batch);
      if !ok {
        stopped := true;
        return;
      }
    }
    if !batch.fActive && MayJoin(n.chain, a) {
      StartBatch(n, batch);
    }
    stopped, left, work, height := Process(n, batch, a, fStrict);
  }

  /** While no checkpoint waits, none is adopted. */
  ghost predicate KeepsCheckpoints(u: View, v: View) {
    u.reliable == v.reliable && (u.pending.None? ==> v.pending.None? && v.adopted == u.adopted && v.sync == u.sync)
  }

  /** What a turn makes of the blocks: skipped, in, or out with what the batch dropped. */
  ghost predicate OneImported(u: View, a: Arrival, v: View, stopped: bool, left: nat, batched: bool, snap: Tree) {
    && (!Open(u.t, u.disk, a) ==> !stopped && v.t == u.t && v.disk == u.disk)
    && (Open(u.t, u.disk, a) && !stopped ==> v.t == TreeWith(u.t, a) && v.disk == DiskWith(u.disk, a))
    && (Open(u.t, u.disk, a) && stopped ==>
          if left > 0 then v.t == TreeWith(u.t, a) else v.t == u.t || (batched && v.t == snap))
  }

  method StartBatch(n: CheckpointState, batch: CChainImportBatch)
    requires Importing(n, batch, 0) && !batch.fActive
    modifies batch, n.chain.db`txn, n.chain.db`broken
    ensures Importing(n, batch, 0) && (batch.fActive ==> batch.snapTree == n.chain.mapBlockIndex && batch.vEntries == [])
    ensures old(PlainImport(n, batch)) ==> PlainImport(n, batch)
  {
    hide AtTip, Replay, Fresh, DiskImage, Links, BranchIds, Stored, WellFormed, Branch, Below, ChainState.Heaviest,
         Ascending, AllVouched, Snapshot, Stacked, ChainState.MemoryAt;
    var begun := batch.Begin();
    if !begun {
      RestHasTree(n.chain);
    }
  }

  /** ProcessBlock, inside the batch if one runs. */
  method Process(n: CheckpointState, batch: CChainImportBatch, a: Arrival, fStrict: bool)
      returns (stopped: bool, left: nat, ghost work: nat, ghost height: int)
    requires Importing(n, batch, 0) && Suits(n.chain, a) && a.b.prev in n.chain.mapBlockIndex && a.b.hash !in n.chain.mapBlockIndex
    requires batch.fActive ==> a.b.prev == n.chain.hashBestChain && |batch.vEntries| < 1000
    modifies n, batch, n.chain, n.chain.db`disk, n.chain.db`committed, n.chain.db`txn, n.chain.db`broken
    ensures Importing(n, batch, left) && (stopped ==> !batch.fActive) && (!stopped ==> left == 0)
    ensures old(PlainImport(n, batch)) ==> left == 0 && PlainImport(n, batch)
    ensures !old(batch.fActive) && fStrict && !a.fInitialDownload && old(n.Contained()) ==> n.Contained()
    ensures !old(batch.fActive) ==> !batch.fActive
    ensures old(n.adopted) <= n.adopted && KeepsCheckpoints(old(Seen(n, 0)), Seen(n, 0))
    ensures batch.fActive ==> batch.snapTree == old(batch.snapTree)
    ensures OneImported(old(Seen(n, 0)), a, Seen(n, 0), stopped, left, old(batch.fActive), old(batch.snapTree))
    ensures stopped && left == 0 && n.chain.db.reliable && old(n.hashPendingCheckpoint).None? ==>
      Objection(n.chain.env, fStrict, old(n.hashSyncCheckpoint), old(n.chain.mapBlockIndex), old(n.chain.db.disk), a, work, height)
  {
    hide AtTip, Replay, Fresh, DiskImage, Links, BranchIds, Stored, WellFormed, Branch, Below, ChainState.Heaviest,
         ChainState.Lagging, ChainState.LeftOver, Ascending, AllVouched, Snapshot, Stacked, ChainState.MemoryAt, ChainState.TreeOk,
         Open, Objection, CChainImportBatch.Running, RejectedOn;
    SuitsIsOpen(n.chain, a);
    var v;
    if batch.fActive {
      left := 0;
      v, work, height := ProcessInBatch(n, batch, a, fStrict);
    } else {
      left, v, work, height := ProcessAlone(n, a, fStrict);
    }
    stopped := !v.Accepted? || left > 0;
  }

  method ProcessAlone(n: CheckpointState, a: Arrival, fStrict: bool)
      returns (left: nat, v: Verdict, ghost work: nat, ghost height: int)
    requires Standing(n, 0) && Suits(n.chain, a) && a.b.prev in n.chain.mapBlockIndex && a.b.hash !in n.chain.mapBlockIndex
    modifies n, n.chain, n.chain.db`disk, n.chain.db`committed, n.chain.db`txn, n.chain.db`broken
    ensures Standing(n, left) && (!v.Accepted? ==> left == 0)
    ensures old(Plain(n)) ==> left == 0 && Plain(n)
    ensures fStrict && !a.fInitialDownload && old(n.Contained()) ==> n.Contained()
    ensures old(n.adopted) <= n.adopted && KeepsCheckpoints(old(Seen(n, 0)), Seen(n, 0))
    ensures if v.Accepted? then
              && n.chain.mapBlockIndex == TreeWith(old(n.chain.mapBlockIndex), a)
              && n.chain.db.disk == DiskWith(old(n.chain.db.disk), a)
            else n.chain.mapBlockIndex == old(n.chain.mapBlockIndex)
    ensures !v.Accepted? && n.chain.db.reliable ==>
      Objection(n.chain.env, fStrict, old(n.hashSyncCheckpoint), old(n.chain.mapBlockIndex), old(n.chain.db.disk), a, work, height)
  {
    hide AtTip, Replay, Fresh, DiskImage, Links, BranchIds, Stored, WellFormed, Branch, Below, ChainState.Heaviest,
         ChainState.Lagging, ChainState.LeftOver, ChainState.MemoryAt, ChainState.CommittedAt, Ascending, AllVouched, RejectedOn,
         Objection, Open;
    ghost var t, disk, sync := n.chain.mapBlockIndex, n.chain.db.disk, n.hashSyncCheckpoint;
    work, height := n.chain.bnBestChainWork, n.chain.nBestHeight;
    SuitsIsOpen(n.chain, a);
    StandingSeen(n, 0);
    v, left := n.AcceptBlock(a.b, a.nFile, a.nBlockPos, fStrict, a.fInitialDownload, a.fStillDownload, a.written);
    Stands(n, left);
    StandingSeen(n, left);
    if v.Refused? {
      Objected(n.chain.env, fStrict, sync, t, disk, n.chain.db.disk, a, work, height);
    }
  }

  lemma Objected(env: Env, fStrict: bool, sync: Hash, t: Tree, disk: Disk, disk': Disk, a: Arrival, work: nat, height: int)
    requires Open(t, disk, a) && (disk' == disk || disk' == DiskWith(disk, a))
    requires (fStrict && !a.fInitialDownload && !Below(t, sync, a.b.prev))
             || RejectedOn(env, TreeWith(t, a), disk', a.b.hash, work, height)
    ensures Objection(env, fStrict, sync, t, disk, a, work, height)
  {
    hide Below, Rejects, Branch, BranchIds;
    if disk' == disk { NotStoredYet(env, t, disk, a, work, height); }
  }

  method ProcessInBatch(n: CheckpointState, batch: CChainImportBatch, a: Arrival, ghost fStrict: bool)
      returns (v: Verdict, ghost work: nat, ghost height: int)
    requires Importing(n, batch, 0) && Suits(n.chain, a) && batch.fActive && a.b.prev == n.chain.hashBestChain && |batch.vEntries| < 1000
    requires a.b.prev in n.chain.mapBlockIndex && a.b.hash !in n.chain.mapBlockIndex
    modifies batch, n.chain, n.chain.db`disk, n.chain.db`committed, n.chain.db`txn, n.chain.db`broken
    ensures Importing(n, batch, 0) && (v.Accepted? <==> batch.fActive)
    ensures old(PlainImport(n, batch)) ==> PlainImport(n, batch)
    ensures if v.Accepted? then
              && n.chain.mapBlockIndex == TreeWith(old(n.chain.mapBlockIndex), a)
              && n.chain.db.disk == DiskWith(old(n.chain.db.disk), a) && batch.snapTree == old(batch.snapTree)
            else n.chain.mapBlockIndex == old(batch.snapTree)
    ensures !v.Accepted? && n.chain.db.reliable ==>
      Objection(n.chain.env, fStrict, n.hashSyncCheckpoint, old(n.chain.mapBlockIndex), old(n.chain.db.disk), a, work, height)
  {
    hide AtTip, Replay, Fresh, DiskImage, Links, BranchIds, Stored, Branch, Below, ChainState.Heaviest,
         Ascending, AllVouched, Snapshot, Stacked, Rejects, RefusedAt, ChainState.CommittedAt,
         ChainState.TxnAt, CChainImportBatch.Saved, Objection, Open;
    ghost var t, disk := n.chain.mapBlockIndex, n.chain.db.disk;
    work, height := n.chain.bnBestChainWork, n.chain.nBestHeight;
    SuitsIsOpen(n.chain, a);
    v := batch.AcceptBlock(a.b, a.nFile, a.nBlockPos);
    if v.Accepted? {
      assert Grown(t, n.chain.mapBlockIndex);
      SoundGrows(t, n.chain.mapBlockIndex, n.adopted, n.vouched);
    } else {
      if v.Refused? {
        NextObjected(n.chain.env, fStrict, n.hashSyncCheckpoint, t, disk, a, work, height);
      }
      DropBatch(n, batch);
    }
  }

  /** The rules refusing the next block is an objection. */
  lemma NextObjected(env: Env, fStrict: bool, sync: Hash, t: Tree, disk: Disk, a: Arrival, work: nat, height: int)
    requires Open(t, disk, a) && work == t[a.b.prev].work
    requires RefusedAt(env, TreeWith(t, a), DiskWith(disk, a), a.b.hash, height)
    ensures Objection(env, fStrict, sync, t, disk, a, work, height)
  {
    hide Rejects;
    var t' := TreeWith(t, a);
    assert t'[a.b.hash] == EntryOn(t, a) && t'[a.b.prev] == t[a.b.prev];
    assert a.b.hash in Branch(t', a.b.hash) && !ParentHeavier(t', a.b.hash, work);
  }

  // ---------------------------------------------------------------- histories

  ghost predicate Downloading(e: Event) {
    match e
    case Arrive(a) => a.fInitialDownload
    case File(blocks) => exists a :: a in blocks && a.fInitialDownload
    case _ => false
  }

  /** A new node: the genesis block is stored and connected. */
  method FirstStart(env: Env, genesis: Block, nFile: nat, nBlockPos: nat, reliable: bool) returns (n: CheckpointState?)
    requires genesis.hash == env.genesis && genesis.work > 0
    ensures n != null ==>
              && fresh(n) && fresh(n.chain) && fresh(n.chain.db) && n.chain.env == env && n.chain.db.reliable == reliable
              && Standing(n, 0) && Plain(n) && n.Contained() && n.adopted == [env.genesis]
              && n.chain.mapBlockIndex == map[env.genesis := BlockIndex(None, 0, genesis.work, nFile, nBlockPos)]
              && n.chain.db.disk == map[(nFile, nBlockPos) := genesis]
              && n.chain.pindexBest == Some(env.genesis)
    ensures reliable ==> n != null
  {
    hide AtTip, Replay, Fresh, DiskImage, Links, Branch, Below, PostponedAs, Stored, BranchIds, RejectedOn, Rejects,
         ChainState.Lagging, ChainState.LeftOver, ChainState.MemoryAt, Ascending, AllVouched;
    var db := new TxDb(ChainDb(map[], map[], 0), reliable);
    var c := new ChainState(env, db);
    RestHasTree(c);
    c.WriteToDisk(genesis, nFile, nBlockPos);
    var v, left := c.AddToBlockIndex(genesis, nFile, nBlockPos);
    if !v.Accepted? {
      if reliable {
        GenesisNotRefused(env, c.db.disk, genesis, nFile, nBlockPos);
      }
      return null;
    }
    n := new CheckpointState(c);
    Stands(n, 0);
  }

  lemma GenesisNotRefused(env: Env, disk: Disk, genesis: Block, nFile: nat, nBlockPos: nat)
    requires disk == map[(nFile, nBlockPos) := genesis] && genesis.hash == env.genesis
    ensures var t := map[][env.genesis := BlockIndex(None, 0, genesis.work, nFile, nBlockPos)];
            forall work, height :: !RejectedOn(env, t, disk, env.genesis, work, height)
  {
  }

  /** A restart, after which memory shows what the database committed: a chain that lagged is at rest again, further back. */
  method Restart(n: CheckpointState, left: nat, nCheckDepth: nat) returns (ok: bool)
    requires Standing(n, left)
    modifies n`hashPendingCheckpoint, n`hashInvalidCheckpoint, n.chain, n.chain.db`txn, n.chain.db`broken
    ensures Standing(n, 0) && n.adopted == old(n.adopted) && n.hashSyncCheckpoint == old(n.hashSyncCheckpoint)
    ensures n.chain.mapBlockIndex == old(n.chain.mapBlockIndex)
    ensures left == 0 ==> n.chain.pindexBest == old(n.chain.pindexBest) && n.chain.bnBestChainWork == old(n.chain.bnBestChainWork)
    ensures n.chain.db.reliable ==> ok
    ensures n.hashPendingCheckpoint.None? && Restarted(old(Seen(n, left)), Seen(n, 0))
  {
    hide AtTip, Replay, Fresh, DiskImage, Links, Branch, Stored, Below;
    StandingSeen(n, left);
    ghost var t := n.chain.mapBlockIndex;
    ghost var tip := if left == 0 then n.chain.pindexBest.value else Back(t, n.chain.hashBestChain, left);
    ok := n.chain.LoadBlockIndex(t, tip, nCheckDepth);
    n.hashPendingCheckpoint, n.hashInvalidCheckpoint := None, None;
    Stands(n, 0);
  }

  /** Any history goes step by step as its events say: a block joins unless it cannot, or on a store that does not fail the rules
      or the checkpoints object; a file joins up to an objection; a checkpoint makes its block the tip. It keeps the chain at
      rest, adopted checkpoints in a line and blocks on the checkpoints they were checked against, until a postponed reconnect
      is left over; then memory and database part by that many blocks until the next restart. That takes a checkpoint message:
      without one the tip is the heaviest block throughout. In strict mode, with the initial download over and nothing left
      over, the main chain always has every checkpoint adopted. The history ends early only with a reconnect left over or a
      start that failed. */
  method Run(n: CheckpointState, fStrict: bool, events: seq<Event>)
      returns (done: nat, left: nat, up: bool, ghost parted: bool, ghost views: seq<View>)
    requires Standing(n, 0)
    modifies n, n.chain, n.chain.db
    ensures done <= |events| && Standing(n, left) && (left > 0 ==> parted)
    ensures done < |events| ==> (left > 0 || !up) && !events[done].Restart?
    ensures !up ==> done > 0 && events[done - 1].Restart? && !n.chain.db.reliable
    ensures |views| == done + 1 && views[0] == old(Seen(n, 0)) && views[done] == Seen(n, left)
    ensures Trace(n.chain.env, fStrict, events, views)
    ensures !parted ==> forall v :: v in views ==> v.left == 0
    ensures (forall e :: e in events ==> !e.Checkpoint?) && old(Plain(n)) ==> !parted && Plain(n)
    ensures fStrict && (forall e :: e in events ==> !Downloading(e)) && old(n.Contained()) && !parted ==> n.Contained()
  {
    hide AtTip, Replay, Fresh, DiskImage, Links, BranchIds, Stored, WellFormed, Branch, Below, ChainState.Heaviest,
         ChainState.Lagging, Standing, Step;
    done, left, up, parted, views := 0, 0, true, false, [Seen(n, 0)];
    while done < |events| && (events[done].Restart? || (up && left == 0))
      invariant done <= |events| && Standing(n, left) && (left > 0 ==> parted)
      invariant |views| == done + 1 && views[0] == old(Seen(n, 0)) && views[done] == Seen(n, left)
      invariant Trace(n.chain.env, fStrict, events, views)
      invariant !up ==> done > 0 && events[done - 1].Restart? && !n.chain.db.reliable
      invariant !parted ==> forall v :: v in views ==> v.left == 0
      invariant (forall e :: e in events ==> !e.Checkpoint?) && old(Plain(n)) ==> !parted && Plain(n)
      invariant fStrict && (forall e :: e in events ==> !Downloading(e)) && old(n.Contained()) && !parted ==> n.Contained()
    {
      assert events[done] in events;
      left, up := Happen(n, fStrict, events[done], left);
      parted := parted || left > 0;
      views := views + [Seen(n, left)];
      done := done + 1;
    }
  }

  /** One event. */
  method Happen(n: CheckpointState, fStrict: bool, e: Event, left0: nat) returns (left: nat, up: bool)
    requires Standing(n, left0) && (left0 == 0 || e.Restart?)
    modifies n, n.chain, n.chain.db
    ensures Standing(n, left) && Step(n.chain.env, fStrict, old(Seen(n, left0)), e, Seen(n, left))
    ensures !e.Checkpoint? && left0 == 0 && old(Plain(n)) ==> left == 0 && Plain(n)
    ensures fStrict && !Downloading(e) && left0 == 0 && old(n.Contained()) ==> n.Contained()
    ensures !up ==> e.Restart? && !n.chain.db.reliable
  {
    hide AtTip, Replay, Fresh, DiskImage, Links, BranchIds, Stored, WellFormed, Branch, Below, ChainState.Lagging,
         PostponedAs, Ascending, AllVouched, Acceptable, Received, Imported, Announced, Restarted;
    left, up := 0, true;
    match e {
      case Arrive(a) =>
        left := Receive(n, a, fStrict);
      case File(blocks) =>
        ghost var k, j, work, height;
        left, k, j, work, height := LoadExternalBlockFile(n, blocks, fStrict);
      case Checkpoint(hash, signed, written) =>
        left := Announce(n, hash, signed, written);
      case Storage(reliable) =>
        n.chain.db.reliable := reliable;
      case Restart(nCheckDepth) =>
        up := Restart(n, left0, nCheckDepth);
    }
  }

  /** A checkpoint message. */
  method Announce(n: CheckpointState, hash: Hash, signed: bool, written: bool) returns (left: nat)
    requires Standing(n, 0)
    modifies n, n.chain, n.chain.db`committed, n.chain.db`txn, n.chain.db`broken
    ensures Standing(n, left) && Announced(n.chain.env, old(Seen(n, 0)), hash, signed, written, Seen(n, left))
    ensures old(n.Contained()) ==> n.Contained()
  {
    hide AtTip, Replay, Fresh, DiskImage, Links, BranchIds, Stored, WellFormed, Branch, Below, ChainState.Lagging,
         PostponedAs, Ascending, AllVouched, Acceptable, RejectedOn, ChainState.MemoryAt, ChainState.CommittedAt;
    StandingSeen(n, 0);
    var ok;
    ok, left := n.ProcessSyncCheckpoint(hash, signed, written);
    Stands(n, left);
    StandingSeen(n, left);
  }

  /** What rest means for the committed records: they are the replay of the main chain from genesis, and a block points
      forward exactly if it is a proper ancestor of the tip. */
  lemma RestMeansReplay(c: ChainState)
    requires c.Valid() && c.pindexBest.Some?
    ensures var t, tip := c.mapBlockIndex, c.pindexBest.value;
      && c.TreeOk() && tip in t && c.db.committed.best == tip
      && Replay(t, c.db.disk, tip) == Some(c.db.committed.tx)
      && (forall h :: h in c.pnext <==> h in Branch(t, tip) && h != tip)
  {
    var t, tip := c.mapBlockIndex, c.pindexBest.value;
    hide Replay, DiskImage, Fresh, Stored;
    BranchDistinct(t, tip);
    LinksMeaning(Branch(t, tip));
    var br := Branch(t, tip);
    forall h ensures h in c.pnext <==> h in br && h != tip {
      if h in br && h != tip {
        var k :| 0 <= k < |br| && br[k] == h;
        assert k < |br| - 1;
      }
    }
  }

  /** The same for a chain that lags: database and links are at rest, `left` blocks before the tip memory names. */
  lemma LagMeansReplay(c: ChainState, left: nat)
    requires c.Lagging(left)
    ensures var t := c.mapBlockIndex;
      && c.TreeOk() && c.hashBestChain in t && left <= t[c.hashBestChain].height
      && var at := Back(t, c.hashBestChain, left);
      && at in t && at in Branch(t, c.hashBestChain) && c.db.committed.best == at
      && t[at].height == c.nBestHeight - left
      && Replay(t, c.db.disk, at) == Some(c.db.committed.tx)
  {
    hide Replay, DiskImage, Fresh, Stored, Links;
    BranchPrefix(c.mapBlockIndex, c.hashBestChain, c.mapBlockIndex[c.hashBestChain].height - left);
  }

  /** The subsidies of the heights 1 to `h`, and the reported supply, which counts genesis too. */
  lemma {:induction false} SubsidiesPaid(h: nat)
    ensures SubsidySum(h) + ConnectSpec.Subsidy(0) == MoneySupply.Paid(false, h)
  {
    if h > 0 {
      SubsidiesPaid(h - 1);
    }
  }

  /** So no history creates money: with the committed tip below height 4,000,000, all unspent outputs together are worth
      at most what GetMoneySupply reports, less the genesis subsidy, which cannot be spent. */
  lemma NoMoneyFromNothing(c: ChainState)
    requires c.Valid() && c.pindexBest.Some? && 0 <= c.nBestHeight < 4_000_000
    ensures Money.GoodIndex(c.db.disk, c.db.committed.tx)
    ensures 0 <= Money.Total(c.db.disk, c.db.committed.tx)
            <= MoneySupply.Supply(false, c.nBestHeight) - ConnectSpec.Subsidy(0)
  {
    RestMeansReplay(c);
    hide DiskImage, Links, Branch, ConnectSpec.Subsidy, MoneySupply.Supply;
    SupplyBound(c.mapBlockIndex, c.db.disk, c.pindexBest.value);
    SubsidiesPaid(c.nBestHeight);
    MoneySupply.MainSupplyExact(c.nBestHeight);
  }

  /** Nor does a chain that lags. */
  lemma NoMoneyWhileLagging(c: ChainState, left: nat)
    requires c.Lagging(left) && left <= c.nBestHeight < 4_000_000 + left
    ensures Money.GoodIndex(c.db.disk, c.db.committed.tx)
    ensures 0 <= Money.Total(c.db.disk, c.db.committed.tx)
            <= MoneySupply.Supply(false, c.nBestHeight - left) - ConnectSpec.Subsidy(0)
  {
    LagMeansReplay(c, left);
    hide DiskImage, Links, Branch, ConnectSpec.Subsidy, MoneySupply.Supply;
    SupplyBound(c.mapBlockIndex, c.db.disk, Back(c.mapBlockIndex, c.hashBestChain, left));
    SubsidiesPaid(c.nBestHeight - left);
    MoneySupply.MainSupplyExact(c.nBestHeight - left);
  }
}
