/** What a node shows from outside, and what each event may make of it. */
module ChainHistory {
  import opened Basics
  import opened ChainTypes
  import opened BlockTree
  import opened Storage
  import opened Connect
  import opened ChainSpec
  import opened ChainStateMachine
  import opened SyncCheckpoints

  /** A block with the place it will get in the block files, whether the node is in its initial download before and after the
      block, and whether a waiting checkpoint can be written. `quiet` stands for the conditions of IsEligible and CanAppend
      other than the initial download, the tip and the number of blocks: below the last hardened checkpoint, empty pools, and
      the batch's limit on bytes. */
  datatype Arrival = Arrival(b: Block, nFile: nat, nBlockPos: nat, fInitialDownload: bool, fStillDownload: bool, quiet: bool,
                             written: bool)

  datatype Event =
    | Arrive(a: Arrival)
    | File(blocks: seq<Arrival>)
    | Checkpoint(hash: Hash, signed: bool, written: bool)
    | Storage(reliable: bool)
    | Restart(nCheckDepth: nat)

  /** The blocks known and stored; the tip in memory, and how many blocks before it the database stands; the checkpoints. */
  datatype View = View(t: Tree, disk: Disk, tip: Hash, left: nat, sync: Hash, pending: Option<Hash>, adopted: seq<Hash>,
                       reliable: bool)

  ghost function Seen(n: CheckpointState, left: nat): View
    reads n, n.chain, n.chain.db
  {
    View(n.chain.mapBlockIndex, n.chain.db.disk, n.chain.hashBestChain, left, n.hashSyncCheckpoint, n.hashPendingCheckpoint,
         n.adopted, n.chain.db.reliable)
  }

  // ---------------------------------------------------------------- blocks

  function EntryOn(t: Tree, a: Arrival): BlockIndex {
    if a.b.prev in t
    then BlockIndex(Some(a.b.prev), t[a.b.prev].height + 1, t[a.b.prev].work + a.b.work, a.nFile, a.nBlockPos)
    else BlockIndex(None, 0, a.b.work, a.nFile, a.nBlockPos)
  }

  function TreeWith(t: Tree, a: Arrival): Tree { t[a.b.hash := EntryOn(t, a)] }

  function DiskWith(disk: Disk, a: Arrival): Disk { disk[(a.nFile, a.nBlockPos) := a.b] }

  /** A block that may join: new, its parent known, with work, a free place, and txids not yet on its branch. */
  ghost predicate Open(t: Tree, disk: Disk, a: Arrival) {
    && WellFormed(t) && Stored(t, disk)
    && a.b.hash !in t && a.b.prev in t && a.b.work > 0 && (a.nFile, a.nBlockPos) !in disk
    && Ids(a.b.vtx) !! BranchIds(t, disk, a.b.prev)
  }

  /** Why a block that may join does not: in strict mode it does not stand on the checkpoint, or the rules refuse it or a block
      below it that has to be connected. */
  ghost predicate Objection(env: Env, fStrict: bool, sync: Hash, t: Tree, disk: Disk, a: Arrival, bestWork: nat, bestHeight: int) {
    || (fStrict && !a.fInitialDownload && WellFormed(t) && a.b.prev in t && !Below(t, sync, a.b.prev))
    || RejectedOn(env, TreeWith(t, a), DiskWith(disk, a), a.b.hash, bestWork, bestHeight)
  }

  /** One block: passed over, joined, or refused; on a store that does not fail only with an objection. */
  ghost predicate Received(env: Env, fStrict: bool, u: View, a: Arrival, v: View) {
    if !Open(u.t, u.disk, a) then v == u
    else
      || (&& v == u.(disk := v.disk) && (v.disk == u.disk || v.disk == DiskWith(u.disk, a))
          && (u.reliable ==> u.tip in u.t && Objection(env, fStrict, u.sync, u.t, u.disk, a, u.t[u.tip].work, u.t[u.tip].height)))
      || (&& v.t == TreeWith(u.t, a) && v.disk == DiskWith(u.disk, a) && v.reliable == u.reliable && u.adopted <= v.adopted
          && (u.pending.None? || a.fStillDownload ==>
                && u.tip in u.t && v.tip == (if EntryOn(u.t, a).work > u.t[u.tip].work then a.b.hash else u.tip)
                && v.pending == u.pending && v.adopted == u.adopted && v.sync == u.sync))
  }

  // ---------------------------------------------------------------- files

  /** The blocks known and stored after those of `blocks` that may join have joined, in order. */
  ghost function Through(t: Tree, disk: Disk, blocks: seq<Arrival>): (Tree, Disk) {
    if blocks == [] then (t, disk)
    else
      var (below, files) := Through(t, disk, blocks[..|blocks| - 1]);
      var a := blocks[|blocks| - 1];
      if Open(below, files, a) then (TreeWith(below, a), DiskWith(files, a)) else (below, files)
  }

  lemma ThroughNext(t: Tree, disk: Disk, blocks: seq<Arrival>, i: nat)
    requires i < |blocks|
    ensures var (below, files) := Through(t, disk, blocks[..i]);
            Through(t, disk, blocks[..i + 1])
            == if Open(below, files, blocks[i]) then (TreeWith(below, blocks[i]), DiskWith(files, blocks[i])) else (below, files)
  {
    assert blocks[..i + 1][..i] == blocks[..i];
  }

  /** A file, of which the first `k` blocks are in: all, or on a store that does not fail and with no checkpoint waiting, all up
      to an objection against block `j`, less those in the batch that is dropped with it. */
  ghost predicate Imported(env: Env, fStrict: bool, u: View, blocks: seq<Arrival>, v: View, k: nat, j: nat, work: nat, height: int) {
    && k <= |blocks| && v.t == Through(u.t, u.disk, blocks[..k]).0 && v.reliable == u.reliable && u.adopted <= v.adopted
    && (u.pending.None? ==> v.pending.None? && v.adopted == u.adopted && v.sync == u.sync)
    && (k < |blocks| && u.reliable && u.pending.None? && v.left == 0 ==>
          && k <= j < |blocks|
          && var (below, files) := Through(u.t, u.disk, blocks[..j]);
          && Open(below, files, blocks[j]) && Objection(env, fStrict, u.sync, below, files, blocks[j], work, height))
  }

  // ---------------------------------------------------------------- checkpoints and restarts

  /** A checkpoint message: adopted, with its block on the main chain; or waiting for its block; or without effect. On a store
      that does not fail, a good one is adopted unless the rules object to its branch. */
  ghost predicate Announced(env: Env, u: View, h: Hash, signed: bool, written: bool, v: View) {
    && v.t == u.t && v.disk == u.disk && v.reliable == u.reliable && (v.tip == u.tip || v.tip == h)
    && WellFormed(u.t) && u.sync in u.t && u.tip in u.t
    && (if v.adopted == u.adopted then v.sync == u.sync
        else
          && signed && written && Acceptable(u.t, u.sync, h) && v.adopted == u.adopted + [h] && v.sync == h
          && v.pending.None? && v.tip in v.t && Below(v.t, h, v.tip))
    && (u.reliable && signed && written && Acceptable(u.t, u.sync, h) && v.adopted == u.adopted ==>
          RejectedOn(env, u.t, u.disk, h, u.t[u.tip].work, u.t[u.tip].height))
    && (!signed ==> v == u)
    && (signed && h !in u.t ==> v == u.(pending := Some(h)))
  }

  /** A restart, after which memory shows what the database has. */
  ghost predicate Restarted(u: View, v: View) {
    && WellFormed(u.t) && u.tip in u.t && u.left <= u.t[u.tip].height
    && v == u.(tip := Back(u.t, u.tip, u.left), left := 0, pending := None)
  }

  ghost predicate Step(env: Env, fStrict: bool, u: View, e: Event, v: View) {
    match e
    case Arrive(a) => Received(env, fStrict, u, a, v)
    case File(blocks) => exists k, j, work, height :: Imported(env, fStrict, u, blocks, v, k, j, work, height)
    case Checkpoint(h, signed, written) => Announced(env, u, h, signed, written, v)
    case Storage(reliable) => v == u.(reliable := reliable)
    case Restart(_) => Restarted(u, v)
  }

  /** What a history goes through. */
  ghost predicate Trace(env: Env, fStrict: bool, events: seq<Event>, views: seq<View>) {
    && 1 <= |views| <= |events| + 1
    && forall i :: 0 <= i < |views| - 1 ==> Step(env, fStrict, views[i], events[i], views[i + 1])
  }
}
