/** The same blocks through an import batch and one by one: the same verdicts, and in the end the same chain. */
module BatchEquivalence {
  import opened Basics
  import opened ChainTypes
  import opened TxIndexSpec
  import opened BlockTree
  import opened Storage
  import opened Connect
  import opened ChainSpec
  import opened ChainStateMachine
  import opened ImportBatch
  import opened ChainHistory
  import opened ChainRun

  /** Two chains over the same block files that show the same blocks and tip. */
  ghost predicate Alike(c: ChainState, d: ChainState)
    reads c, d, c.db, d.db
  {
    && d.env == c.env && d.db.disk == c.db.disk
    && d.mapBlockIndex == c.mapBlockIndex && d.pindexBest == c.pindexBest && d.hashBestChain == c.hashBestChain
    && d.nBestHeight == c.nBestHeight && d.bnBestChainWork == c.bnBestChainWork
  }

  /** They also have the same links and the same committed records. */
  ghost predicate SameChain(c: ChainState, d: ChainState)
    reads c, d, c.db, d.db
  {
    && Alike(c, d) && d.pnext == c.pnext && d.pindexGenesisBlock == c.pindexGenesisBlock
    && d.db.committed.tx == c.db.committed.tx && d.db.committed.blockIndex == c.db.committed.blockIndex
    && d.db.committed.best == c.db.committed.best
  }

  lemma AlikeAtRest(c: ChainState, d: ChainState)
    requires c.Valid() && d.Valid() && c.pindexBest.Some? && Alike(c, d)
    ensures SameChain(c, d)
  {
    RestIsDetermined(c, d);
  }

  // ---------------------------------------------------------------- blocks stacked on a tip

  /** The tree with the entries of `blocks`, one after the other. */
  function Piled(t: Tree, blocks: seq<Arrival>): Tree {
    if blocks == [] then t
    else
      var below, a := Piled(t, blocks[..|blocks| - 1]), blocks[|blocks| - 1];
      below[a.b.hash := EntryOn(below, a)]
  }

  /** The block files with them. */
  function Filed(disk: Disk, blocks: seq<Arrival>): Disk {
    if blocks == [] then disk
    else
      var a := blocks[|blocks| - 1];
      Filed(disk, blocks[..|blocks| - 1])[(a.nFile, a.nBlockPos) := a.b]
  }

  function Top(tip: Hash, blocks: seq<Arrival>): Hash {
    if blocks == [] then tip else blocks[|blocks| - 1].b.hash
  }

  lemma OneMore(t: Tree, disk: Disk, tip: Hash, blocks: seq<Arrival>, i: nat)
    requires i < |blocks|
    ensures var below, a := Piled(t, blocks[..i]), blocks[i];
            && Piled(t, blocks[..i + 1]) == below[a.b.hash := EntryOn(below, a)]
            && Filed(disk, blocks[..i + 1]) == Filed(disk, blocks[..i])[(a.nFile, a.nBlockPos) := a.b]
            && Top(tip, blocks[..i + 1]) == a.b.hash
  {
    assert blocks[..i + 1][..i] == blocks[..i];
  }

  lemma {:induction false} PiledHas(t: Tree, blocks: seq<Arrival>, i: nat)
    requires i <= |blocks|
    ensures forall k :: 0 <= k < i ==> blocks[k].b.hash in Piled(t, blocks[..i])
  {
    if i > 0 {
      PiledHas(t, blocks, i - 1);
      assert blocks[..i][..i - 1] == blocks[..i - 1];
    }
  }

  /** A block that extends the tip and may join. */
  ghost predicate Fits(t: Tree, disk: Disk, tip: Hash, a: Arrival) {
    Open(t, disk, a) && a.b.prev == tip
  }

  /** Block `i` fits on those before it. */
  ghost predicate FitsAt(t: Tree, disk: Disk, tip: Hash, blocks: seq<Arrival>, i: nat)
    requires i < |blocks|
  {
    Fits(Piled(t, blocks[..i]), Filed(disk, blocks[..i]), Top(tip, blocks[..i]), blocks[i])
  }

  /** What the rules say of block `i` on top of those before it. */
  ghost function VerdictAt(env: Env, t: Tree, disk: Disk, tip: Hash, blocks: seq<Arrival>, i: nat): (v: Verdict)
    requires i < |blocks| && FitsAt(t, disk, tip, blocks, i)
    ensures !v.Faulted?
  {
    if RefusedAt(env, Piled(t, blocks[..i + 1]), Filed(disk, blocks[..i + 1]), blocks[i].b.hash,
                 Piled(t, blocks[..i])[Top(tip, blocks[..i])].height)
    then Refused else Accepted
  }

  /** The verdicts on `blocks`, up to the first that is refused or does not fit. */
  ghost predicate Judged(env: Env, t: Tree, disk: Disk, tip: Hash, blocks: seq<Arrival>, verdicts: seq<Verdict>) {
    && |verdicts| <= |blocks|
    && (forall i :: 0 <= i < |verdicts| ==>
          FitsAt(t, disk, tip, blocks, i) && verdicts[i] == VerdictAt(env, t, disk, tip, blocks, i))
    && (forall i :: 0 <= i < |verdicts| - 1 ==> verdicts[i].Accepted?)
    && (|verdicts| < |blocks| && AllAccepted(verdicts) ==> !FitsAt(t, disk, tip, blocks, |verdicts|))
  }

  /** All but the last are accepted anyway. */
  predicate AllAccepted(verdicts: seq<Verdict>) { verdicts == [] || verdicts[|verdicts| - 1].Accepted? }

  /** So the verdicts are determined by the blocks and where they go. */
  lemma {:induction false} JudgedOnce(env: Env, t: Tree, disk: Disk, tip: Hash, blocks: seq<Arrival>, vs: seq<Verdict>, ws: seq<Verdict>)
    requires Judged(env, t, disk, tip, blocks, vs) && Judged(env, t, disk, tip, blocks, ws)
    ensures vs == ws
  {
    hide FitsAt, VerdictAt;
    if |vs| < |ws| {
      JudgedShorter(env, t, disk, tip, blocks, vs, ws);
    } else if |ws| < |vs| {
      JudgedShorter(env, t, disk, tip, blocks, ws, vs);
    }
  }

  lemma JudgedShorter(env: Env, t: Tree, disk: Disk, tip: Hash, blocks: seq<Arrival>, vs: seq<Verdict>, ws: seq<Verdict>)
    requires Judged(env, t, disk, tip, blocks, vs) && Judged(env, t, disk, tip, blocks, ws)
    ensures |vs| >= |ws|
  {
    hide FitsAt, VerdictAt;
  }

  /** If all blocks fit, each on the one before, then all are looked at, or the last one looked at is refused. */
  lemma AllOrRefused(env: Env, t: Tree, disk: Disk, tip: Hash, blocks: seq<Arrival>, verdicts: seq<Verdict>)
    requires Judged(env, t, disk, tip, blocks, verdicts) && forall i :: 0 <= i < |blocks| ==> FitsAt(t, disk, tip, blocks, i)
    ensures |verdicts| == |blocks| || (verdicts != [] && verdicts[|verdicts| - 1] == Refused)
  {
    hide FitsAt, VerdictAt;
  }

  // ---------------------------------------------------------------- side by side

  /** One block into both. */
  method Both(batch: CChainImportBatch, d: ChainState, a: Arrival) returns (v: Verdict, w: Verdict)
    requires batch.Running() && batch.chain != d && batch.chain.db != d.db && Alike(batch.chain, d) && d.Valid() && d.pindexBest.Some?
    requires batch.chain.db.reliable && !batch.chain.db.broken && d.db.reliable && batch.chain.TreeOk()
    requires Fits(d.mapBlockIndex, d.db.disk, d.hashBestChain, a)
    modifies batch`vEntries, batch.chain, batch.chain.db`disk, batch.chain.db`committed, batch.chain.db`txn, batch.chain.db`broken
    modifies d, d.db`disk, d.db`committed, d.db`txn, d.db`broken
    ensures w == v && !batch.chain.db.broken && d.Valid() && d.pindexBest.Some?
    ensures v == if RefusedAt(d.env, old(d.mapBlockIndex[a.b.hash := EntryOn(d.mapBlockIndex, a)]), d.db.disk, a.b.hash,
                              old(d.mapBlockIndex[d.hashBestChain].height))
                 then Refused else Accepted
    ensures d.db.disk == old(d.db.disk)[(a.nFile, a.nBlockPos) := a.b]
    ensures v.Accepted? ==>
      && batch.Running() && batch.chain.TreeOk() && Alike(batch.chain, d) && d.pindexBest == Some(a.b.hash)
      && batch.vEntries == old(batch.vEntries) + [a.b.hash]
      && d.mapBlockIndex == old(d.mapBlockIndex[a.b.hash := EntryOn(d.mapBlockIndex, a)])
    ensures !v.Accepted? ==>
      batch.Abortable() && d.pindexBest == old(d.pindexBest) && d.mapBlockIndex == old(d.mapBlockIndex)
  {
    hide AtTip, Replay, Fresh, DiskImage, Links, BranchIds, Stored, WellFormed, Branch, Rejects, ParentHeavier, RejectedOn,
         Snapshot, Stacked, PostponedAs, ChainState.Lagging, ChainState.Heaviest, CChainImportBatch.Ahead;
    ghost var c := batch.chain;
    ghost var t, height := c.mapBlockIndex, c.nBestHeight;
    ghost var e := c.NewEntry(a.b, a.nFile, a.nBlockPos);
    TipWork(d);
    v := batch.AcceptBlock(a.b, a.nFile, a.nBlockPos);
    var left;
    w, left := d.AcceptBlock(a.b, a.nFile, a.nBlockPos);
    if w.Accepted? {
      NextLeavesNothing(d, a.b.hash, left, old(d.bnBestChainWork), old(d.nBestHeight), a.b.prev);
    }
  }

  lemma TipWork(d: ChainState)
    requires d.Valid() && d.pindexBest.Some?
    ensures d.TreeOk() && d.hashBestChain in d.mapBlockIndex && d.bnBestChainWork == d.mapBlockIndex[d.hashBestChain].work
    ensures d.pindexBest == Some(d.hashBestChain) && d.nBestHeight == d.mapBlockIndex[d.hashBestChain].height
  {
    hide AtTip, Replay, Fresh, DiskImage, Links, Stored, WellFormed, Branch;
  }

  lemma NextLeavesNothing(d: ChainState, h: Hash, left: nat, bestWork: nat, bestHeight: int, prev: Hash)
    requires d.LeftOver(h, left, bestWork, bestHeight) && d.mapBlockIndex[h].prev == Some(prev)
    requires prev in d.mapBlockIndex && d.mapBlockIndex[prev].work == bestWork
    ensures left == 0
  {
    hide PostponedAs;
    if d.mapBlockIndex[h].work > bestWork {
      LeftOverIff(d.env, d.mapBlockIndex, d.db.disk, d.db.reliable, h, left, bestWork, bestHeight);
    }
  }

  /** Blocks into both, while each extends the one before it and none is refused. */
  method InTurn(batch: CChainImportBatch, d: ChainState, blocks: seq<Arrival>) returns (onC: seq<Verdict>, onD: seq<Verdict>)
    requires batch.Running() && batch.chain != d && batch.chain.db != d.db && Alike(batch.chain, d) && d.Valid() && d.pindexBest.Some?
    requires batch.chain.db.reliable && !batch.chain.db.broken && d.db.reliable && batch.chain.TreeOk()
    modifies batch`vEntries, batch.chain, batch.chain.db`disk, batch.chain.db`committed, batch.chain.db`txn, batch.chain.db`broken
    modifies d, d.db`disk, d.db`committed, d.db`txn, d.db`broken
    ensures onC == onD && Judged(d.env, old(d.mapBlockIndex), old(d.db.disk), old(d.hashBestChain), blocks, onC)
    ensures d.Valid() && d.pindexBest.Some? && !batch.chain.db.broken
    ensures AllAccepted(onC) ==>
      && batch.Running() && batch.chain.TreeOk() && Alike(batch.chain, d) && AtTopOf(d, old(d.mapBlockIndex), old(d.hashBestChain), blocks[..|onC|])
      && d.db.disk == Filed(old(d.db.disk), blocks[..|onC|])
    ensures !AllAccepted(onC) ==>
      batch.Abortable() && AtTopOf(d, old(d.mapBlockIndex), old(d.hashBestChain), blocks[..|onC| - 1])
  {
    hide AtTip, Replay, Fresh, DiskImage, Links, BranchIds, Stored, WellFormed, Branch, Snapshot, Stacked, CChainImportBatch.Running,
         CChainImportBatch.Abortable, ChainState.Heaviest, ChainState.TreeOk, Fits, RefusedAt, Piled, Filed, Top;
    ghost var t, disk, tip := d.mapBlockIndex, d.db.disk, d.hashBestChain;
    TipWork(d);
    Bottom(t, disk, tip, blocks);
    var i := 0;
    onC, onD := [], [];
    while i < |blocks| && Extends(d, blocks[i])
      invariant 0 <= i == |onC| <= |blocks| && batch.chain.TreeOk() && d.TreeOk() && batch.Running() && Alike(batch.chain, d)
      invariant !batch.chain.db.broken && d.Valid() && d.pindexBest.Some? && onD == onC && forall k :: 0 <= k < i ==> onC[k].Accepted?
      invariant AtTopOf(d, t, tip, blocks[..i]) && d.db.disk == Filed(disk, blocks[..i])
      invariant forall k :: 0 <= k < i ==> FitsAt(t, disk, tip, blocks, k) && VerdictAt(d.env, t, disk, tip, blocks, k) == Accepted
    {
      ExtendingFits(d, blocks[i]);
      OneMore(t, disk, tip, blocks, i);
      var v, w := Both(batch, d, blocks[i]);
      assert v == VerdictAt(d.env, t, disk, tip, blocks, i);
      onC, onD := onC + [v], onD + [w];
      TipWork(d);
      if !v.Accepted? {
        return;
      }
      i := i + 1;
    }
    if i < |blocks| { ExtendingFits(d, blocks[i]); }
  }

  /** The chain stands at the top of `blocks`, piled on `tip`. */
  ghost predicate AtTopOf(d: ChainState, t: Tree, tip: Hash, blocks: seq<Arrival>)
    reads d
  {
    && d.mapBlockIndex == Piled(t, blocks) && d.hashBestChain == Top(tip, blocks) && d.pindexBest == Some(d.hashBestChain)
    && d.hashBestChain in d.mapBlockIndex
  }

  /** The same blocks on two chains that are alike, on stores that do not fail: in one batch on `c`, one by one on `d`. The
      verdicts are the same, those of the rules on each block in its place. If none is refused, the batch commits, the blocks
      are the top of the chain, and both chains are the same in everything; if one is, the batch leaves `c` as it was, and `d`
      keeps the blocks before it. */
  method SideBySide(c: ChainState, d: ChainState, blocks: seq<Arrival>) returns (onC: seq<Verdict>, onD: seq<Verdict>, committed: bool)
    requires c != d && c.db != d.db && c.Valid() && d.Valid() && c.pindexBest.Some? && Alike(c, d)
    requires c.db.reliable && d.db.reliable
    modifies c, c.db`disk, c.db`committed, c.db`txn, c.db`broken, d, d.db`disk, d.db`committed, d.db`txn, d.db`broken
    ensures onC == onD && c.Valid() && d.Valid()
    ensures Judged(c.env, old(c.mapBlockIndex), old(c.db.disk), old(c.hashBestChain), blocks, onC)
    ensures committed <==> AllAccepted(onC)
    ensures committed ==>
      && SameChain(c, d) && AtTopOf(c, old(c.mapBlockIndex), old(c.hashBestChain), blocks[..|onC|])
      && c.db.disk == Filed(old(c.db.disk), blocks[..|onC|])
      && forall k :: 0 <= k < |onC| ==> blocks[k].b.hash in c.mapBlockIndex
    ensures !committed ==>
      && c.mapBlockIndex == old(c.mapBlockIndex) && c.pindexBest == old(c.pindexBest) && c.db.committed == old(c.db.committed)
      && AtTopOf(d, old(c.mapBlockIndex), old(c.hashBestChain), blocks[..|onC| - 1])
  {
    hide AtTip, Replay, Fresh, DiskImage, Links, BranchIds, Stored, WellFormed, Branch, Snapshot, Stacked, CChainImportBatch.Running,
         ChainState.Heaviest, Judged, Piled, Filed, Top, SameChain;
    TipWork(d);
    RestHasTree(c);
    var batch := new CChainImportBatch(c);
    var begun := batch.Begin();
    onC, onD := InTurn(batch, d, blocks);
    committed := AllAccepted(onC);
    if committed {
      ghost var t := old(c.mapBlockIndex);
      assert |onC| <= |blocks| by { JudgedSize(c.env, t, old(c.db.disk), old(c.hashBestChain), blocks, onC); }
      PiledHas(t, blocks, |onC|);
      Shows(batch);
      committed := batch.Commit();
      TipWork(c);
      TipWork(d);
      AlikeAtRest(c, d);
    } else {
      batch.Abort();
    }
  }

  lemma JudgedSize(env: Env, t: Tree, disk: Disk, tip: Hash, blocks: seq<Arrival>, verdicts: seq<Verdict>)
    requires Judged(env, t, disk, tip, blocks, verdicts)
    ensures |verdicts| <= |blocks|
  {
  }

  lemma Bottom(t: Tree, disk: Disk, tip: Hash, blocks: seq<Arrival>)
    ensures Piled(t, blocks[..0]) == t && Filed(disk, blocks[..0]) == disk && Top(tip, blocks[..0]) == tip
  {
  }

  /** Whether the next block of an import may join the batch. */
  predicate Extends(d: ChainState, a: Arrival)
    reads d, d.db
    requires d.TreeOk()
  {
    Suits(d, a) && a.b.hash !in d.mapBlockIndex && a.b.prev in d.mapBlockIndex && a.b.prev == d.hashBestChain
  }

  lemma ExtendingFits(d: ChainState, a: Arrival)
    requires d.TreeOk() && d.hashBestChain in d.mapBlockIndex
    ensures Extends(d, a) <==> Fits(d.mapBlockIndex, d.db.disk, d.hashBestChain, a)
  {
  }

  /** What a running batch shows in memory. */
  lemma Shows(batch: CChainImportBatch)
    requires batch.Running()
    ensures batch.savedBest.Some? && batch.chain.pindexBest == Some(TopOf(batch.savedBest.value, batch.vEntries))
  {
    hide AtTip, Replay, Fresh, DiskImage, Links, BranchIds, Stored, WellFormed, Branch, Snapshot, Stacked;
  }
}
