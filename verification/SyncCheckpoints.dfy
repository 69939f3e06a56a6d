/** Synchronised checkpoints: adopted one above the other, moving the chain with them, and what strict mode guarantees of
    accepted blocks and of the main chain. */
module SyncCheckpoints {
  import opened Basics
  import opened ChainTypes
  import opened BlockTree
  import opened Storage
  import opened Connect
  import opened ChainSpec
  import opened ChainStateMachine

  /** `a` is `h` or an ancestor of it. */
  ghost predicate Below(t: Tree, a: Hash, h: Hash)
    requires WellFormed(t) && h in t
  {
    a in Branch(t, h)
  }

  lemma BelowSelf(t: Tree, h: Hash)
    requires WellFormed(t) && h in t
    ensures Below(t, h, h)
  {
  }

  lemma BelowTransitive(t: Tree, a: Hash, b: Hash, c: Hash)
    requires WellFormed(t) && b in t && c in t && Below(t, a, b) && Below(t, b, c)
    ensures Below(t, a, c)
  {
    AncestorOfAncestor(t, c, b, a);
  }

  lemma BelowGrown(t: Tree, t': Tree, a: Hash, h: Hash)
    requires WellFormed(t) && WellFormed(t') && Grown(t, t') && h in t
    ensures Below(t', a, h) <==> Below(t, a, h)
  {
    BranchGrown(t, t', h);
  }

  /** The walk back to a given height, used by every check. */
  method TraceBack(t: Tree, h: Hash, height: nat) returns (r: Option<Hash>)
    requires WellFormed(t) && h in t
    ensures height <= t[h].height ==> r == Some(Branch(t, h)[height])
    ensures height > t[h].height ==> r == Some(h)
  {
    var pindex := h;
    BelowSelf(t, h);
    while t[pindex].height > height
      invariant pindex in t && (height <= t[h].height ==> height <= t[pindex].height <= t[h].height)
      invariant height > t[h].height ==> pindex == h
      invariant t[pindex].height <= t[h].height && Branch(t, h)[t[pindex].height] == pindex
      decreases t[pindex].height
    {
      BranchPrefix(t, h, t[pindex].height);
      if t[pindex].prev.None? {
        return None;
      }
      pindex := t[pindex].prev.value;
    }
    r := Some(pindex);
  }

  /** At its own height, a branch shows a block exactly if the block is below. */
  lemma ShowsAt(t: Tree, a: Hash, h: Hash)
    requires WellFormed(t) && a in t && h in t && t[a].height <= t[h].height
    ensures Below(t, a, h) <==> Branch(t, h)[t[a].height] == a
  {
    if Below(t, a, h) {
      BranchMember(t, h, a);
    }
  }

  datatype Vouched = Vouched(block: Hash, count: nat)

  /** The checkpoints of a node, over its chain. */
  class CheckpointState {
    const chain: ChainState
    var hashSyncCheckpoint: Hash
    var hashPendingCheckpoint: Option<Hash>
    var hashInvalidCheckpoint: Option<Hash>
    /** Every checkpoint adopted so far, and every block accepted under strict checking with how many there were. */
    ghost var adopted: seq<Hash>
    ghost var vouched: set<Vouched>

    /** What holds of the checkpoints over the blocks of `t`. */
    ghost predicate SoundOn(t: Tree)
      reads this
    {
      && WellFormed(t)
      && |adopted| > 0 && adopted[|adopted| - 1] == hashSyncCheckpoint
      && Ascending(t, adopted)
      && AllVouched(t, adopted, vouched)
    }

    ghost predicate Sound()
      reads this, chain
    {
      SoundOn(chain.mapBlockIndex)
    }

    /** The tip stands on the current checkpoint, and so the main chain has every checkpoint adopted. */
    ghost predicate Contained()
      reads this, chain
    {
      && chain.pindexBest.Some? && WellFormed(chain.mapBlockIndex) && chain.pindexBest.value in chain.mapBlockIndex
      && Below(chain.mapBlockIndex, hashSyncCheckpoint, chain.pindexBest.value)
    }

    constructor (chain: ChainState)
      requires chain.Valid() && chain.pindexBest == Some(chain.env.genesis)
      ensures Sound() && Contained() && this.chain == chain && adopted == [chain.env.genesis] && vouched == {}
      ensures hashPendingCheckpoint.None?
    {
      this.chain, hashSyncCheckpoint := chain, chain.env.genesis;
      hashPendingCheckpoint, hashInvalidCheckpoint, adopted, vouched := None, None, [chain.env.genesis], {};
    }

    /** A received checkpoint is good exactly if it is known and above the current one; it is reported as invalid
        exactly if it is known and on another branch. */
    method ValidateSyncCheckpoint(hashCheckpoint: Hash) returns (ok: bool)
      requires Sound()
      modifies this`hashInvalidCheckpoint
      ensures ok <==> hashCheckpoint in chain.mapBlockIndex && hashCheckpoint != hashSyncCheckpoint
                      && Below(chain.mapBlockIndex, hashSyncCheckpoint, hashCheckpoint)
      ensures hashInvalidCheckpoint ==
              if hashCheckpoint in chain.mapBlockIndex && !Below(chain.mapBlockIndex, hashSyncCheckpoint, hashCheckpoint)
                 && !Below(chain.mapBlockIndex, hashCheckpoint, hashSyncCheckpoint) then Some(hashCheckpoint)
              else old(hashInvalidCheckpoint)
    {
      assert hashSyncCheckpoint == adopted[|adopted| - 1];
      if hashCheckpoint !in chain.mapBlockIndex {
        return false;
      }
      var syncHeight, recvHeight := chain.mapBlockIndex[hashSyncCheckpoint].height, chain.mapBlockIndex[hashCheckpoint].height;
      if recvHeight <= syncHeight {
        ShowsAt(chain.mapBlockIndex, hashCheckpoint, hashSyncCheckpoint);
        if Below(chain.mapBlockIndex, hashSyncCheckpoint, hashCheckpoint) {
          BranchMember(chain.mapBlockIndex, hashCheckpoint, hashSyncCheckpoint);
        }
        var pindex := TraceBack(chain.mapBlockIndex, hashSyncCheckpoint, recvHeight);
        if pindex != Some(hashCheckpoint) {
          hashInvalidCheckpoint := Some(hashCheckpoint);
        }
        return false;
      }
      ShowsAt(chain.mapBlockIndex, hashSyncCheckpoint, hashCheckpoint);
      if Below(chain.mapBlockIndex, hashCheckpoint, hashSyncCheckpoint) {
        BranchMember(chain.mapBlockIndex, hashSyncCheckpoint, hashCheckpoint);
      }
      var pindex := TraceBack(chain.mapBlockIndex, hashCheckpoint, syncHeight);
      if pindex != Some(hashSyncCheckpoint) {
        hashInvalidCheckpoint := Some(hashCheckpoint);
        return false;
      }
      ok := true;
    }

    /** The check of a block about to be accepted: a block not yet known passes exactly if it stands on the
        checkpoint. */
    method CheckSync(hashBlock: Hash, prev: Hash) returns (ok: bool)
      requires Sound() && prev in chain.mapBlockIndex
      ensures hashBlock !in chain.mapBlockIndex ==> (ok <==> Below(chain.mapBlockIndex, hashSyncCheckpoint, prev))
      ensures hashBlock in chain.mapBlockIndex && chain.mapBlockIndex[hashBlock].prev == Some(prev) ==>
                (ok <==> Below(chain.mapBlockIndex, hashSyncCheckpoint, hashBlock)
                         || chain.mapBlockIndex[hashBlock].height < chain.mapBlockIndex[hashSyncCheckpoint].height)
    {
      assert hashSyncCheckpoint == adopted[|adopted| - 1];
      var nHeight := chain.mapBlockIndex[prev].height + 1;
      var syncHeight := chain.mapBlockIndex[hashSyncCheckpoint].height;
      if Below(chain.mapBlockIndex, hashSyncCheckpoint, prev) {
        BranchMember(chain.mapBlockIndex, prev, hashSyncCheckpoint);
      }
      if hashBlock in chain.mapBlockIndex && Below(chain.mapBlockIndex, hashSyncCheckpoint, hashBlock) {
        BranchMember(chain.mapBlockIndex, hashBlock, hashSyncCheckpoint);
      }
      if nHeight > syncHeight {
        ShowsAt(chain.mapBlockIndex, hashSyncCheckpoint, prev);
        var pindex := TraceBack(chain.mapBlockIndex, prev, syncHeight);
        if pindex != Some(hashSyncCheckpoint) {
          return false;
        }
      }
      if nHeight == syncHeight && hashBlock != hashSyncCheckpoint {
        return false;
      }
      if nHeight < syncHeight && hashBlock !in chain.mapBlockIndex {
        return false;
      }
      ok := true;
    }

    /** AcceptBlock: the synchronised checkpoints' check, the chain, and a checkpoint that waited. In strict mode and
        outside initial download an accepted block stands on every checkpoint adopted before, and the main chain keeps
        having them all. The waiting checkpoint is looked at only if the block left no reconnect over. The initial download
        may end while the block is being accepted, so it is asked for twice. */
    method AcceptBlock(b: Block, nFile: nat, nBlockPos: nat, fStrict: bool, fInitialDownload: bool, fStillDownload: bool,
                       written: bool)
        returns (v: Verdict, left: nat)
      requires Sound() && chain.Valid() && chain.TreeOk() && chain.pindexBest.Some?
      requires b.work > 0 && (nFile, nBlockPos) !in chain.db.disk
      requires b.prev in chain.mapBlockIndex ==> Ids(b.vtx) !! BranchIds(chain.mapBlockIndex, chain.db.disk, b.prev)
      modifies this, chain, chain.db`disk, chain.db`committed, chain.db`txn, chain.db`broken
      ensures Sound() && old(adopted) <= adopted && chain.pindexBest.Some?
      ensures (chain.Valid() <==> left == 0) && (left > 0 ==> chain.Lagging(left))
      ensures chain.mapBlockIndex ==
              if v.Accepted? then old(chain.mapBlockIndex)[b.hash := old(chain.NewEntry(b, nFile, nBlockPos))]
              else old(chain.mapBlockIndex)
      ensures !v.Accepted? ==> left == 0 && chain.pindexBest == old(chain.pindexBest) && adopted == old(adopted)
                               && hashPendingCheckpoint == old(hashPendingCheckpoint)
      ensures old(b.hash in chain.mapBlockIndex || b.prev !in chain.mapBlockIndex) ==>
                !v.Accepted? && chain.db.disk == old(chain.db.disk)
      ensures v.Refused? ==>
                || old(b.hash in chain.mapBlockIndex || b.prev !in chain.mapBlockIndex)
                || (fStrict && !fInitialDownload && old(!Below(chain.mapBlockIndex, hashSyncCheckpoint, b.prev)))
                || RejectedOn(chain.env, old(chain.mapBlockIndex)[b.hash := old(chain.NewEntry(b, nFile, nBlockPos))], chain.db.disk,
                             b.hash, old(chain.bnBestChainWork), old(chain.nBestHeight))
      ensures chain.db.reliable ==> !v.Faulted?
      ensures v.Accepted? && fStrict && !fInitialDownload ==>
                forall i :: 0 <= i < |old(adopted)| ==> Below(chain.mapBlockIndex, old(adopted)[i], b.hash)
      ensures chain.db.disk == old(chain.db.disk) || chain.db.disk == old(chain.db.disk)[(nFile, nBlockPos) := b]
      ensures v.Accepted? ==> chain.db.disk == old(chain.db.disk)[(nFile, nBlockPos) := b]
      ensures fStrict && !fInitialDownload && old(Contained()) ==> Contained()
      ensures old(hashPendingCheckpoint).None? || fStillDownload ==>
                && hashPendingCheckpoint == old(hashPendingCheckpoint) && adopted == old(adopted)
                && (v.Accepted? ==> chain.LeftOver(b.hash, left, old(chain.bnBestChainWork), old(chain.nBestHeight)))
                && (v.Accepted? ==>
                      chain.pindexBest == if old(chain.NewEntry(b, nFile, nBlockPos)).work > old(chain.bnBestChainWork) then Some(b.hash)
                                          else old(chain.pindexBest))
                && (old(chain.Heaviest()) ==> left == 0 && chain.Heaviest())
    {
      hide Rejects, RefusedAt, AtTip, Replay, Fresh, Stored, Links, DiskImage, BranchIds, RejectedOn, PostponedAs, ChainState.Lagging,
           ChainState.LeftOver, ChainState.Heaviest, Branch, WellFormed, Ascending, AllVouched, Acceptable, ChainState.MemoryAt;
      left := 0;
      if b.hash in chain.mapBlockIndex || b.prev !in chain.mapBlockIndex {
        return Refused, 0;
      }
      if !fInitialDownload {
        var cpSatisfies := CheckSync(b.hash, b.prev);
        if fStrict && !cpSatisfies {
          return Refused, 0;
        }
      }
      v, left := AcceptChecked(b, nFile, nBlockPos, fStrict && !fInitialDownload);
      if v.Accepted? && left == 0 && !fStillDownload {
        var ok;
        ok, left := AcceptPendingSyncCheckpoint(written);
      }
    }

    /** AcceptBlock after its checks: the block joins the chain. */
    method AcceptChecked(b: Block, nFile: nat, nBlockPos: nat, ghost checked: bool) returns (v: Verdict, left: nat)
      requires Sound() && chain.Valid() && chain.TreeOk() && chain.pindexBest.Some?
      requires b.work > 0 && (nFile, nBlockPos) !in chain.db.disk && b.hash !in chain.mapBlockIndex && b.prev in chain.mapBlockIndex
      requires Ids(b.vtx) !! BranchIds(chain.mapBlockIndex, chain.db.disk, b.prev)
      requires checked ==> Below(chain.mapBlockIndex, hashSyncCheckpoint, b.prev)
      modifies this`vouched, chain, chain.db`disk, chain.db`committed, chain.db`txn, chain.db`broken
      ensures Sound() && chain.pindexBest.Some?
      ensures (chain.Valid() <==> left == 0) && (left > 0 ==> chain.Lagging(left))
      ensures chain.mapBlockIndex ==
              if v.Accepted? then old(chain.mapBlockIndex)[b.hash := old(chain.NewEntry(b, nFile, nBlockPos))]
              else old(chain.mapBlockIndex)
      ensures !v.Accepted? ==> left == 0 && chain.pindexBest == old(chain.pindexBest)
      ensures v.Refused? ==>
                RejectedOn(chain.env, old(chain.mapBlockIndex)[b.hash := old(chain.NewEntry(b, nFile, nBlockPos))], chain.db.disk,
                             b.hash, old(chain.bnBestChainWork), old(chain.nBestHeight))
      ensures chain.db.reliable ==> !v.Faulted?
      ensures v.Accepted? ==>
                chain.pindexBest == if old(chain.NewEntry(b, nFile, nBlockPos)).work > old(chain.bnBestChainWork) then Some(b.hash)
                                    else old(chain.pindexBest)
      ensures chain.db.disk == old(chain.db.disk) || chain.db.disk == old(chain.db.disk)[(nFile, nBlockPos) := b]
      ensures v.Accepted? ==> chain.db.disk == old(chain.db.disk)[(nFile, nBlockPos) := b]
      ensures v.Accepted? && checked ==>
                forall i :: 0 <= i < |adopted| ==> Below(chain.mapBlockIndex, adopted[i], b.hash)
      ensures checked && old(Contained()) ==> Contained()
      ensures v.Accepted? ==> chain.LeftOver(b.hash, left, old(chain.bnBestChainWork), old(chain.nBestHeight))
      ensures old(chain.Heaviest()) ==> left == 0 && chain.Heaviest()
    {
      hide Rejects, RefusedAt, AtTip, Replay, Fresh, Stored, Links, DiskImage, BranchIds, RejectedOn, PostponedAs, ChainState.Lagging,
           ChainState.LeftOver, ChainState.Heaviest, Branch, Ascending, AllVouched, WellFormed, ChainState.MemoryAt, ChainState.CommittedAt;
      ghost var t := chain.mapBlockIndex;
      LastAdopted(t, adopted);
      v, left := chain.AcceptBlock(b, nFile, nBlockPos);
      if v.Accepted? {
        TreeAfter(left);
        NewBlockChecked(t, b.hash, chain.mapBlockIndex[b.hash], checked);
        if checked {
          VouchOne(chain.mapBlockIndex, adopted, vouched, b.hash);
          vouched := vouched + {Vouched(b.hash, |adopted|)};
        }
      }
    }

    lemma TreeAfter(left: nat)
      requires (left == 0 ==> chain.Valid() && chain.pindexBest.Some?) && (left > 0 ==> chain.Lagging(left))
      ensures chain.TreeOk() && chain.pindexBest.Some? && chain.pindexBest.value in chain.mapBlockIndex
    {
      hide AtTip, Replay, Fresh, Stored, Links, DiskImage;
    }

    /** A block just accepted on top of a known one leaves the checkpoints sound, and stands on all of them if its
        parent was checked. */
    lemma NewBlockChecked(t: Tree, x: Hash, e: BlockIndex, checked: bool)
      requires SoundOn(t) && x !in t && chain.mapBlockIndex == t[x := e] && WellFormed(chain.mapBlockIndex)
      requires e.prev.Some? && e.prev.value in t && (checked ==> Below(t, hashSyncCheckpoint, e.prev.value))
      ensures Sound()
      ensures checked ==> forall i :: 0 <= i < |adopted| ==> Below(chain.mapBlockIndex, adopted[i], x)
      ensures forall h :: h in t ==> (Below(chain.mapBlockIndex, hashSyncCheckpoint, h) <==> Below(t, hashSyncCheckpoint, h))
    {
      hide Branch, WellFormed;
      SoundGrows(t, chain.mapBlockIndex, adopted, vouched);
      if checked {
        StandsOnAll(t, adopted, e.prev.value, x, e);
      }
      forall h | h in t
        ensures Below(chain.mapBlockIndex, hashSyncCheckpoint, h) <==> Below(t, hashSyncCheckpoint, h)
      {
        BelowGrown(t, chain.mapBlockIndex, hashSyncCheckpoint, h);
      }
    }

    /** WriteSyncCheckpoint. */
    method WriteSyncCheckpoint(hashCheckpoint: Hash, written: bool) returns (ok: bool)
      requires Sound() && Acceptable(chain.mapBlockIndex, hashSyncCheckpoint, hashCheckpoint)
      modifies this`hashSyncCheckpoint, this`adopted
      ensures Sound() && ok == written
      ensures if ok then adopted == old(adopted) + [hashCheckpoint] && hashSyncCheckpoint == hashCheckpoint
              else adopted == old(adopted) && hashSyncCheckpoint == old(hashSyncCheckpoint)
    {
      if !written {
        return false;
      }
      AdoptOneMore(chain.mapBlockIndex, adopted, vouched, hashCheckpoint);
      hashSyncCheckpoint := hashCheckpoint;
      adopted := adopted + [hashCheckpoint];
      ok := true;
    }

    /** The common part of adopting a checkpoint that has been validated: a block off the main chain is made the tip,
        whatever its work, and then the checkpoint is stored. An adopted checkpoint is on the main chain. */
    method Adopt(h: Hash, written: bool) returns (ok: bool, left: nat)
      requires Sound() && chain.Valid() && chain.pindexBest.Some? && Acceptable(chain.mapBlockIndex, hashSyncCheckpoint, h)
      modifies this`hashSyncCheckpoint, this`adopted, this`hashInvalidCheckpoint,
               chain, chain.db`committed, chain.db`txn, chain.db`broken
      ensures Sound() && chain.mapBlockIndex == old(chain.mapBlockIndex) && chain.pindexBest.Some?
      ensures (chain.Valid() <==> left == 0) && (left > 0 ==> chain.Lagging(left))
      ensures adopted == if ok then old(adopted) + [h] else old(adopted)
      ensures ok ==> written && hashSyncCheckpoint == h && Below(chain.mapBlockIndex, h, chain.pindexBest.value)
      ensures !ok ==> hashSyncCheckpoint == old(hashSyncCheckpoint)
      ensures hashInvalidCheckpoint == old(hashInvalidCheckpoint) || (!ok && hashInvalidCheckpoint == Some(h))
      ensures chain.db.reliable && written && !ok ==> hashInvalidCheckpoint == Some(h)
      ensures chain.pindexBest == old(chain.pindexBest) || chain.pindexBest == Some(h)
      ensures chain.db.reliable && written && !ok ==>
                RejectedOn(chain.env, chain.mapBlockIndex, chain.db.disk, h, old(chain.bnBestChainWork), old(chain.nBestHeight))
      ensures left > 0 || (ok && old(h !in Branch(chain.mapBlockIndex, chain.pindexBest.value))) ==>
                chain.pindexBest == Some(h)
                && PostponedAs(chain.env, chain.mapBlockIndex, chain.db.disk, chain.db.reliable, h, left,
                               old(chain.bnBestChainWork), old(chain.nBestHeight))
      ensures old(Contained()) ==> Contained()
    {
      hide AtTip, Replay, Fresh, Stored, Links, DiskImage, RejectedOn, PostponedAs, ChainState.Lagging, WellFormed, Branch,
           ChainState.MemoryAt;
      ghost var t := chain.mapBlockIndex;
      var v, read;
      v, left, read := chain.BringToMainChain(h);
      BelowSelf(t, h);
      if !v.Accepted? {
        if read {
          hashInvalidCheckpoint := Some(h);
        }
        ok := false;
        return;
      }
      ok := WriteSyncCheckpoint(h, written);
    }

    /** A checkpoint that waited for its block. */
    method AcceptPendingSyncCheckpoint(written: bool) returns (ok: bool, left: nat)
      requires Sound() && chain.Valid() && chain.pindexBest.Some?
      modifies this, chain, chain.db`committed, chain.db`txn, chain.db`broken
      ensures Sound() && chain.mapBlockIndex == old(chain.mapBlockIndex) && chain.pindexBest.Some? && vouched == old(vouched)
      ensures (chain.Valid() <==> left == 0) && (left > 0 ==> chain.Lagging(left))
      ensures ok ==> old(hashPendingCheckpoint).Some? && written
                     && old(Acceptable(chain.mapBlockIndex, hashSyncCheckpoint, hashPendingCheckpoint.value))
                     && Below(chain.mapBlockIndex, hashSyncCheckpoint, chain.pindexBest.value)
      ensures adopted == if ok then old(adopted) + [old(hashPendingCheckpoint).value] else old(adopted)
      ensures old(hashPendingCheckpoint).None? ==>
                && hashPendingCheckpoint.None? && left == 0 && chain.pindexBest == old(chain.pindexBest)
                && hashSyncCheckpoint == old(hashSyncCheckpoint) && chain.bnBestChainWork == old(chain.bnBestChainWork)
      ensures chain.db.reliable && written && !ok && old(hashPendingCheckpoint).Some?
              && old(Acceptable(chain.mapBlockIndex, hashSyncCheckpoint, hashPendingCheckpoint.value)) ==>
                RejectedOn(chain.env, chain.mapBlockIndex, chain.db.disk, old(hashPendingCheckpoint).value, old(chain.bnBestChainWork), old(chain.nBestHeight))
      ensures old(Contained()) ==> Contained()
    {
      hide AtTip, Replay, Fresh, Stored, Links, DiskImage, RejectedOn, PostponedAs, ChainState.Lagging, Branch, WellFormed, ChainState.MemoryAt, ChainState.CommittedAt, Ascending, AllVouched;
      left := 0;
      if hashPendingCheckpoint.None? || hashPendingCheckpoint.value !in chain.mapBlockIndex {
        return false, 0;
      }
      var good := ValidateSyncCheckpoint(hashPendingCheckpoint.value);
      if !good {
        hashPendingCheckpoint := None;
        return false, 0;
      }
      ok, left := Adopt(hashPendingCheckpoint.value, written);
      if ok {
        hashPendingCheckpoint := None;
      }
    }

    /** A checkpoint message: adopted exactly if signed, known, above the current checkpoint, stored, and on the main chain or
        brought there; one whose block is unknown waits. */
    method ProcessSyncCheckpoint(hashCheckpoint: Hash, signed: bool, written: bool) returns (ok: bool, left: nat)
      requires Sound() && chain.Valid() && chain.pindexBest.Some?
      modifies this, chain, chain.db`committed, chain.db`txn, chain.db`broken
      ensures Sound() && chain.mapBlockIndex == old(chain.mapBlockIndex) && chain.pindexBest.Some?
      ensures (chain.Valid() <==> left == 0) && (left > 0 ==> chain.Lagging(left))
      ensures ok ==> signed && written && old(Acceptable(chain.mapBlockIndex, hashSyncCheckpoint, hashCheckpoint))
                     && Below(chain.mapBlockIndex, hashSyncCheckpoint, chain.pindexBest.value)
      ensures adopted == if ok then old(adopted) + [hashCheckpoint] else old(adopted)
      ensures ok ==> hashPendingCheckpoint.None?
      ensures signed && hashCheckpoint !in chain.mapBlockIndex ==> hashPendingCheckpoint == Some(hashCheckpoint)
      ensures !signed ==> hashPendingCheckpoint == old(hashPendingCheckpoint)
      ensures !signed || hashCheckpoint !in chain.mapBlockIndex ==> chain.pindexBest == old(chain.pindexBest) && left == 0
      ensures chain.pindexBest == old(chain.pindexBest) || chain.pindexBest == Some(hashCheckpoint)
      ensures chain.db.reliable && signed && written && !ok
              && old(Acceptable(chain.mapBlockIndex, hashSyncCheckpoint, hashCheckpoint)) ==>
                RejectedOn(chain.env, chain.mapBlockIndex, chain.db.disk, hashCheckpoint, old(chain.bnBestChainWork), old(chain.nBestHeight))
      ensures left > 0 || (ok && old(hashCheckpoint !in Branch(chain.mapBlockIndex, chain.pindexBest.value))) ==>
                chain.pindexBest == Some(hashCheckpoint)
                && PostponedAs(chain.env, chain.mapBlockIndex, chain.db.disk, chain.db.reliable, hashCheckpoint, left,
                               old(chain.bnBestChainWork), old(chain.nBestHeight))
      ensures old(Contained()) ==> Contained()
    {
      hide AtTip, Replay, Fresh, Stored, Links, DiskImage, RejectedOn, PostponedAs, ChainState.Lagging, Branch, WellFormed, ChainState.MemoryAt, ChainState.CommittedAt, Ascending, AllVouched;
      left := 0;
      if !signed {
        return false, 0;
      }
      if hashCheckpoint !in chain.mapBlockIndex {
        hashPendingCheckpoint := Some(hashCheckpoint);
        return false, 0;
      }
      var good := ValidateSyncCheckpoint(hashCheckpoint);
      if !good {
        return false, 0;
      }
      ok, left := Adopt(hashCheckpoint, written);
      if ok {
        hashPendingCheckpoint := None;
      }
    }
  }

  /** Known, and properly above the current checkpoint. */
  ghost predicate Acceptable(t: Tree, sync: Hash, h: Hash)
    requires WellFormed(t)
  {
    h in t && h != sync && Below(t, sync, h)
  }

  /** Each checkpoint stands properly on the one before. */
  ghost predicate Ascending(t: Tree, adopted: seq<Hash>)
    requires WellFormed(t)
  {
    && (forall i :: 0 <= i < |adopted| ==> adopted[i] in t)
    && forall i, j :: 0 <= i < j < |adopted| ==> adopted[i] != adopted[j] && Below(t, adopted[i], adopted[j])
  }

  /** Every block vouched for stands on all the checkpoints there were. */
  ghost predicate AllVouched(t: Tree, adopted: seq<Hash>, vouched: set<Vouched>)
    requires WellFormed(t)
  {
    forall v :: v in vouched ==>
      && v.block in t && v.count <= |adopted|
      && forall i :: 0 <= i < v.count ==> Below(t, adopted[i], v.block)
  }

  /** However the tree grows, adopted checkpoints and blocks vouched for stay what they are. */
  lemma SoundGrows(t: Tree, t': Tree, adopted: seq<Hash>, vouched: set<Vouched>)
    requires WellFormed(t) && WellFormed(t') && Grown(t, t') && Ascending(t, adopted) && AllVouched(t, adopted, vouched)
    ensures Ascending(t', adopted) && AllVouched(t', adopted, vouched)
  {
    hide WellFormed, Below;
    forall i | 0 <= i < |adopted| ensures adopted[i] in t' {
      assert adopted[i] in t;
      GrownHas(t, t', adopted[i]);
    }
    forall i, j | 0 <= i < j < |adopted| ensures Below(t', adopted[i], adopted[j]) {
      BelowGrown(t, t', adopted[i], adopted[j]);
    }
    forall v | v in vouched ensures v.block in t' {
      assert v.block in t;
      GrownHas(t, t', v.block);
    }
    forall v, i | v in vouched && 0 <= i < v.count ensures Below(t', adopted[i], v.block) {
      BelowGrown(t, t', adopted[i], v.block);
    }
  }

  lemma StandsOnAll(t: Tree, adopted: seq<Hash>, prev: Hash, x: Hash, e: BlockIndex)
    requires WellFormed(t) && WellFormed(t[x := e]) && x !in t && e.prev == Some(prev) && prev in t
    requires |adopted| > 0 && Ascending(t, adopted) && Below(t, adopted[|adopted| - 1], prev)
    ensures forall i :: 0 <= i < |adopted| ==> Below(t[x := e], adopted[i], x)
  {
    BranchStable(t, prev, x, e);
    forall i | 0 <= i < |adopted| ensures Below(t[x := e], adopted[i], x) {
      if i < |adopted| - 1 {
        BelowTransitive(t, adopted[i], adopted[|adopted| - 1], prev);
      }
      assert adopted[i] in Branch(t, prev);
    }
  }

  lemma LastAdopted(t: Tree, adopted: seq<Hash>)
    requires WellFormed(t) && |adopted| > 0 && Ascending(t, adopted)
    ensures adopted[|adopted| - 1] in t
  {
  }

  lemma VouchOne(t: Tree, adopted: seq<Hash>, vouched: set<Vouched>, h: Hash)
    requires WellFormed(t) && AllVouched(t, adopted, vouched) && h in t && forall i :: 0 <= i < |adopted| ==> Below(t, adopted[i], h)
    ensures AllVouched(t, adopted, vouched + {Vouched(h, |adopted|)})
  {
    hide Below;
  }

  lemma AdoptOneMore(t: Tree, adopted: seq<Hash>, vouched: set<Vouched>, h: Hash)
    requires WellFormed(t) && |adopted| > 0 && Ascending(t, adopted) && AllVouched(t, adopted, vouched)
    requires h in t && h != adopted[|adopted| - 1] && Below(t, adopted[|adopted| - 1], h)
    ensures Ascending(t, adopted + [h]) && AllVouched(t, adopted + [h], vouched)
  {
    var last := adopted[|adopted| - 1];
    forall i | 0 <= i < |adopted| ensures adopted[i] != h && Below(t, adopted[i], h) {
      if i < |adopted| - 1 {
        BelowTransitive(t, adopted[i], last, h);
        BranchMember(t, last, adopted[i]);
      }
      BranchMember(t, h, last);
      if adopted[i] == h { BranchMember(t, last, h); }
    }
  }
}
