/** The chain state machine: memory and database kept in step while blocks arrive, extend the main
    chain, fork off, or take it over. */
module ChainStateMachine {
  import opened Basics
  import opened ChainTypes
  import opened ConnectSpec
  import opened BlockTree
  import opened Storage
  import opened Connect
  import opened ChainSpec

  class ChainState {
    const env: Env
    const db: TxDb
    var mapBlockIndex: Tree
    var pnext: map<Hash, Hash>                // the pnext pointers; no entry means null
    var pindexGenesisBlock: Option<Hash>
    var pindexBest: Option<Hash>
    var hashBestChain: Hash
    var nBestHeight: int
    var bnBestChainWork: nat
    var pblockindexFBBHLast: Option<Hash>

    /** The block tree: one root, every block stored, no identifier repeated along a branch. */
    ghost predicate TreeOk()
      reads this, db
    {
      && WellFormed(mapBlockIndex)
      && Stored(mapBlockIndex, db.disk)
      && Fresh(mapBlockIndex, db.disk)
      && (forall h {:trigger mapBlockIndex[h].prev} :: h in mapBlockIndex && mapBlockIndex[h].prev.None? ==> h == env.genesis)
    }

    /** Memory shows `tip` as the best block and links exactly its proper ancestors forward. */
    ghost predicate MemoryAt(tip: Hash)
      reads this, db
    {
      && TreeOk() && tip in mapBlockIndex
      && pindexBest == Some(tip) && hashBestChain == tip
      && nBestHeight == mapBlockIndex[tip].height && bnBestChainWork == mapBlockIndex[tip].work
      && pnext == Links(Branch(mapBlockIndex, tip))
      && pindexGenesisBlock == Some(env.genesis)
      && (pblockindexFBBHLast.Some? ==> pblockindexFBBHLast.value in Branch(mapBlockIndex, tip))
    }

    /** No known block has more work than the tip. */
    ghost predicate Heaviest()
      reads this`mapBlockIndex, this`bnBestChainWork
    {
      forall h {:trigger mapBlockIndex[h].work} :: h in mapBlockIndex ==> mapBlockIndex[h].work <= bnBestChainWork
    }

    ghost predicate CommittedAt(tip: Hash)
      reads this, db
    {
      AtTip(db.committed, mapBlockIndex, db.disk, tip) && db.committed.best == tip
    }

    /** The open transaction, unless a write in it failed, holds the records of `tip`. */
    ghost predicate TxnAt(tip: Hash)
      reads this, db
    {
      db.txn.Some? && (db.broken || AtTip(db.txn.value, mapBlockIndex, db.disk, tip))
    }

    /** Before the genesis block. */
    ghost predicate Empty()
      reads this, db
    {
      && mapBlockIndex == map[] && pnext == map[] && pindexGenesisBlock.None? && pindexBest.None?
      && hashBestChain == 0 && nBestHeight == -1 && bnBestChainWork == 0 && pblockindexFBBHLast.None?
      && db.committed.tx == map[] && db.committed.blockIndex == map[]
    }

    /** The chain at rest: memory and database agree on the tip. That it is the heaviest block is another matter. */
    ghost predicate Valid()
      reads this, db
    {
      && db.txn.None? && !db.broken
      && if pindexBest.None? then Empty()
         else MemoryAt(pindexBest.value) && CommittedAt(pindexBest.value)
    }

    /** After postponed reconnects failed: memory names a tip, while links and database stand `left` blocks before it
        on its branch. */
    ghost predicate Lagging(left: nat)
      reads this, db
    {
      && db.txn.None? && !db.broken && TreeOk() && pindexBest.Some? && pindexBest.value in mapBlockIndex
      && hashBestChain == pindexBest.value && pindexGenesisBlock == Some(env.genesis) && pblockindexFBBHLast.None?
      && nBestHeight == mapBlockIndex[hashBestChain].height && bnBestChainWork == mapBlockIndex[hashBestChain].work
      && left <= mapBlockIndex[hashBestChain].height
      && CommittedAt(Back(mapBlockIndex, hashBestChain, left))
      && pnext == Links(Branch(mapBlockIndex, Back(mapBlockIndex, hashBestChain, left)))
    }

    constructor (env: Env, db: TxDb)
      requires db.committed.tx == map[] && db.committed.blockIndex == map[] && db.txn.None? && !db.broken
      ensures Valid() && Empty() && this.env == env && this.db == db
    {
      this.env, this.db := env, db;
      mapBlockIndex, pnext := map[], map[];
      pindexGenesisBlock, pindexBest, pblockindexFBBHLast := None, None, None;
      hashBestChain, nBestHeight, bnBestChainWork := 0, -1, 0;
    }

    // ---------------------------------------------------------------- single blocks inside a transaction

    /** Read a block of the disconnected branch and take it off. */
    method DisconnectTip(h: Hash) returns (v: Verdict)
      requires TreeOk() && TxnAt(h) && h in mapBlockIndex && mapBlockIndex[h].prev.Some?
      modifies db`txn, db`broken
      ensures db.txn.Some?
      ensures v.Accepted? ==> TxnAt(mapBlockIndex[h].prev.value)
      ensures v.Refused? ==> db.broken
      ensures db.reliable && !old(db.broken) ==> v.Accepted? && !db.broken
    {
      var e := mapBlockIndex[h];
      var fault, read := db.ReadBlockFromDisk(h, e);
      assert (e.file, e.blockPos) in db.disk;
      if read.None? {
        return Faulted;
      }
      ghost var before := db.txn.value;
      v := DisconnectBlock(mapBlockIndex, h, db, read.value);
      if !db.broken {
        DisconnectStep(before, db.txn.value, mapBlockIndex, db.disk, h);
      }
    }

    /** Connect a block of the new branch. */
    method ConnectTip(h: Hash, b: Block) returns (v: Verdict)
      requires TreeOk() && h in mapBlockIndex && mapBlockIndex[h].prev.Some? && TxnAt(mapBlockIndex[h].prev.value)
      requires b == BlockOf(mapBlockIndex, db.disk, h)
      modifies db`txn, db`broken
      ensures db.txn.Some? && (old(db.broken) ==> db.broken)
      ensures v.Accepted? ==> TxnAt(h)
      ensures v.Accepted? && !db.broken ==> db.txn.value.best == old(db.txn).value.best
      ensures v.Refused? ==> db.broken || Rejects(env, mapBlockIndex, db.disk, h, nBestHeight)
      ensures v.Accepted? ==> db.broken || !Rejects(env, mapBlockIndex, db.disk, h, nBestHeight)
      ensures db.reliable ==> !v.Faulted? && db.broken == old(db.broken)
    {
      hide ConnectsTo;
      ghost var before := db.txn.value;
      v := Connect.ConnectBlock(env, mapBlockIndex, h, db, b, nBestHeight);
      if !db.broken {
        ConnectStep(before, db.txn.value, env, mapBlockIndex, db.disk, h, nBestHeight);
      }
    }

    /** SetBestChainInner: connect the next block and, unless the caller commits later, commit. */
    method SetBestChainInner(h: Hash, b: Block, fDeferCommit: bool) returns (v: Verdict)
      requires TreeOk() && h in mapBlockIndex && mapBlockIndex[h].prev.Some? && TxnAt(mapBlockIndex[h].prev.value)
      requires b == BlockOf(mapBlockIndex, db.disk, h)
      modifies this`pnext, db`committed, db`txn, db`broken
      ensures v.Accepted? ==> pnext == old(pnext)[mapBlockIndex[h].prev.value := h]
      ensures v.Accepted? && !fDeferCommit ==> CommittedAt(h) && db.txn.None? && !db.broken
      ensures v.Accepted? && fDeferCommit ==>
        TxnAt(h) && (db.broken || db.txn.value.best == h) && db.committed == old(db.committed)
      ensures !v.Accepted? ==> pnext == old(pnext) && db.committed == old(db.committed) && db.txn.None? && !db.broken
      ensures v.Refused? ==> Rejects(env, mapBlockIndex, db.disk, h, nBestHeight)
      ensures v.Accepted? ==> db.broken || !Rejects(env, mapBlockIndex, db.disk, h, nBestHeight)
      ensures db.reliable && !old(db.broken) ==> !v.Faulted? && !db.broken
    {
      hide Replay, DiskImage, Links, Rejects, Fresh;
      v := ConnectTip(h, b);
      if v.Accepted? {
        var wrote := db.WriteHashBestChain(h);
        if !wrote {
          v := Faulted;
        }
      } else if db.broken {
        v := Faulted;
      }
      if !v.Accepted? {
        db.TxnAbort();
        return;
      }
      if !fDeferCommit {
        var committed := db.TxnCommit();
        if !committed {
          return Faulted;
        }
      }
      pnext := pnext[mapBlockIndex[h].prev.value := h];
    }

    // ---------------------------------------------------------------- reorganisation

    /** Take the main chain off, tip first, down to `fork`. */
    method DisconnectBranch(vDisconnect: seq<Hash>, tip: Hash, fork: Hash) returns (v: Verdict)
      requires TreeOk() && TxnAt(tip) && PathDown(mapBlockIndex, tip, fork, vDisconnect)
      modifies db`txn, db`broken
      ensures v.Accepted? ==> TxnAt(fork)
      ensures v.Refused? ==> db.broken
      ensures db.reliable && !old(db.broken) ==> v.Accepted? && !db.broken
    {
      hide AtTip, Replay, DiskImage, Links, Fresh, Stored, Branch;
      var i := 0;
      ghost var cur := tip;
      while i < |vDisconnect|
        invariant 0 <= i <= |vDisconnect|
        invariant cur == Branch(mapBlockIndex, tip)[mapBlockIndex[tip].height - i]
        invariant TxnAt(cur) && (db.reliable && !old(db.broken) ==> !db.broken)
        decreases |vDisconnect| - i
      {
        BranchPrefix(mapBlockIndex, tip, mapBlockIndex[tip].height - i);
        v := DisconnectTip(vDisconnect[i]);
        if !v.Accepted? {
          return;
        }
        cur := mapBlockIndex[cur].prev.value;
        i := i + 1;
      }
      BranchMember(mapBlockIndex, tip, fork);
      v := Accepted;
    }

    method ConnectFromDisk(h: Hash) returns (v: Verdict)
      requires TreeOk() && h in mapBlockIndex && mapBlockIndex[h].prev.Some? && TxnAt(mapBlockIndex[h].prev.value)
      modifies db`txn, db`broken
      ensures db.txn.Some? && (old(db.broken) ==> db.broken)
      ensures v.Accepted? ==> TxnAt(h)
      ensures v.Refused? ==> db.broken || Rejects(env, mapBlockIndex, db.disk, h, nBestHeight)
      ensures v.Accepted? ==> db.broken || Passes(env, mapBlockIndex, db.disk, h, nBestHeight)
      ensures db.reliable ==> !v.Faulted? && db.broken == old(db.broken)
    {
      hide AtTip, Replay, DiskImage, Links, Fresh, Rejects;
      var fault, read := db.ReadBlockFromDisk(h, mapBlockIndex[h]);
      if read.None? {
        return Faulted;
      }
      v := ConnectTip(h, read.value);
    }

    /** Put the new branch on, from the block after `fork` up to `tip`. */
    method ConnectBranch(vConnect: seq<Hash>, tip: Hash, fork: Hash) returns (v: Verdict)
      requires TreeOk() && TxnAt(fork) && PathUp(mapBlockIndex, fork, tip, vConnect)
      modifies db`txn, db`broken
      ensures db.txn.Some?
      ensures v.Accepted? ==> TxnAt(tip)
      ensures v.Refused? ==> db.broken || RejectedAbove(env, mapBlockIndex, db.disk, tip, fork, nBestHeight)
      ensures v.Accepted? ==> db.broken || !RejectedAbove(env, mapBlockIndex, db.disk, tip, fork, nBestHeight)
      ensures db.reliable ==> !v.Faulted? && db.broken == old(db.broken)
    {
      hide AtTip, Replay, DiskImage, Links, Fresh, Stored, Rejects, RejectedAbove, Passes, PathUp, Branch, WellFormed;
      PathUpEnds(mapBlockIndex, tip, fork, vConnect);
      var i := 0;
      while i < |vConnect|
        invariant 0 <= i <= |vConnect|
        invariant TxnAt(StepOf(fork, vConnect, i))
        invariant db.broken || forall j :: 0 <= j < i ==> Passes(env, mapBlockIndex, db.disk, vConnect[j], nBestHeight)
        invariant (old(db.broken) ==> db.broken) && (db.reliable ==> db.broken == old(db.broken))
        decreases |vConnect| - i
      {
        PathUpStep(mapBlockIndex, tip, fork, vConnect, i);
        v := ConnectFromDisk(vConnect[i]);
        if !v.Accepted? {
          if v.Refused? && !db.broken {
            OneRejected(env, mapBlockIndex, db.disk, vConnect, tip, fork, i, nBestHeight);
          }
          return;
        }
        i := i + 1;
      }
      if !db.broken {
        NoneRejected(env, mapBlockIndex, db.disk, vConnect, tip, fork, nBestHeight);
      }
      v := Accepted;
    }

    /** The database half of Reorganize, up to and including its one commit. */
    method SwitchDatabase(vDisconnect: seq<Hash>, vConnect: seq<Hash>, tip: Hash, fork: Hash, newTip: Hash) returns (v: Verdict)
      requires TreeOk() && TxnAt(tip)
      requires PathDown(mapBlockIndex, tip, fork, vDisconnect) && PathUp(mapBlockIndex, fork, newTip, vConnect)
      modifies db`committed, db`txn, db`broken
      ensures v.Accepted? ==> CommittedAt(newTip) && db.txn.None? && !db.broken
      ensures !v.Accepted? ==> db.committed == old(db.committed)
      ensures !v.Faulted? ==> (v.Refused? <==> RejectedAbove(env, mapBlockIndex, db.disk, newTip, fork, nBestHeight))
      ensures db.reliable && !old(db.broken) ==> !v.Faulted?
    {
      hide AtTip, Replay, DiskImage, Links, Fresh, PathDown, PathUp, RejectedAbove;
      v := DisconnectBranch(vDisconnect, tip, fork);
      if v.Accepted? {
        v := ConnectBranch(vConnect, newTip, fork);
      }
      if !v.Accepted? {
        if db.broken {
          v := Faulted;
        }
        return;
      }
      ghost var connected := db.txn.value;
      var wrote := db.WriteHashBestChain(newTip);
      if !wrote {
        return Faulted;
      }
      if !db.broken {
        AtTipIgnoresBest(connected, db.txn.value, mapBlockIndex, db.disk, newTip);
      }
      var committed := db.TxnCommit();
      v := if committed then Accepted else Faulted;
    }

    /** Reorganize: find the fork, switch the database in one transaction, then the memory. A switch that
        is not accepted has committed nothing and changed no pointer; unless storage fails, a switch is refused
        exactly when the rules refuse a block above the fork. */
    method Reorganize(newTip: Hash) returns (v: Verdict)
      requires pindexBest.Some? && MemoryAt(pindexBest.value) && TxnAt(pindexBest.value) && newTip in mapBlockIndex
      modifies this`pnext, db`committed, db`txn, db`broken
      ensures v.Accepted? ==>
        CommittedAt(newTip) && db.txn.None? && !db.broken && pnext == Links(Branch(mapBlockIndex, newTip))
      ensures !v.Accepted? ==> pnext == old(pnext) && db.committed == old(db.committed)
      ensures !v.Faulted? ==>
        exists f :: IsFork(mapBlockIndex, pindexBest.value, newTip, f)
                    && (v.Refused? <==> RejectedAbove(env, mapBlockIndex, db.disk, newTip, f, nBestHeight))
      ensures db.reliable && !old(db.broken) ==> !v.Faulted?
    {
      hide AtTip, Replay, DiskImage, Links, Fresh, Stored, RejectedAbove;
      var best := pindexBest.value;
      var found := FindFork(mapBlockIndex, best, newTip);
      if found.None? {
        SameRoot(mapBlockIndex, best, newTip, env.genesis);
        return Faulted;
      }
      var fork := found.value;
      var vDisconnect := ListBack(mapBlockIndex, best, fork);
      var back := ListBack(mapBlockIndex, newTip, fork);
      var vConnect := seq(|back|, i requires 0 <= i < |back| => back[|back| - 1 - i]);

      v := SwitchDatabase(vDisconnect, vConnect, best, fork, newTip);
      assert !v.Faulted? ==>
        IsFork(mapBlockIndex, best, newTip, fork)
        && (v.Refused? <==> RejectedAbove(env, mapBlockIndex, db.disk, newTip, fork, nBestHeight));
      if !v.Accepted? {
        return;
      }
      var cleared := ClearLinks(mapBlockIndex, pnext, vDisconnect, best, fork);
      pnext := SetLinks(mapBlockIndex, cleared, vConnect, fork, newTip);
      assert IsFork(mapBlockIndex, pindexBest.value, newTip, fork);
      assert !RejectedAbove(env, mapBlockIndex, db.disk, newTip, fork, nBestHeight);
    }

    // ---------------------------------------------------------------- a new best block

    /** One postponed reconnect: read the block, begin a transaction, connect and commit. */
    method ConnectNext(pindex: Hash) returns (ok: bool)
      requires TreeOk() && db.txn.None? && !db.broken && pindex in mapBlockIndex
      requires mapBlockIndex[pindex].prev.Some? && CommittedAt(mapBlockIndex[pindex].prev.value)
      requires pnext == Links(Branch(mapBlockIndex, mapBlockIndex[pindex].prev.value))
      modifies this`pnext, db`committed, db`txn, db`broken
      ensures db.txn.None? && !db.broken
      ensures ok ==> CommittedAt(pindex) && pnext == Links(Branch(mapBlockIndex, pindex))
      ensures !ok ==> pnext == old(pnext) && db.committed == old(db.committed)
      ensures ok ==> Passes(env, mapBlockIndex, db.disk, pindex, nBestHeight)
      ensures db.reliable && !ok ==> Rejects(env, mapBlockIndex, db.disk, pindex, nBestHeight)
    {
      hide AtTip, Replay, DiskImage, Links, Fresh, Rejects;
      ImageStep(mapBlockIndex, pindex);
      var fault, read := db.ReadBlockFromDisk(pindex, mapBlockIndex[pindex]);
      if read.None? {
        return false;
      }
      var begun := db.TxnBegin();
      if !begun {
        return false;
      }
      var v := SetBestChainInner(pindex, read.value, false);
      ok := v.Accepted?;
    }

    /** The postponed reconnects of SetBestChain: one transaction per block, oldest first, stopping at the
        first failure. `left` counts the blocks not connected; `reached` is the block that was. */
    method ConnectPostponed(vpindexSecondary: seq<Hash>, tip: Hash, start: Hash) returns (left: nat, ghost reached: Hash)
      requires TreeOk() && db.txn.None? && !db.broken && CommittedAt(start)
      requires pnext == Links(Branch(mapBlockIndex, start)) && PathDown(mapBlockIndex, tip, start, vpindexSecondary)
      modifies this`pnext, db`committed, db`txn, db`broken
      ensures db.txn.None? && !db.broken && left <= |vpindexSecondary|
      ensures reached in mapBlockIndex && CommittedAt(reached) && pnext == Links(Branch(mapBlockIndex, reached))
      ensures left == mapBlockIndex[tip].height - mapBlockIndex[reached].height && reached in Branch(mapBlockIndex, tip)
      ensures forall i :: left <= i < |vpindexSecondary| ==>
                Passes(env, mapBlockIndex, db.disk, vpindexSecondary[i], nBestHeight)
      ensures db.reliable && left > 0 ==>
                vpindexSecondary[left - 1] in mapBlockIndex
                && Rejects(env, mapBlockIndex, db.disk, vpindexSecondary[left - 1], nBestHeight)
    {
      hide AtTip, Replay, DiskImage, Links, Fresh, Stored, Rejects, Passes, Branch, PathDown, WellFormed;
      left, reached := |vpindexSecondary|, start;
      PathDownAt(mapBlockIndex, tip, start, vpindexSecondary, left);
      while left > 0
        invariant 0 <= left <= |vpindexSecondary| && db.txn.None? && !db.broken
        invariant OnWay(mapBlockIndex, tip, reached, left) && reached == PlaceOf(start, vpindexSecondary, left)
        invariant CommittedAt(reached) && pnext == Links(Branch(mapBlockIndex, reached))
        invariant forall i :: left <= i < |vpindexSecondary| ==>
                    Passes(env, mapBlockIndex, db.disk, vpindexSecondary[i], nBestHeight)
      {
        PathDownAt(mapBlockIndex, tip, start, vpindexSecondary, left - 1);
        PathDownStep(mapBlockIndex, tip, start, vpindexSecondary, left);
        var ok := ConnectNext(vpindexSecondary[left - 1]);
        if !ok {
          break;
        }
        left, reached := left - 1, vpindexSecondary[left - 1];
      }
    }

    /** The side-branch case of SetBestChain: reorganise to the first block with more work than the tip,
        then connect the rest one by one. */
    method SwitchBranch(pindexNew: Hash) returns (v: Verdict, left: nat, ghost reached: Hash)
      requires pindexBest.Some? && MemoryAt(pindexBest.value) && TxnAt(pindexBest.value) && pindexNew in mapBlockIndex
      modifies this`pnext, db`committed, db`txn, db`broken
      ensures db.txn.None? && !db.broken
      ensures v.Accepted? ==>
        && reached in mapBlockIndex && CommittedAt(reached) && pnext == Links(Branch(mapBlockIndex, reached))
        && left == mapBlockIndex[pindexNew].height - mapBlockIndex[reached].height && reached in Branch(mapBlockIndex, pindexNew)
        && PostponedAs(env, mapBlockIndex, db.disk, db.reliable, pindexNew, left, bnBestChainWork, nBestHeight)
      ensures !v.Accepted? ==> pnext == old(pnext) && db.committed == old(db.committed)
      ensures v.Refused? ==> RejectedOn(env, mapBlockIndex, db.disk, pindexNew, bnBestChainWork, nBestHeight)
      ensures db.reliable && !old(db.broken) ==> !v.Faulted?
    {
      hide AtTip, Replay, DiskImage, Links, Fresh, Stored, RejectedAbove, RejectedOn, PostponedAs, Rejects, Passes;
      var pindexIntermediate, vpindexSecondary :=
        Postpone(mapBlockIndex, mapBlockIndex[pindexBest.value].work, pindexNew);
      v := Reorganize(pindexIntermediate);
      if !v.Accepted? {
        db.TxnAbort();
        left, reached := 0, pindexNew;
        if v.Refused? {
          ghost var f :| IsFork(mapBlockIndex, pindexBest.value, pindexIntermediate, f)
                         && RejectedAbove(env, mapBlockIndex, db.disk, pindexIntermediate, f, nBestHeight);
          RejectedHigher(env, mapBlockIndex, db.disk, pindexIntermediate, f, pindexNew, bnBestChainWork, nBestHeight);
        }
        return;
      }
      left, reached := ConnectPostponed(vpindexSecondary, pindexNew, pindexIntermediate);
      PostponedVerdict(env, mapBlockIndex, db.disk, db.reliable, pindexNew, pindexIntermediate, vpindexSecondary, left,
                       bnBestChainWork, nBestHeight);
    }

    /** SetBestChain for a block whose index record is already in the open transaction. When it accepts,
        memory names the block as the tip; the database does too unless postponed reconnects failed, and
        then it stands `left` blocks further back on the same branch. */
    method SetBestChain(h: Hash, b: Block, fDeferCommit: bool) returns (v: Verdict, left: nat, ghost reached: Hash)
      requires TreeOk() && h in mapBlockIndex && b == BlockOf(mapBlockIndex, db.disk, h)
      requires if pindexBest.None? then pindexGenesisBlock.None? && h == env.genesis && pnext == map[] && mapBlockIndex[h].prev.None? && TxnAt(h)
               else MemoryAt(pindexBest.value) && TxnAt(pindexBest.value) && mapBlockIndex[h].prev == Some(b.prev)
      modifies this`pnext, this`pindexGenesisBlock, this`pindexBest, this`hashBestChain, this`nBestHeight,
               this`bnBestChainWork, this`pblockindexFBBHLast, db`committed, db`txn, db`broken
      ensures v.Accepted? ==>
        && pindexBest == Some(h) && hashBestChain == h && pindexGenesisBlock == Some(env.genesis)
        && nBestHeight == mapBlockIndex[h].height && bnBestChainWork == mapBlockIndex[h].work && pblockindexFBBHLast.None?
        && reached in mapBlockIndex && reached in Branch(mapBlockIndex, h)
        && left == mapBlockIndex[h].height - mapBlockIndex[reached].height
        && pnext == Links(Branch(mapBlockIndex, reached))
        && PostponedAs(env, mapBlockIndex, db.disk, db.reliable, h, left, old(bnBestChainWork), old(nBestHeight))
      ensures v.Accepted? && !fDeferCommit ==> CommittedAt(reached) && db.txn.None? && !db.broken
      ensures v.Accepted? && fDeferCommit ==>
        left == 0 && TxnAt(h) && (db.broken || db.txn.value.best == h) && db.committed == old(db.committed)
      ensures !v.Accepted? ==>
        && db.committed == old(db.committed) && pnext == old(pnext)
        && pindexGenesisBlock == old(pindexGenesisBlock) && pindexBest == old(pindexBest) && hashBestChain == old(hashBestChain)
        && nBestHeight == old(nBestHeight) && bnBestChainWork == old(bnBestChainWork)
        && pblockindexFBBHLast == old(pblockindexFBBHLast)
      ensures v.Refused? ==> RejectedOn(env, mapBlockIndex, db.disk, h, bnBestChainWork, nBestHeight)
      ensures old(pindexBest).Some? && b.prev == old(hashBestChain) ==>
        && (v.Accepted? ==> db.broken || !Rejects(env, mapBlockIndex, db.disk, h, old(nBestHeight)))
        && (v.Refused? ==> Rejects(env, mapBlockIndex, db.disk, h, old(nBestHeight)))
      ensures db.reliable && !old(db.broken) && (fDeferCommit ==> b.prev == old(hashBestChain)) ==>
        !v.Faulted? && !db.broken
    {
      hide AtTip, Replay, DiskImage, Links, Fresh, Stored, TreeOk, RejectedOn, PostponedAs, Branch, Rejects, WellFormed;
      v, left, reached := MoveChain(h, b, fDeferCommit);
      if !v.Accepted? {
        return;
      }
      hashBestChain, pindexBest, pblockindexFBBHLast := h, Some(h), None;
      nBestHeight := mapBlockIndex[h].height;
      bnBestChainWork := mapBlockIndex[h].work;
    }

    /** SetBestChain with its own transaction, as a checkpoint calls it for a stored block off the main chain, however
        little work it has. */
    method SetBestChainOwn(h: Hash, b: Block) returns (v: Verdict, left: nat)
      requires Valid() && pindexBest.Some? && h in mapBlockIndex && b == BlockOf(mapBlockIndex, db.disk, h)
      requires mapBlockIndex[h].prev == Some(b.prev)
      modifies this, db`committed, db`txn, db`broken
      ensures mapBlockIndex == old(mapBlockIndex)
      ensures !v.Accepted? ==>
        && Valid() && Unchanged(old(mapBlockIndex), old(pnext), old(pindexGenesisBlock), old(pindexBest))
        && db.committed == old(db.committed) && left == 0
      ensures v.Accepted? ==> pindexBest == Some(h) && Lagging(left) && (Valid() <==> left == 0)
      ensures v.Accepted? ==>
        PostponedAs(env, mapBlockIndex, db.disk, db.reliable, h, left, old(bnBestChainWork), old(nBestHeight))
      ensures v.Refused? ==> RejectedOn(env, mapBlockIndex, db.disk, h, old(bnBestChainWork), old(nBestHeight))
      ensures db.reliable ==> !v.Faulted?
    {
      hide AtTip, Replay, Fresh, Links, DiskImage, RejectedOn, Rejects, Branch, BranchIds, PostponedAs;
      left := 0;
      var begun := db.TxnBegin();
      if !begun {
        return Faulted, 0;
      }
      ghost var reached;
      var behind;
      v, behind, reached := SetBestChain(h, b, false);
      if !v.Accepted? {
        db.TxnAbort();
      } else {
        left := behind;
        TipReached(h, left, reached);
      }
    }

    /** The part of a checkpoint's adoption that moves the chain: a block off the main chain becomes the tip. Without `read` the
        block could not be read back. */
    method BringToMainChain(h: Hash) returns (v: Verdict, left: nat, read: bool)
      requires Valid() && pindexBest.Some? && h in mapBlockIndex
      modifies this, db`committed, db`txn, db`broken
      ensures mapBlockIndex == old(mapBlockIndex)
      ensures v.Accepted? && h in Branch(mapBlockIndex, old(pindexBest.value)) ==>
        Valid() && pindexBest == old(pindexBest) && left == 0 && db.committed == old(db.committed)
      ensures v.Accepted? && h !in Branch(mapBlockIndex, old(pindexBest.value)) ==>
        && pindexBest == Some(h) && Lagging(left) && (Valid() <==> left == 0)
        && PostponedAs(env, mapBlockIndex, db.disk, db.reliable, h, left, old(bnBestChainWork), old(nBestHeight))
      ensures !v.Accepted? ==>
        && Valid() && Unchanged(old(mapBlockIndex), old(pnext), old(pindexGenesisBlock), old(pindexBest))
        && db.committed == old(db.committed) && left == 0
        && h !in Branch(mapBlockIndex, old(pindexBest.value))
      ensures v.Refused? ==> RejectedOn(env, mapBlockIndex, db.disk, h, old(bnBestChainWork), old(nBestHeight))
      ensures db.reliable ==> !v.Faulted?
      ensures !read ==> v.Faulted?
    {
      hide AtTip, Replay, Fresh, Links, DiskImage, RejectedOn, Rejects, BranchIds, PostponedAs;
      left, read := 0, true;
      var onMain := IsInMainChain(h);
      if onMain {
        return Accepted, 0, true;
      }
      OffMainHasParent(h);
      var fault, block := db.ReadBlockFromDisk(h, mapBlockIndex[h]);
      if block.None? {
        return Faulted, 0, false;
      }
      v, left := SetBestChainOwn(h, block.value);
    }

    /** Only the genesis block has no parent, and it is on the main chain. */
    lemma OffMainHasParent(h: Hash)
      requires Valid() && pindexBest.Some? && h in mapBlockIndex && h !in Branch(mapBlockIndex, pindexBest.value)
      ensures mapBlockIndex[h].prev == Some(BlockOf(mapBlockIndex, db.disk, h).prev)
    {
      hide AtTip, Replay, Fresh, Links, DiskImage;
      SameRoot(mapBlockIndex, pindexBest.value, h, env.genesis);
    }

    /** The four cases of SetBestChain: the genesis block, the next block, a side branch that cannot be
        deferred, a side branch. */
    method MoveChain(h: Hash, b: Block, fDeferCommit: bool) returns (v: Verdict, left: nat, ghost reached: Hash)
      requires TreeOk() && h in mapBlockIndex && b == BlockOf(mapBlockIndex, db.disk, h)
      requires if pindexBest.None? then pindexGenesisBlock.None? && h == env.genesis && pnext == map[] && mapBlockIndex[h].prev.None? && TxnAt(h)
               else MemoryAt(pindexBest.value) && TxnAt(pindexBest.value) && mapBlockIndex[h].prev == Some(b.prev)
      modifies this`pnext, this`pindexGenesisBlock, db`committed, db`txn, db`broken
      ensures v.Accepted? ==>
        && pindexGenesisBlock == Some(env.genesis)
        && reached in mapBlockIndex && reached in Branch(mapBlockIndex, h)
        && left == mapBlockIndex[h].height - mapBlockIndex[reached].height
        && pnext == Links(Branch(mapBlockIndex, reached))
        && PostponedAs(env, mapBlockIndex, db.disk, db.reliable, h, left, old(bnBestChainWork), old(nBestHeight))
      ensures v.Accepted? && !fDeferCommit ==> CommittedAt(reached) && db.txn.None? && !db.broken
      ensures v.Accepted? && fDeferCommit ==>
        left == 0 && TxnAt(h) && (db.broken || db.txn.value.best == h) && db.committed == old(db.committed)
      ensures !v.Accepted? ==>
        db.committed == old(db.committed) && pnext == old(pnext) && pindexGenesisBlock == old(pindexGenesisBlock)
      ensures v.Refused? ==> RejectedOn(env, mapBlockIndex, db.disk, h, bnBestChainWork, nBestHeight)
      ensures old(pindexBest).Some? && b.prev == old(hashBestChain) ==>
        && (v.Accepted? ==> db.broken || !Rejects(env, mapBlockIndex, db.disk, h, old(nBestHeight)))
        && (v.Refused? ==> Rejects(env, mapBlockIndex, db.disk, h, old(nBestHeight)))
      ensures db.reliable && !old(db.broken) && (fDeferCommit ==> b.prev == old(hashBestChain)) ==>
        !v.Faulted? && !db.broken
    {
      hide AtTip, Replay, DiskImage, Links, Fresh, Stored, Rejects, PostponedAs;
      NothingPostponed(env, mapBlockIndex, db.disk, db.reliable, h, bnBestChainWork, nBestHeight);
      left, reached := 0, h;
      assert Branch(mapBlockIndex, h)[mapBlockIndex[h].height] == h;
      if pindexGenesisBlock.None? && h == env.genesis {
        GenesisLinks(mapBlockIndex, h);
        v := CommitGenesis(h, fDeferCommit);
        if v.Accepted? {
          pindexGenesisBlock := Some(h);
        }
      } else if b.prev == hashBestChain {
        ImageStep(mapBlockIndex, h);
        v := SetBestChainInner(h, b, fDeferCommit);
      } else if fDeferCommit {
        db.TxnAbort();
        v := Faulted;
      } else {
        v, left, reached := SwitchBranch(h);
      }
    }

    /** The genesis branch of SetBestChain. */
    method CommitGenesis(h: Hash, fDeferCommit: bool) returns (v: Verdict)
      requires TxnAt(h) && h in mapBlockIndex
      modifies db`committed, db`txn, db`broken
      ensures v.Accepted? && !fDeferCommit ==> CommittedAt(h) && db.txn.None? && !db.broken
      ensures v.Accepted? && fDeferCommit ==>
        TxnAt(h) && (db.broken || db.txn.value.best == h) && db.committed == old(db.committed)
      ensures !v.Accepted? ==> v.Faulted? && db.committed == old(db.committed)
      ensures db.reliable && !old(db.broken) ==> v.Accepted? && !db.broken
    {
      hide AtTip, Replay, DiskImage, Links;
      ghost var before := db.txn.value;
      var wrote := db.WriteHashBestChain(h);
      if !wrote {
        return Faulted;
      }
      if !db.broken {
        AtTipIgnoresBest(before, db.txn.value, mapBlockIndex, db.disk, h);
      }
      v := Accepted;
      if !fDeferCommit {
        var committed := db.TxnCommit();
        v := if committed then Accepted else Faulted;
      }
    }

    // ---------------------------------------------------------------- accepting a block

    /** What AcceptBlock has established about a block before it is added: it is stored at the given place,
        its parent is known (or it is the genesis block and nothing is), and no transaction of it occurs
        earlier on its branch. */
    ghost predicate Addable(b: Block, nFile: nat, nBlockPos: nat)
      reads this, db
      requires TreeOk()
    {
      && (nFile, nBlockPos) in db.disk && db.disk[(nFile, nBlockPos)] == b && b.work > 0
      && if b.prev in mapBlockIndex then Ids(b.vtx) !! BranchIds(mapBlockIndex, db.disk, b.prev)
         else mapBlockIndex == map[] && b.hash == env.genesis
    }

    function NewEntry(b: Block, nFile: nat, nBlockPos: nat): BlockIndex
      reads this
    {
      if b.prev in mapBlockIndex
      then BlockIndex(Some(b.prev), mapBlockIndex[b.prev].height + 1, mapBlockIndex[b.prev].work + b.work, nFile, nBlockPos)
      else BlockIndex(None, 0, b.work, nFile, nBlockPos)
    }

    /** RollbackBlockIndexEntry: remove a candidate entry, unless it is part of the main chain. */
    method RollbackBlockIndexEntry(h: Hash)
      requires h in mapBlockIndex
      modifies this`mapBlockIndex, this`pnext, this`pblockindexFBBHLast
      ensures Some(h) == pindexBest || Some(h) == pindexGenesisBlock || h in old(pnext) ==>
        mapBlockIndex == old(mapBlockIndex) && pnext == old(pnext) && pblockindexFBBHLast == old(pblockindexFBBHLast)
      ensures !(Some(h) == pindexBest || Some(h) == pindexGenesisBlock || h in old(pnext)) ==>
        && mapBlockIndex == old(mapBlockIndex) - {h}
        && pnext == Unlinked(old(pnext), old(mapBlockIndex)[h].prev, h)
        && pblockindexFBBHLast == if old(pblockindexFBBHLast) == Some(h) then None else old(pblockindexFBBHLast)
    {
      if pindexBest == Some(h) || pindexGenesisBlock == Some(h) || h in pnext {
        return;
      }
      var prev := mapBlockIndex[h].prev;
      if prev.Some? && prev.value in pnext && pnext[prev.value] == h {
        pnext := pnext - {prev.value};
      }
      if pblockindexFBBHLast == Some(h) {
        pblockindexFBBHLast := None;
      }
      mapBlockIndex := mapBlockIndex - {h};
    }

    /** Begin the transaction that adds the record of a new entry. */
    method BeginWithEntry(h: Hash, e: BlockIndex) returns (ok: bool)
      requires db.txn.None? && !db.broken
      modifies db`txn, db`broken
      ensures ok ==>
        && db.txn.Some? && !db.broken
        && db.Now(db.committed.tx, db.committed.blockIndex[h := DiskBlockIndex(e, None)], db.committed.best)
      ensures db.reliable ==> ok
    {
      ok := db.TxnBegin();
      if ok {
        ok := db.WriteBlockIndex(h, DiskBlockIndex(e, None));
      }
    }

    /** AddToBlockIndex outside an import batch. If it does not accept, nothing has changed, in memory or on disk.
        If it accepts, the entry is in the tree, and the block is the tip if it has more work than the tip had. The
        chain is at rest again if and only if no postponed reconnect was left over. One can be left over only if the
        block's parent was already heavier than the tip; unless storage fails, one is exactly if the rules refuse one
        of the postponed blocks. While the tip is the heaviest block, none is ever postponed. */
    method AddToBlockIndex(b: Block, nFile: nat, nBlockPos: nat) returns (v: Verdict, left: nat)
      requires Valid() && TreeOk() && Addable(b, nFile, nBlockPos)
      modifies this, db`committed, db`txn, db`broken
      ensures !v.Accepted? ==>
        && Valid() && Unchanged(old(mapBlockIndex), old(pnext), old(pindexGenesisBlock), old(pindexBest))
        && db.committed == old(db.committed) && left == 0
      ensures v.Accepted? ==>
        && old(b.hash !in mapBlockIndex)
        && mapBlockIndex == old(mapBlockIndex)[b.hash := old(NewEntry(b, nFile, nBlockPos))]
        && pindexBest == (if old(NewEntry(b, nFile, nBlockPos)).work > old(bnBestChainWork) then Some(b.hash) else old(pindexBest))
        && (Valid() <==> left == 0) && (left > 0 ==> Lagging(left))
      ensures v.Accepted? ==> LeftOver(b.hash, left, old(bnBestChainWork), old(nBestHeight))
      ensures old(Heaviest()) ==> left == 0 && Heaviest()
      ensures v.Refused? ==>
        RejectedOn(env, old(mapBlockIndex)[b.hash := old(NewEntry(b, nFile, nBlockPos))], db.disk, b.hash, old(bnBestChainWork), old(nBestHeight))
      ensures v.Accepted? && old(pindexBest).Some? && b.prev == old(hashBestChain) ==>
        !Rejects(env, mapBlockIndex, db.disk, b.hash, old(nBestHeight))
      ensures v.Refused? && old(pindexBest).Some? && b.prev == old(hashBestChain) ==>
        RefusedAt(env, old(mapBlockIndex)[b.hash := old(NewEntry(b, nFile, nBlockPos))], db.disk, b.hash, old(nBestHeight))
      ensures db.reliable && v.Faulted? ==> old(b.hash in mapBlockIndex)
    {
      hide AtTip, Replay, Fresh, Links, DiskImage, RejectedOn, Stored, Branch, Rejects, BranchIds, PostponedRefused, Lagging, LeftOver;
      var h := b.hash;
      if h in mapBlockIndex {
        return Faulted, 0;
      }
      var e := NewEntry(b, nFile, nBlockPos);
      v, left := InsertAndConnect(h, e, b);
      if !v.Accepted? {
        if pindexBest.Some? {
          CandidateIsLoose(old(mapBlockIndex), h, pindexBest.value, pblockindexFBBHLast, env.genesis);
        }
        RollbackBlockIndexEntry(h);
        RemoveAdded(old(mapBlockIndex), h, e);
      }
    }

    /** How many postponed reconnects a new block `h` can leave over, given work and height of the tip before it. */
    ghost predicate LeftOver(h: Hash, left: nat, bestWork: nat, bestHeight: int)
      reads this`mapBlockIndex, db`disk, db`reliable
    {
      && WellFormed(mapBlockIndex) && h in mapBlockIndex
      && (mapBlockIndex[h].work > bestWork || left == 0)
      && (mapBlockIndex[h].work > bestWork ==>
            PostponedAs(env, mapBlockIndex, db.disk, db.reliable, h, left, bestWork, bestHeight))
    }

    ghost predicate Unchanged(t: Tree, links: map<Hash, Hash>, genesis: Option<Hash>, best: Option<Hash>)
      reads this
    {
      mapBlockIndex == t && pnext == links && pindexGenesisBlock == genesis && pindexBest == best
    }

    /** The part of AddToBlockIndex guarded by the rollback: on failure only the candidate entry is left
        behind. */
    method InsertAndConnect(h: Hash, e: BlockIndex, b: Block) returns (v: Verdict, left: nat)
      requires Valid() && TreeOk() && Addable(b, e.file, e.blockPos)
      requires h == b.hash && h !in mapBlockIndex && e == NewEntry(b, e.file, e.blockPos)
      modifies this, db`committed, db`txn, db`broken
      ensures mapBlockIndex == old(mapBlockIndex)[h := e]
      ensures !v.Accepted? ==>
        && db.txn.None? && !db.broken && db.committed == old(db.committed)
        && pnext == old(pnext) && pindexGenesisBlock == old(pindexGenesisBlock) && pindexBest == old(pindexBest)
        && hashBestChain == old(hashBestChain) && nBestHeight == old(nBestHeight)
        && bnBestChainWork == old(bnBestChainWork) && pblockindexFBBHLast == old(pblockindexFBBHLast)
      ensures v.Accepted? ==>
        && pindexBest == (if e.work > old(bnBestChainWork) then Some(h) else old(pindexBest))
        && (Valid() <==> left == 0) && (left > 0 ==> Lagging(left)) && LeftOver(h, left, old(bnBestChainWork), old(nBestHeight))
      ensures !v.Accepted? ==> left == 0
      ensures old(Heaviest()) ==> left == 0 && (v.Accepted? ==> Heaviest())
      ensures v.Refused? ==> RejectedOn(env, mapBlockIndex, db.disk, h, old(bnBestChainWork), old(nBestHeight))
      ensures old(pindexBest).Some? && b.prev == old(hashBestChain) ==>
        && (v.Accepted? ==> !Rejects(env, mapBlockIndex, db.disk, h, old(nBestHeight)))
        && (v.Refused? ==> RefusedAt(env, mapBlockIndex, db.disk, h, old(nBestHeight)))
      ensures db.reliable ==> !v.Faulted?
    {
      hide AtTip, Replay, Fresh, Links, DiskImage, RejectedOn, Rejects, Branch, BranchIds, PostponedAs, Lagging, Stored, PostponedRefused;
      ghost var t := mapBlockIndex;
      TreeGrows(t, db.disk, h, e);
      mapBlockIndex := mapBlockIndex[h := e];
      var ok := BeginWithEntry(h, e);
      if !ok {
        db.TxnAbort();
        return Faulted, 0;
      }
      EntryInTxn(t, h, e);
      v, left := ConnectInserted(h, e, b);
      if v.Accepted? && e.work > old(bnBestChainWork) {
        LeftOverIff(env, mapBlockIndex, db.disk, db.reliable, h, left, old(bnBestChainWork), old(nBestHeight));
        if old(Heaviest()) {
          NoHeavierParent(t, h, e, old(bnBestChainWork));
        }
      }
    }

    /** The new record is in the open transaction: make the block the tip if it is heavier, or commit as it is. */
    method ConnectInserted(h: Hash, e: BlockIndex, b: Block) returns (v: Verdict, left: nat)
      requires TreeOk() && h in mapBlockIndex && mapBlockIndex[h] == e && b == BlockOf(mapBlockIndex, db.disk, h)
      requires if pindexBest.None? then pindexGenesisBlock.None? && h == env.genesis && pnext == map[] && e.prev.None? && TxnAt(h)
                                        && e.work > bnBestChainWork
               else MemoryAt(pindexBest.value) && TxnAt(pindexBest.value) && e.prev == Some(b.prev)
                    && (db.broken || db.txn.value.best == pindexBest.value)
      modifies this, db`committed, db`txn, db`broken
      ensures mapBlockIndex == old(mapBlockIndex)
      ensures !v.Accepted? ==>
        && db.txn.None? && !db.broken && db.committed == old(db.committed)
        && pnext == old(pnext) && pindexGenesisBlock == old(pindexGenesisBlock) && pindexBest == old(pindexBest)
        && hashBestChain == old(hashBestChain) && nBestHeight == old(nBestHeight)
        && bnBestChainWork == old(bnBestChainWork) && pblockindexFBBHLast == old(pblockindexFBBHLast)
      ensures v.Accepted? ==>
        && pindexBest == (if e.work > old(bnBestChainWork) then Some(h) else old(pindexBest))
        && bnBestChainWork == (if e.work > old(bnBestChainWork) then e.work else old(bnBestChainWork))
        && (Valid() <==> left == 0) && (left > 0 ==> Lagging(left)) && LeftOver(h, left, old(bnBestChainWork), old(nBestHeight))
      ensures !v.Accepted? ==> left == 0
      ensures v.Refused? ==> RejectedOn(env, mapBlockIndex, db.disk, h, old(bnBestChainWork), old(nBestHeight))
      ensures old(pindexBest).Some? && b.prev == old(hashBestChain) && e.work > old(bnBestChainWork) ==>
        && (v.Accepted? ==> !Rejects(env, mapBlockIndex, db.disk, h, old(nBestHeight)))
        && (v.Refused? ==> Rejects(env, mapBlockIndex, db.disk, h, old(nBestHeight)))
      ensures db.reliable && !old(db.broken) ==> !v.Faulted?
    {
      hide AtTip, Replay, Fresh, Links, DiskImage, RejectedOn, Rejects, Branch, BranchIds, PostponedAs, Lagging, Stored, WellFormed;
      left := 0;
      if e.work > bnBestChainWork {
        var behind;
        ghost var reached;
        v, behind, reached := SetBestChain(h, b, false);
        if v.Accepted? {
          left := behind;
          TipReached(h, left, reached);
        }
      } else {
        var committed := db.TxnCommit();
        v := if committed then Accepted else Faulted;
      }
      if !v.Accepted? {
        db.TxnAbort();
      }
    }

    /** After a new best block: the invariant holds exactly when the database has caught up with it. */
    lemma TipReached(h: Hash, left: nat, reached: Hash)
      requires TreeOk() && h in mapBlockIndex && db.txn.None? && !db.broken
      requires pindexBest == Some(h) && hashBestChain == h && pindexGenesisBlock == Some(env.genesis)
      requires nBestHeight == mapBlockIndex[h].height && bnBestChainWork == mapBlockIndex[h].work && pblockindexFBBHLast.None?
      requires reached in mapBlockIndex && reached in Branch(mapBlockIndex, h) && CommittedAt(reached)
      requires left == mapBlockIndex[h].height - mapBlockIndex[reached].height
      requires pnext == Links(Branch(mapBlockIndex, reached))
      ensures Lagging(left) && (Valid() <==> left == 0)
    {
      BackAt(mapBlockIndex, h, reached);
      BackAt(mapBlockIndex, h, h);
      hide AtTip, Replay, Fresh, Stored, Links, DiskImage, Branch, WellFormed, Back;
    }

    /** With the new record written, the open transaction stands at the old tip of the larger tree. */
    lemma EntryInTxn(t: Tree, h: Hash, e: BlockIndex)
      requires WellFormed(t) && Stored(t, db.disk) && h !in t && mapBlockIndex == t[h := e] && TreeOk()
      requires db.txn.Some? && db.Now(db.committed.tx, db.committed.blockIndex[h := DiskBlockIndex(e, None)], db.committed.best)
      requires pindexBest.Some? ==> AtTip(db.committed, t, db.disk, pindexBest.value)
      requires pindexBest.None? ==> t == map[] && e.prev.None? && db.committed.tx == map[] && db.committed.blockIndex == map[]
      ensures TxnAt(if pindexBest.Some? then pindexBest.value else h)
      ensures pindexBest.Some? ==> Branch(mapBlockIndex, pindexBest.value) == Branch(t, pindexBest.value)
    {
      if pindexBest.Some? {
        AddLeaf(db.committed, t, db.disk, pindexBest.value, h, e);
        BranchStable(t, pindexBest.value, h, e);
        AtTipIgnoresBest(db.committed.(blockIndex := db.committed.blockIndex[h := DiskBlockIndex(e, None)]),
                         db.txn.value, mapBlockIndex, db.disk, pindexBest.value);
      } else {
        GenesisAtTip(db.txn.value, mapBlockIndex, db.disk, h, e);
      }
    }

    /** WriteToDisk: append a block to the block files. */
    method WriteToDisk(b: Block, nFile: nat, nBlockPos: nat)
      requires Valid() && TreeOk() && (nFile, nBlockPos) !in db.disk
      modifies db`disk
      ensures Valid() && TreeOk() && db.disk == old(db.disk)[(nFile, nBlockPos) := b]
      ensures forall h :: h in mapBlockIndex ==>
                BranchIds(mapBlockIndex, db.disk, h) == BranchIds(mapBlockIndex, old(db.disk), h)
    {
      hide Links, DiskImage, Replay, BranchIds, Fresh, AtTip;
      ghost var disk := db.disk;
      db.disk := db.disk[(nFile, nBlockPos) := b];
      DiskGrows(mapBlockIndex, disk, db.disk);
    }

    /** AcceptBlock from its duplicate and parent checks to AddToBlockIndex. */
    method AcceptBlock(b: Block, nFile: nat, nBlockPos: nat) returns (v: Verdict, left: nat)
      requires Valid() && pindexBest.Some? && b.work > 0 && (nFile, nBlockPos) !in db.disk
      requires b.prev in mapBlockIndex ==> Ids(b.vtx) !! BranchIds(mapBlockIndex, db.disk, b.prev)
      modifies this, db`disk, db`committed, db`txn, db`broken
      ensures !v.Accepted? ==>
        && Valid() && Unchanged(old(mapBlockIndex), old(pnext), old(pindexGenesisBlock), old(pindexBest))
        && db.committed == old(db.committed) && left == 0
      ensures v.Accepted? ==>
        && old(b.hash !in mapBlockIndex && b.prev in mapBlockIndex)
        && mapBlockIndex == old(mapBlockIndex)[b.hash := old(NewEntry(b, nFile, nBlockPos))]
        && pindexBest == (if old(NewEntry(b, nFile, nBlockPos)).work > old(bnBestChainWork) then Some(b.hash) else old(pindexBest))
        && (Valid() <==> left == 0) && (left > 0 ==> Lagging(left))
        && LeftOver(b.hash, left, old(bnBestChainWork), old(nBestHeight))
      ensures old(Heaviest()) ==> left == 0 && Heaviest()
      ensures v.Refused? ==>
        || old(b.hash in mapBlockIndex || b.prev !in mapBlockIndex)
        || RejectedOn(env, old(mapBlockIndex)[b.hash := old(NewEntry(b, nFile, nBlockPos))], db.disk, b.hash, old(bnBestChainWork), old(nBestHeight))
      ensures v.Accepted? && b.prev == old(hashBestChain) ==> !Rejects(env, mapBlockIndex, db.disk, b.hash, old(nBestHeight))
      ensures v.Refused? && b.prev == old(hashBestChain) && old(b.hash !in mapBlockIndex) ==>
        db.disk == old(db.disk)[(nFile, nBlockPos) := b]
        && RefusedAt(env, old(mapBlockIndex)[b.hash := old(NewEntry(b, nFile, nBlockPos))], db.disk, b.hash, old(nBestHeight))
      ensures db.reliable ==> !v.Faulted?
      ensures db.disk == old(db.disk) || db.disk == old(db.disk)[(nFile, nBlockPos) := b]
      ensures v.Accepted? ==> db.disk == old(db.disk)[(nFile, nBlockPos) := b]
    {
      hide AtTip, Replay, Fresh, Links, DiskImage, RejectedOn, PostponedRefused, Lagging, LeftOver;
      if b.hash in mapBlockIndex || b.prev !in mapBlockIndex {
        return Refused, 0;
      }
      WriteToDisk(b, nFile, nBlockPos);
      v, left := AddToBlockIndex(b, nFile, nBlockPos);
    }

    // ---------------------------------------------------------------- starting again

    /** LoadBlockIndex on a database that committed the records of `tip` over tree `t`, whatever memory held before. The
        blocks read back from disk pass their checks, so the chain is not moved. */
    method LoadBlockIndex(ghost t: Tree, ghost tip: Hash, nCheckDepth: nat) returns (ok: bool)
      requires Loadable(t, tip)
      modifies this, db`txn, db`broken
      ensures Valid() && mapBlockIndex == t && pindexBest == Some(tip)
      ensures db.reliable ==> ok
    {
      hide Replay, Fresh, Stored, Links, Branch, DiskImage;
      db.TxnAbort();
      SameRoot(t, tip, tip, env.genesis);
      ImageLoads(t, tip);
      mapBlockIndex := map h | h in db.committed.blockIndex :: db.committed.blockIndex[h].entry;
      pnext := map h | h in db.committed.blockIndex && db.committed.blockIndex[h].hashNext.Some? ::
                 db.committed.blockIndex[h].hashNext.value;
      hashBestChain := db.committed.best;
      pindexBest, pindexGenesisBlock, pblockindexFBBHLast := Some(hashBestChain), Some(env.genesis), None;
      nBestHeight := mapBlockIndex[hashBestChain].height;
      bnBestChainWork := mapBlockIndex[hashBestChain].work;
      var nChecked;
      ok, nChecked := VerifyBest(nCheckDepth);
    }

    /** The block tree and tip that the committed records describe. */
    ghost predicate Loadable(t: Tree, tip: Hash)
      reads this, db
    {
      && AtTip(db.committed, t, db.disk, tip) && db.committed.best == tip && Fresh(t, db.disk)
      && (forall h {:trigger t[h].prev} :: h in t && t[h].prev.None? ==> h == env.genesis)
    }

    lemma ImageLoads(t: Tree, tip: Hash)
      requires AtTip(db.committed, t, db.disk, tip)
      ensures (map h | h in db.committed.blockIndex :: db.committed.blockIndex[h].entry) == t
      ensures (map h | h in db.committed.blockIndex && db.committed.blockIndex[h].hashNext.Some? ::
                 db.committed.blockIndex[h].hashNext.value) == Links(Branch(t, tip))
    {
      hide Replay, Stored;
      BranchDistinct(t, tip);
      LinksMeaning(Branch(t, tip));
      forall h | h in Links(Branch(t, tip)) ensures h in t {
        var k :| 0 <= k < |Branch(t, tip)| - 1 && Branch(t, tip)[k] == h;
        BranchPrefix(t, tip, k);
      }
    }

    /** The verification of the last blocks, at the default level: one more than the depth, where 0 stands for 1,000,000,000,
        or all but genesis. It fails only if a block cannot be read. */
    method VerifyBest(nCheckDepth: nat) returns (ok: bool, nChecked: nat)
      requires Valid() && pindexBest.Some?
      ensures var depth := if nCheckDepth == 0 then 1_000_000_000 else nCheckDepth;
              ok <==> nChecked == if depth < nBestHeight then depth + 1 else nBestHeight
      ensures db.reliable ==> ok
    {
      hide AtTip, Fresh, Links, DiskImage, CheckBlock;
      var nDepth := if nCheckDepth == 0 then 1_000_000_000 else nCheckDepth;
      if nDepth > nBestHeight {
        nDepth := nBestHeight;
      }
      var pindex := pindexBest.value;
      nChecked := 0;
      BranchMember(mapBlockIndex, pindex, pindex);
      assert Replay(mapBlockIndex, db.disk, pindex).Some? by { UnfoldTip(); }
      while mapBlockIndex[pindex].prev.Some? && mapBlockIndex[pindex].height >= nBestHeight - nDepth
        invariant pindex in mapBlockIndex && Replay(mapBlockIndex, db.disk, pindex).Some?
        invariant mapBlockIndex[pindex].height == nBestHeight - nChecked && nChecked <= nDepth + 1
        decreases mapBlockIndex[pindex].height
      {
        var fault, read := db.ReadBlockFromDisk(pindex, mapBlockIndex[pindex]);
        if read.None? {
          return false, nChecked;
        }
        var good := CheckBlock(read.value);
        ReplayChecked(mapBlockIndex, db.disk, pindex);
        assert good;
        nChecked := nChecked + 1;
        pindex := mapBlockIndex[pindex].prev.value;
      }
      ok := true;
    }

    lemma UnfoldTip()
      requires Valid() && pindexBest.Some?
      ensures Replay(mapBlockIndex, db.disk, pindexBest.value).Some?
    {
    }

    // ---------------------------------------------------------------- reading the chain

    /** IsInMainChain: a block has a successor or is the tip, and that is so exactly on the tip's branch. */
    method IsInMainChain(h: Hash) returns (r: bool)
      requires Valid() && pindexBest.Some? && h in mapBlockIndex
      ensures r <==> h in Branch(mapBlockIndex, pindexBest.value)
    {
      ghost var br := Branch(mapBlockIndex, pindexBest.value);
      BranchDistinct(mapBlockIndex, pindexBest.value);
      LinksMeaning(br);
      r := h in pnext || pindexBest == Some(h);
      assert br[|br| - 1] == pindexBest.value;
      if h in br && h !in pnext {
        var k :| 0 <= k < |br| && br[k] == h;
      }
    }

    /** FindBlockByHeight: whatever the cached start, the walk ends at the tip's ancestor at that height. */
    method FindBlockByHeight(nHeight: nat) returns (r: Hash)
      requires Valid() && pindexBest.Some? && nHeight <= nBestHeight
      modifies this`pblockindexFBBHLast
      ensures r == Branch(mapBlockIndex, pindexBest.value)[nHeight]
      ensures Valid() && pblockindexFBBHLast == Some(r)
    {
      hide AtTip, Replay, Fresh, DiskImage, Links, Stored;
      ghost var tip := pindexBest.value;
      ghost var br := Branch(mapBlockIndex, tip);
      assert br[|br| - 1] == tip;
      GenesisFirst();
      r := if nHeight < nBestHeight / 2 then pindexGenesisBlock.value else pindexBest.value;
      if pblockindexFBBHLast.Some?
         && Abs(nHeight - mapBlockIndex[r].height) > Abs(nHeight - HeightOf(pblockindexFBBHLast.value)) {
        r := pblockindexFBBHLast.value;
      }
      assert r in br;
      r := WalkTo(mapBlockIndex, pnext, tip, r, nHeight);
      pblockindexFBBHLast := Some(r);
      assert r in br;
    }

    function HeightOf(h: Hash): int
      reads this
      requires h in mapBlockIndex
    {
      mapBlockIndex[h].height
    }

    lemma GenesisFirst()
      requires Valid() && pindexBest.Some?
      ensures env.genesis in mapBlockIndex && env.genesis in Branch(mapBlockIndex, pindexBest.value)
      ensures pblockindexFBBHLast.Some? ==> pblockindexFBBHLast.value in mapBlockIndex
    {
      SameRoot(mapBlockIndex, pindexBest.value, pindexBest.value, env.genesis);
      BranchMember(mapBlockIndex, pindexBest.value, env.genesis);
      if pblockindexFBBHLast.Some? {
        BranchMember(mapBlockIndex, pindexBest.value, pblockindexFBBHLast.value);
      }
    }
  }

  /** The two loops of FindBlockByHeight: back along pprev, then forward along pnext. */
  method WalkTo(t: Tree, pnext: map<Hash, Hash>, ghost tip: Hash, start: Hash, nHeight: nat) returns (r: Hash)
    requires WellFormed(t) && tip in t && start in Branch(t, tip) && nHeight <= t[tip].height
    requires pnext == Links(Branch(t, tip))
    ensures r == Branch(t, tip)[nHeight]
  {
    r := start;
    BranchMember(t, tip, r);
    while t[r].height > nHeight
      invariant OnChain(t, tip, r)
      decreases if r in t then t[r].height else 0
    {
      StepBack(t, tip, r);
      r := t[r].prev.value;
    }
    while t[r].height < nHeight
      invariant OnChain(t, tip, r) && t[r].height <= nHeight
      decreases nHeight - if r in t then t[r].height else 0
    {
      StepForward(t, tip, r);
      r := pnext[r];
    }
  }

  ghost predicate OnChain(t: Tree, tip: Hash, r: Hash)
    requires WellFormed(t) && tip in t
  {
    r in t && t[r].height <= t[tip].height && Branch(t, tip)[t[r].height] == r
  }

  lemma StepBack(t: Tree, tip: Hash, r: Hash)
    requires WellFormed(t) && tip in t && OnChain(t, tip, r) && t[r].height > 0
    ensures t[r].prev.Some? && OnChain(t, tip, t[r].prev.value) && t[t[r].prev.value].height == t[r].height - 1
  {
    BranchPrefix(t, tip, t[r].height);
  }

  lemma StepForward(t: Tree, tip: Hash, r: Hash)
    requires WellFormed(t) && tip in t && OnChain(t, tip, r) && t[r].height < t[tip].height
    ensures var links := Links(Branch(t, tip));
      r in links && OnChain(t, tip, links[r]) && t[links[r]].height == t[r].height + 1
  {
    BranchDistinct(t, tip);
    LinksMeaning(Branch(t, tip));
    BranchPrefix(t, tip, t[r].height + 1);
  }

  function Abs(x: int): int { if x < 0 then -x else x }

  /** The links after a candidate entry `h` has been taken back. */
  function Unlinked(pnext: map<Hash, Hash>, prev: Option<Hash>, h: Hash): map<Hash, Hash> {
    if prev.Some? && prev.value in pnext && pnext[prev.value] == h then pnext - {prev.value} else pnext
  }

  /** No forward link mentions an entry outside the tree. */
  lemma LinksInside(t: Tree, tip: Hash, h: Hash)
    requires WellFormed(t) && tip in t && h !in t
    ensures h !in Links(Branch(t, tip)) && forall x :: x in Links(Branch(t, tip)) ==> Links(Branch(t, tip))[x] != h
  {
    BranchDistinct(t, tip);
    LinksMeaning(Branch(t, tip));
    var br := Branch(t, tip);
    forall k | 0 <= k < |br| ensures br[k] != h {
      BranchPrefix(t, tip, k);
    }
    forall x | x in Links(br) ensures Links(br)[x] != h {
      var k :| 0 <= k < |br| - 1 && br[k] == x;
      assert Links(br)[br[k]] == br[k + 1];
    }
  }

  /** A candidate entry is no part of the main chain: the rollback removes just its entry. */
  lemma CandidateIsLoose(t: Tree, h: Hash, tip: Hash, last: Option<Hash>, genesis: Hash)
    requires WellFormed(t) && tip in t && h !in t && (last.Some? ==> last.value in Branch(t, tip))
    requires forall x {:trigger t[x].prev} :: x in t && t[x].prev.None? ==> x == genesis
    ensures h !in Links(Branch(t, tip)) && forall x :: x in Links(Branch(t, tip)) ==> Links(Branch(t, tip))[x] != h
    ensures genesis != h
    ensures last != Some(h)
  {
    LinksInside(t, tip, h);
    RootFirst(t, tip);
    var root := Branch(t, tip)[0];
    assert t[root].prev == None && root == genesis;
    if last.Some? {
      BranchMember(t, tip, last.value);
    }
  }

  lemma RemoveAdded(t: Tree, h: Hash, e: BlockIndex)
    requires h !in t
    ensures t[h := e] - {h} == t
  {
  }

  /** The genesis record alone is the database at the genesis block. */
  lemma GenesisAtTip(d: ChainDb, t: Tree, disk: Disk, h: Hash, e: BlockIndex)
    requires t == map[h := e] && WellFormed(t) && Stored(t, disk) && e.prev.None?
    requires d.tx == map[] && d.blockIndex == map[h := DiskBlockIndex(e, None)]
    ensures AtTip(d, t, disk, h)
  {
    GenesisLinks(t, h);
  }

  /** A block whose parent is known and whose identifiers are new on its branch keeps the tree in order. */
  lemma TreeGrows(t: Tree, disk: Disk, h: Hash, e: BlockIndex)
    requires WellFormed(t) && Stored(t, disk) && Fresh(t, disk) && h !in t
    requires match e.prev
             case None => e.height == 0
             case Some(p) => p in t && e.height == t[p].height + 1 && t[p].work <= e.work
    requires (e.file, e.blockPos) in disk && disk[(e.file, e.blockPos)].hash == h
    requires e.prev.Some? ==> e.prev.value == disk[(e.file, e.blockPos)].prev && Ids(disk[(e.file, e.blockPos)].vtx) !! BranchIds(t, disk, e.prev.value)
    ensures WellFormed(t[h := e]) && Stored(t[h := e], disk) && Fresh(t[h := e], disk)
  {
    var t' := t[h := e];
    assert WellFormed(t') && Stored(t', disk);
    forall x | x in t' && t'[x].prev.Some?
      ensures Ids(BlockOf(t', disk, x).vtx) !! BranchIds(t', disk, t'[x].prev.value)
    {
      ReplayStable(t, disk, t'[x].prev.value, h, e);
    }
  }

  lemma GenesisLinks(t: Tree, h: Hash)
    requires WellFormed(t) && h in t && t[h].prev.None?
    ensures Links(Branch(t, h)) == map[]
  {
  }

  /** The parent of `x` already has more work than the tip. */
  predicate ParentHeavier(t: Tree, x: Hash, bestWork: nat)
    requires WellFormed(t)
  {
    x in t && t[x].prev.Some? && t[t[x].prev.value].work > bestWork
  }

  /** The loop of SetBestChain that postpones all but the first block heavier than the tip. */
  method Postpone(t: Tree, bestWork: nat, pindexNew: Hash) returns (pindexIntermediate: Hash, vpindexSecondary: seq<Hash>)
    requires WellFormed(t) && pindexNew in t
    ensures PathDown(t, pindexNew, pindexIntermediate, vpindexSecondary)
    ensures t[pindexIntermediate].prev.Some? ==> t[t[pindexIntermediate].prev.value].work <= bestWork
    ensures vpindexSecondary != [] <==> ParentHeavier(t, pindexNew, bestWork)
    ensures forall x :: x in vpindexSecondary ==> ParentHeavier(t, x, bestWork)
  {
    pindexIntermediate, vpindexSecondary := pindexNew, [];
    assert Branch(t, pindexNew)[t[pindexNew].height] == pindexNew;
    while t[pindexIntermediate].prev.Some? && t[t[pindexIntermediate].prev.value].work > bestWork
      invariant PathDown(t, pindexNew, pindexIntermediate, vpindexSecondary)
      invariant forall x :: x in vpindexSecondary ==> ParentHeavier(t, x, bestWork)
      invariant if vpindexSecondary == [] then pindexIntermediate == pindexNew else ParentHeavier(t, pindexNew, bestWork)
      decreases t[pindexIntermediate].height
    {
      StepDown(t, pindexNew, pindexIntermediate, vpindexSecondary);
      vpindexSecondary := vpindexSecondary + [pindexIntermediate];
      pindexIntermediate := t[pindexIntermediate].prev.value;
    }
  }

  lemma StepDown(t: Tree, from: Hash, at: Hash, s: seq<Hash>)
    requires PathDown(t, from, at, s) && t[at].prev.Some?
    ensures PathDown(t, from, t[at].prev.value, s + [at])
  {
    BranchMember(t, from, at);
    BranchPrefix(t, from, t[at].height);
    assert Branch(t, from)[t[at].height - 1] == t[at].prev.value;
  }

  /** Some block of the branch to `tip` above `fork` is refused on top of its parent. */
  ghost predicate RejectedAbove(env: Env, t: Tree, disk: Disk, tip: Hash, fork: Hash, bestHeight: int) {
    && WellFormed(t) && Stored(t, disk) && tip in t && fork in t
    && exists x :: x in Branch(t, tip) && x !in Branch(t, fork) && x in t && Rejects(env, t, disk, x, bestHeight)
  }

  /** The block `left` steps below the tip on the tip's branch. */
  predicate OnWay(t: Tree, tip: Hash, x: Hash, left: nat)
    requires WellFormed(t)
  {
    tip in t && x in t && x in Branch(t, tip) && t[x].height + left == t[tip].height
  }

  /** The block of a postponed branch below which `left` blocks of it are still missing. */
  function PlaceOf(start: Hash, s: seq<Hash>, left: nat): Hash
    requires left <= |s|
  {
    if left == |s| then start else s[left]
  }

  lemma PathDownAt(t: Tree, tip: Hash, start: Hash, s: seq<Hash>, left: nat)
    requires PathDown(t, tip, start, s) && left <= |s|
    ensures OnWay(t, tip, PlaceOf(start, s, left), left)
  {
    BranchMember(t, tip, start);
    BranchPrefix(t, tip, t[tip].height - left);
  }

  lemma PathDownStep(t: Tree, tip: Hash, start: Hash, s: seq<Hash>, left: nat)
    requires PathDown(t, tip, start, s) && 0 < left <= |s|
    ensures s[left - 1] in t && t[s[left - 1]].prev == Some(PlaceOf(start, s, left))
  {
    BranchMember(t, tip, start);
    BranchPrefix(t, tip, t[tip].height - (left - 1));
  }

  /** Among the blocks of the branch whose parent is heavier than the old tip, which are the ones to be postponed, there
      is one that the rules refuse. */
  ghost predicate PostponedRefused(env: Env, t: Tree, disk: Disk, tip: Hash, bestWork: nat, bestHeight: int) {
    && WellFormed(t) && Stored(t, disk) && tip in t
    && exists x :: x in Branch(t, tip) && ParentHeavier(t, x, bestWork) && RefusedAt(env, t, disk, x, bestHeight)
  }

  /** The block `k` back from `h` is one of those postponed. */
  predicate LaterBlock(t: Tree, h: Hash, k: nat, bestWork: nat)
    requires WellFormed(t) && h in t
  {
    k <= t[h].height && ParentHeavier(t, Back(t, h, k), bestWork)
  }

  /** The rules refuse the block `k` back from `h`. */
  predicate RefusedBack(env: Env, t: Tree, disk: Disk, h: Hash, k: nat, bestHeight: int)
    requires WellFormed(t) && h in t
  {
    k <= t[h].height && RefusedAt(env, t, disk, Back(t, h, k), bestHeight)
  }

  /** By a switch to `h`, `left` reconnects are left over: only such as were postponed; every postponed block before them
      was allowed; and on a reliable store the first of them is refused. */
  ghost predicate PostponedAs(env: Env, t: Tree, disk: Disk, reliable: bool, h: Hash, left: nat, bestWork: nat, bestHeight: int) {
    && WellFormed(t) && Stored(t, disk) && h in t && left <= t[h].height
    && (left > 0 ==> LaterBlock(t, h, left - 1, bestWork) && (reliable ==> RefusedBack(env, t, disk, h, left - 1, bestHeight)))
    && forall k: nat :: k >= left && LaterBlock(t, h, k, bestWork) ==> !RefusedBack(env, t, disk, h, k, bestHeight)
  }

  /** So none is left over unless the parent of `h` is heavier than the old tip, nor, on a reliable store, unless the
      rules refuse a postponed block; and if they do, some is. */
  lemma LeftOverIff(env: Env, t: Tree, disk: Disk, reliable: bool, h: Hash, left: nat, bestWork: nat, bestHeight: int)
    requires PostponedAs(env, t, disk, reliable, h, left, bestWork, bestHeight)
    ensures left > 0 ==> ParentHeavier(t, h, bestWork)
    ensures PostponedRefused(env, t, disk, h, bestWork, bestHeight) ==> left > 0
    ensures reliable && left > 0 ==> PostponedRefused(env, t, disk, h, bestWork, bestHeight)
  {
    hide RefusedAt, Stored, ParentHeavier;
    if left > 0 && !ParentHeavier(t, h, bestWork) {
      NotPostponed(t, h, Back(t, h, left - 1), bestWork);
    }
    if PostponedRefused(env, t, disk, h, bestWork, bestHeight) {
      var x :| x in Branch(t, h) && ParentHeavier(t, x, bestWork) && RefusedAt(env, t, disk, x, bestHeight);
      BackAt(t, h, x);
      var k := t[h].height - t[x].height;
      assert x == Back(t, h, k) && LaterBlock(t, h, k, bestWork) && RefusedBack(env, t, disk, h, k, bestHeight);
    }
  }

  lemma NoHeavierParent(t: Tree, h: Hash, e: BlockIndex, bestWork: nat)
    requires WellFormed(t[h := e]) && h !in t && forall x {:trigger t[x].work} :: x in t ==> t[x].work <= bestWork
    ensures !ParentHeavier(t[h := e], h, bestWork)
  {
  }

  lemma {:induction false} WorkGrows(t: Tree, h: Hash, x: Hash)
    requires WellFormed(t) && h in t && x in Branch(t, h)
    ensures x in t && t[x].work <= t[h].work
    decreases t[h].height
  {
    if x != h {
      WorkGrows(t, t[h].prev.value, x);
    }
  }

  /** No block up to `mid` has a parent heavier than that of `mid`. */
  lemma NotPostponed(t: Tree, mid: Hash, x: Hash, bestWork: nat)
    requires WellFormed(t) && mid in t && x in Branch(t, mid) && !ParentHeavier(t, mid, bestWork)
    ensures !ParentHeavier(t, x, bestWork)
  {
    if x != mid {
      OneBack(t, mid, x);
      var p := t[mid].prev.value;
      WorkGrows(t, p, x);
      if t[x].prev.Some? {
        ParentOnBranch(t, p, x);
        WorkGrows(t, p, t[x].prev.value);
      }
    }
  }

  /** The postponed blocks are exactly those of the branch whose parent is heavier. */
  lemma PostponedVerdict(env: Env, t: Tree, disk: Disk, reliable: bool, tip: Hash, mid: Hash, s: seq<Hash>, left: nat,
                         bestWork: nat, bestHeight: int)
    requires PathDown(t, tip, mid, s) && Stored(t, disk) && !ParentHeavier(t, mid, bestWork)
    requires left <= |s| && forall x :: x in s ==> ParentHeavier(t, x, bestWork)
    requires forall i :: left <= i < |s| ==> Passes(env, t, disk, s[i], bestHeight)
    requires reliable && left > 0 ==> s[left - 1] in t && Rejects(env, t, disk, s[left - 1], bestHeight)
    ensures PostponedAs(env, t, disk, reliable, tip, left, bestWork, bestHeight)
  {
    hide Rejects, Stored, ParentHeavier;
    BranchMember(t, tip, mid);
    BranchPrefix(t, tip, t[mid].height);
    forall k: nat | k >= left && LaterBlock(t, tip, k, bestWork)
      ensures !RefusedBack(env, t, disk, tip, k, bestHeight)
    {
      if k < |s| {
        assert s[k] == Back(t, tip, k) && Passes(env, t, disk, s[k], bestHeight);
      } else {
        assert Branch(t, mid)[t[tip].height - k] == Back(t, tip, k);
        NotPostponed(t, mid, Back(t, tip, k), bestWork);
      }
    }
    if left > 0 {
      assert s[left - 1] in s && s[left - 1] == Back(t, tip, left - 1);
    }
  }

  lemma NothingPostponed(env: Env, t: Tree, disk: Disk, reliable: bool, tip: Hash, bestWork: nat, bestHeight: int)
    requires WellFormed(t) && Stored(t, disk) && tip in t
    ensures !ParentHeavier(t, tip, bestWork) ==> PostponedAs(env, t, disk, reliable, tip, 0, bestWork, bestHeight)
  {
    hide Rejects, Stored, ParentHeavier;
    if !ParentHeavier(t, tip, bestWork) {
      forall k: nat | k <= t[tip].height ensures !ParentHeavier(t, Back(t, tip, k), bestWork) {
        NotPostponed(t, tip, Back(t, tip, k), bestWork);
      }
    }
  }

  /** Where a walk up from `to` along `s` stands after `i` steps. */
  function StepOf(to: Hash, s: seq<Hash>, i: nat): Hash
    requires i <= |s|
  {
    if i == 0 then to else s[i - 1]
  }

  lemma PathUpStep(t: Tree, from: Hash, to: Hash, s: seq<Hash>, i: nat)
    requires PathUp(t, to, from, s) && i < |s|
    ensures s[i] in t && t[s[i]].prev == Some(StepOf(to, s, i))
  {
    BranchMember(t, from, to);
    BranchPrefix(t, from, t[to].height + 1 + i);
  }

  lemma PathUpEnds(t: Tree, from: Hash, to: Hash, s: seq<Hash>)
    requires PathUp(t, to, from, s)
    ensures StepOf(to, s, |s|) == from
  {
    BranchMember(t, from, to);
  }

  lemma OneRejected(env: Env, t: Tree, disk: Disk, s: seq<Hash>, tip: Hash, fork: Hash, i: nat, bestHeight: int)
    requires PathUp(t, fork, tip, s) && Stored(t, disk) && i < |s| && s[i] in t && Rejects(env, t, disk, s[i], bestHeight)
    ensures RejectedAbove(env, t, disk, tip, fork, bestHeight)
  {
    hide Rejects, Stored;
    AboveFork(t, tip, fork, s[i], t[fork].height + 1 + i);
  }

  lemma NoneRejected(env: Env, t: Tree, disk: Disk, s: seq<Hash>, tip: Hash, fork: Hash, bestHeight: int)
    requires PathUp(t, fork, tip, s) && Stored(t, disk)
    requires forall j :: 0 <= j < |s| ==> Passes(env, t, disk, s[j], bestHeight)
    ensures !RejectedAbove(env, t, disk, tip, fork, bestHeight)
  {
    hide Rejects, Stored, Branch;
    forall x | x in Branch(t, tip) && x in t && x !in Branch(t, fork)
      ensures !Rejects(env, t, disk, x, bestHeight)
    {
      AboveForkAt(t, tip, fork, x);
      assert x == s[t[x].height - t[fork].height - 1];
    }
  }

  /** A block of the branch that the fork does not have lies above the fork. */
  lemma AboveForkAt(t: Tree, tip: Hash, fork: Hash, x: Hash)
    requires WellFormed(t) && tip in t && fork in t && fork in Branch(t, tip) && x in Branch(t, tip) && x !in Branch(t, fork)
    ensures x in t && t[fork].height < t[x].height <= t[tip].height && x == Branch(t, tip)[t[x].height]
  {
    BranchMember(t, tip, x);
    BranchMember(t, tip, fork);
    BranchPrefix(t, tip, t[fork].height);
    forall k | 0 <= k <= t[fork].height
      ensures Branch(t, tip)[k] in Branch(t, fork)
    {
      assert Branch(t, fork)[k] == Branch(t, tip)[k];
    }
  }

  /** The rules refuse block `h` on top of its branch. */
  predicate RefusedAt(env: Env, t: Tree, disk: Disk, h: Hash, bestHeight: int) {
    WellFormed(t) && h in t && Stored(t, disk) && Rejects(env, t, disk, h, bestHeight)
  }

  /** The rules do not refuse block `h` on top of its branch. */
  predicate Passes(env: Env, t: Tree, disk: Disk, h: Hash, bestHeight: int) {
    WellFormed(t) && h in t && Stored(t, disk) && !Rejects(env, t, disk, h, bestHeight)
  }

  /** Some block of the branch to `tip`, other than those postponed, is refused on top of its parent. */
  ghost predicate RejectedOn(env: Env, t: Tree, disk: Disk, tip: Hash, bestWork: nat, bestHeight: int) {
    && WellFormed(t) && Stored(t, disk) && tip in t
    && exists x :: x in Branch(t, tip) && x in t && !ParentHeavier(t, x, bestWork) && Rejects(env, t, disk, x, bestHeight)
  }

  lemma RejectedHigher(env: Env, t: Tree, disk: Disk, mid: Hash, fork: Hash, tip: Hash, bestWork: nat, bestHeight: int)
    requires RejectedAbove(env, t, disk, mid, fork, bestHeight) && tip in t && mid in Branch(t, tip)
    requires !ParentHeavier(t, mid, bestWork)
    ensures RejectedOn(env, t, disk, tip, bestWork, bestHeight)
  {
    hide Rejects, Stored, ParentHeavier;
    var x :| x in Branch(t, mid) && x !in Branch(t, fork) && x in t && Rejects(env, t, disk, x, bestHeight);
    AncestorOfAncestor(t, tip, mid, x);
    NotPostponed(t, mid, x, bestWork);
  }

  /** `s` lists the blocks from `from` back to the one after `to`. */
  ghost predicate PathDown(t: Tree, from: Hash, to: Hash, s: seq<Hash>) {
    && WellFormed(t) && from in t && to in t && to in Branch(t, from)
    && |s| == t[from].height - t[to].height
    && forall i :: 0 <= i < |s| ==> s[i] == Branch(t, from)[t[from].height - i]
  }

  /** `s` lists the blocks after `to` up to `from`. */
  ghost predicate PathUp(t: Tree, to: Hash, from: Hash, s: seq<Hash>) {
    && WellFormed(t) && from in t && to in t && to in Branch(t, from)
    && |s| == t[from].height - t[to].height
    && forall i :: 0 <= i < |s| ==> s[i] == Branch(t, from)[t[to].height + 1 + i]
  }

  /** The loops that list what to disconnect and what to connect. */
  method ListBack(t: Tree, from: Hash, to: Hash) returns (s: seq<Hash>)
    requires WellFormed(t) && from in t && to in t && to in Branch(t, from)
    ensures PathDown(t, from, to, s)
  {
    var pindex := from;
    s := [];
    BranchMember(t, from, to);
    while pindex != to
      invariant pindex in t && t[to].height <= t[pindex].height <= t[from].height
      invariant pindex == Branch(t, from)[t[pindex].height]
      invariant |s| == t[from].height - t[pindex].height
      invariant forall i :: 0 <= i < |s| ==> s[i] == Branch(t, from)[t[from].height - i]
      decreases t[pindex].height
    {
      BranchPrefix(t, from, t[pindex].height);
      s := s + [pindex];
      pindex := t[pindex].prev.value;
    }
  }

  /** The first loop over memory in Reorganize: the old branch loses its forward pointers. */
  method ClearLinks(t: Tree, links: map<Hash, Hash>, vDisconnect: seq<Hash>, ghost tip: Hash, ghost fork: Hash)
      returns (pnext: map<Hash, Hash>)
    requires PathDown(t, tip, fork, vDisconnect) && links == Links(Branch(t, tip))
    ensures pnext == Links(Branch(t, fork))
  {
    hide Links;
    pnext := links;
    ghost var cur := tip;
    BranchMember(t, tip, fork);
    for i := 0 to |vDisconnect|
      invariant cur in t && cur == Branch(t, tip)[t[tip].height - i]
      invariant pnext == Links(Branch(t, cur))
    {
      var h := vDisconnect[i];
      BranchPrefix(t, tip, t[tip].height - i);
      ImageStep(t, h);
      if t[h].prev.Some? {
        pnext := pnext - {t[h].prev.value};
      }
      cur := t[h].prev.value;
    }
  }

  /** The second loop: each block of the new branch becomes its parent's successor. */
  method SetLinks(t: Tree, links: map<Hash, Hash>, vConnect: seq<Hash>, ghost fork: Hash, ghost tip: Hash)
      returns (pnext: map<Hash, Hash>)
    requires PathUp(t, fork, tip, vConnect) && links == Links(Branch(t, fork))
    ensures pnext == Links(Branch(t, tip))
  {
    hide Links;
    pnext := links;
    ghost var cur := fork;
    BranchMember(t, tip, fork);
    for i := 0 to |vConnect|
      invariant cur in t && cur == Branch(t, tip)[t[fork].height + i]
      invariant pnext == Links(Branch(t, cur))
    {
      var h := vConnect[i];
      BranchPrefix(t, tip, t[fork].height + i + 1);
      ImageStep(t, h);
      if t[h].prev.Some? {
        pnext := pnext[t[h].prev.value := h];
      }
      cur := h;
    }
  }

  lemma AboveFork(t: Tree, tip: Hash, fork: Hash, x: Hash, k: nat)
    requires WellFormed(t) && tip in t && fork in t && t[fork].height < k <= t[tip].height && x == Branch(t, tip)[k]
    ensures x in t && x in Branch(t, tip) && x !in Branch(t, fork)
  {
    BranchPrefix(t, tip, k);
    if x in Branch(t, fork) {
      BranchMember(t, fork, x);
    }
  }

  /** In a tree with one root, any two branches meet. */
  lemma SameRoot(t: Tree, a: Hash, b: Hash, g: Hash)
    requires WellFormed(t) && a in t && b in t
    requires forall h {:trigger t[h].prev} :: h in t && t[h].prev.None? ==> h == g
    ensures g in Branch(t, a) && g in Branch(t, b)
  {
    RootFirst(t, a);
    RootFirst(t, b);
    assert Branch(t, a)[0] == g && Branch(t, b)[0] == g;
  }

  lemma RootFirst(t: Tree, h: Hash)
    requires WellFormed(t) && h in t
    ensures Branch(t, h)[0] in t && t[Branch(t, h)[0]].prev.None?
  {
    BranchPrefix(t, h, 0);
  }
}
