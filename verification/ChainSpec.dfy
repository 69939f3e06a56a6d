/** What the chain database must hold at a given tip: the index replayed from the first block on, and
    the block index with exactly the main chain's forward links. */
module ChainSpec {
  import opened Basics
  import opened ChainTypes
  import opened TxIndexSpec
  import opened ConnectSpec
  import opened BlockTree
  import opened Storage
  import opened Connect
  import BlockLaw
  import Money

  /** Every entry's block is stored where the entry points. */
  predicate Stored(t: Tree, disk: Disk) {
    forall h {:trigger t[h].file} :: h in t ==>
      && (t[h].file, t[h].blockPos) in disk && disk[(t[h].file, t[h].blockPos)].hash == h
      && (t[h].prev.Some? ==> t[h].prev == Some(disk[(t[h].file, t[h].blockPos)].prev))
  }

  function BlockOf(t: Tree, disk: Disk, h: Hash): Block
    requires h in t && Stored(t, disk)
  {
    disk[(t[h].file, t[h].blockPos)]
  }

  /** The index after the chain ending in `h`. The genesis block is never connected. */
  function Replay(t: Tree, disk: Disk, h: Hash): Option<Index>
    requires WellFormed(t) && h in t && Stored(t, disk)
    decreases t[h].height
  {
    if t[h].prev.None? then Some(map[])
    else
      var r := Replay(t, disk, t[h].prev.value);
      if r.None? then None
      else ConnectSpec.ConnectBlock(Bare(), disk, r.value, BlockOf(t, disk, h), t[h].file, t[h].blockPos, t[h].height)
  }

  /** The identifiers of all transactions connected up to `h`. */
  function BranchIds(t: Tree, disk: Disk, h: Hash): set<Hash>
    requires WellFormed(t) && h in t && Stored(t, disk)
    decreases t[h].height
  {
    if t[h].prev.None? then {}
    else BranchIds(t, disk, t[h].prev.value) + Ids(BlockOf(t, disk, h).vtx)
  }

  /** No block repeats a transaction identifier of its own branch. */
  predicate Fresh(t: Tree, disk: Disk)
    requires WellFormed(t) && Stored(t, disk)
  {
    forall h {:trigger t[h].prev} :: h in t && t[h].prev.Some? ==>
      Ids(BlockOf(t, disk, h).vtx) !! BranchIds(t, disk, t[h].prev.value)
  }

  lemma {:induction false} ApplyTxsKeys(ix: Index, b: Block, file: nat, blockPos: nat, k: nat)
    requires k <= |b.vtx| && ApplyTxs(ix, b, file, blockPos, k).Some?
    ensures ApplyTxs(ix, b, file, blockPos, k).value.Keys == ix.Keys + Ids(b.vtx[..k])
  {
    if k > 0 {
      ApplyTxsKeys(ix, b, file, blockPos, k - 1);
      var p := TxPosAt(b, file, blockPos, k - 1);
      SpendAllMeaning(ApplyTxs(ix, b, file, blockPos, k - 1).value, b.vtx[k - 1].Inputs(), p);
      IdsStep(b.vtx, k, {});
    }
  }

  lemma ConnectBlockIsApply(c: Checks, disk: Disk, ix: Index, b: Block, file: nat, blockPos: nat, height: nat)
    requires ConnectSpec.ConnectBlock(c, disk, ix, b, file, blockPos, height).Some?
    ensures DistinctIds(b.vtx)
    ensures ApplyBlock(ix, b, file, blockPos) == ConnectSpec.ConnectBlock(c, disk, ix, b, file, blockPos, height)
    ensures ConnectSpec.ConnectBlock(c, disk, ix, b, file, blockPos, height).value.Keys == ix.Keys + Ids(b.vtx)
    ensures ConnectSpec.ConnectBlock(Bare(), disk, ix, b, file, blockPos, height)
         == ConnectSpec.ConnectBlock(c, disk, ix, b, file, blockPos, height)
  {
    ConnectIsApply(c, disk, ix, b, file, blockPos, |b.vtx|);
    ApplyTxsKeys(ix, b, file, blockPos, |b.vtx|);
    assert b.vtx[..|b.vtx|] == b.vtx;
    BareAccepts(c, disk, ix, b, file, blockPos, |b.vtx|);
  }

  lemma {:induction false} ReplayKeys(t: Tree, disk: Disk, h: Hash)
    requires WellFormed(t) && h in t && Stored(t, disk) && Replay(t, disk, h).Some?
    ensures Replay(t, disk, h).value.Keys == BranchIds(t, disk, h)
    decreases t[h].height
  {
    if t[h].prev.Some? {
      ReplayKeys(t, disk, t[h].prev.value);
      ConnectBlockIsApply(Bare(), disk, Replay(t, disk, t[h].prev.value).value, BlockOf(t, disk, h),
                          t[h].file, t[h].blockPos, t[h].height);
    }
  }

  lemma FreshMeansBip30(ix: Index, b: Block)
    requires Ids(b.vtx) !! ix.Keys
    ensures Bip30(ix, b)
  {
    forall x | x in b.vtx ensures FullySpentOrAbsent(ix, x.hash) {
      assert x.hash in Ids(b.vtx);
    }
  }

  /** Disconnecting the tip of a replayed chain gives the replay of its parent. */
  lemma UndoTip(t: Tree, disk: Disk, h: Hash)
    requires WellFormed(t) && h in t && Stored(t, disk) && Fresh(t, disk)
    requires t[h].prev.Some? && Replay(t, disk, h).Some?
    ensures Replay(t, disk, t[h].prev.value).Some?
    ensures UndoBlock(Replay(t, disk, h).value, BlockOf(t, disk, h)) == Replay(t, disk, t[h].prev.value)
  {
    var ix, b := Replay(t, disk, t[h].prev.value).value, BlockOf(t, disk, h);
    ReplayKeys(t, disk, t[h].prev.value);
    ConnectBlockIsApply(Bare(), disk, ix, b, t[h].file, t[h].blockPos, t[h].height);
    FreshMeansBip30(ix, b);
    DisconnectUndoesConnect(ix, b, t[h].file, t[h].blockPos);
  }

  // ---------------------------------------------------------------- money along a chain

  /** Every block of a replayed branch but the first passes CheckBlock. */
  lemma ReplayChecked(t: Tree, disk: Disk, h: Hash)
    requires WellFormed(t) && h in t && Stored(t, disk) && t[h].prev.Some? && Replay(t, disk, h).Some?
    ensures CheckBlock(BlockOf(t, disk, h)) && Replay(t, disk, t[h].prev.value).Some?
  {
  }

  function SubsidySum(height: nat): int {
    if height == 0 then 0 else SubsidySum(height - 1) + Subsidy(height)
  }

  /** The unspent total of any chain is at most the subsidies of its heights 1 to h. */
  lemma {:induction false} SupplyBound(t: Tree, disk: Disk, h: Hash)
    requires WellFormed(t) && h in t && Stored(t, disk) && Fresh(t, disk) && Replay(t, disk, h).Some?
    ensures Money.GoodIndex(disk, Replay(t, disk, h).value)
    ensures 0 <= Money.Total(disk, Replay(t, disk, h).value) <= SubsidySum(t[h].height)
    decreases t[h].height
  {
    hide ConnectSpec.ConnectBlock, Money.GoodIndex, Money.Total, Subsidy, Fresh;
    if t[h].prev.None? {
      Money.EmptyTotal(disk);
    } else {
      SupplyBound(t, disk, t[h].prev.value);
      SupplyStep(t, disk, h);
    }
    Money.TotalNonNegative(disk, Replay(t, disk, h).value);
  }

  lemma SupplyStep(t: Tree, disk: Disk, h: Hash)
    requires WellFormed(t) && h in t && Stored(t, disk) && Fresh(t, disk) && Replay(t, disk, h).Some? && t[h].prev.Some?
    requires Money.GoodIndex(disk, Replay(t, disk, t[h].prev.value).value)
    ensures Money.GoodIndex(disk, Replay(t, disk, h).value)
    ensures Money.Total(disk, Replay(t, disk, h).value)
         <= Money.Total(disk, Replay(t, disk, t[h].prev.value).value) + Subsidy(t[h].height)
  {
    hide ConnectSpec.ConnectBlock, Money.GoodIndex, Money.Total, Subsidy;
    var p := t[h].prev.value;
    ReplayKeys(t, disk, p);
    FreshMeansBip30(Replay(t, disk, p).value, BlockOf(t, disk, h));
    Money.BlockConservesMoney(Bare(), disk, Replay(t, disk, p).value, BlockOf(t, disk, h),
                              t[h].file, t[h].blockPos, t[h].height);
  }

  // ---------------------------------------------------------------- the database at a tip

  function NextOf(pnext: map<Hash, Hash>, h: Hash): Option<Hash> {
    if h in pnext then Some(pnext[h]) else None
  }

  /** The block index on disk for a tree and its forward links. */
  function DiskImage(t: Tree, pnext: map<Hash, Hash>): map<Hash, DiskBlockIndex> {
    map h | h in t :: DiskBlockIndex(t[h], NextOf(pnext, h))
  }

  ghost predicate AtTip(d: ChainDb, t: Tree, disk: Disk, h: Hash) {
    && WellFormed(t) && Stored(t, disk) && h in t
    && Replay(t, disk, h) == Some(d.tx)
    && d.blockIndex == DiskImage(t, Links(Branch(t, h)))
  }

  lemma AtTipIgnoresBest(d: ChainDb, d': ChainDb, t: Tree, disk: Disk, h: Hash)
    requires AtTip(d, t, disk, h) && d'.tx == d.tx && d'.blockIndex == d.blockIndex
    ensures AtTip(d', t, disk, h)
  {
  }

  lemma ImageStep(t: Tree, h: Hash)
    requires WellFormed(t) && h in t && t[h].prev.Some?
    ensures Links(Branch(t, h)) == Links(Branch(t, t[h].prev.value))[t[h].prev.value := h]
    ensures Links(Branch(t, h)) - {t[h].prev.value} == Links(Branch(t, t[h].prev.value))
    ensures WithNext(DiskImage(t, Links(Branch(t, t[h].prev.value))), t, h, Some(h)) == DiskImage(t, Links(Branch(t, h)))
    ensures WithNext(DiskImage(t, Links(Branch(t, h))), t, h, None) == DiskImage(t, Links(Branch(t, t[h].prev.value)))
  {
    var p := t[h].prev.value;
    var br := Branch(t, h);
    BranchDistinct(t, h);
    assert br[..|br| - 1] == Branch(t, p) && br[|br| - 2] == p;
    LinksShrink(br);
  }

  /** A new leaf that nothing points at changes nothing but its own record. */
  lemma AddLeaf(d: ChainDb, t: Tree, disk: Disk, tip: Hash, h: Hash, e: BlockIndex)
    requires AtTip(d, t, disk, tip) && h !in t && WellFormed(t[h := e]) && Stored(t[h := e], disk)
    ensures AtTip(d.(blockIndex := d.blockIndex[h := DiskBlockIndex(e, None)]), t[h := e], disk, tip)
  {
    BranchStable(t, tip, h, e);
    ReplayStable(t, disk, tip, h, e);
    BranchDistinct(t, tip);
    LinksMeaning(Branch(t, tip));
    forall k | 0 <= k < |Branch(t, tip)| ensures Branch(t, tip)[k] != h {
      BranchPrefix(t, tip, k);
    }
  }

  lemma {:induction false} ReplayStable(t: Tree, disk: Disk, tip: Hash, h: Hash, e: BlockIndex)
    requires WellFormed(t) && WellFormed(t[h := e]) && h !in t && tip in t && Stored(t, disk) && Stored(t[h := e], disk)
    ensures Replay(t[h := e], disk, tip) == Replay(t, disk, tip)
    ensures BranchIds(t[h := e], disk, tip) == BranchIds(t, disk, tip)
    decreases t[tip].height
  {
    if t[tip].prev.Some? {
      ReplayStable(t, disk, t[tip].prev.value, h, e);
    }
  }

  /** One block off the tip. */
  lemma DisconnectStep(d: ChainDb, d': ChainDb, t: Tree, disk: Disk, h: Hash)
    requires AtTip(d, t, disk, h) && Fresh(t, disk) && t[h].prev.Some?
    ensures UndoBlock(d.tx, BlockOf(t, disk, h)).Some?
    ensures d'.tx == UndoBlock(d.tx, BlockOf(t, disk, h)).value && d'.blockIndex == WithNext(d.blockIndex, t, h, None)
            ==> AtTip(d', t, disk, t[h].prev.value)
  {
    UndoTip(t, disk, h);
    ImageStep(t, h);
  }

  /** One block onto the tip. */
  lemma ConnectStep(d: ChainDb, d': ChainDb, env: Env, t: Tree, disk: Disk, h: Hash, bestHeight: int)
    requires WellFormed(t) && h in t && t[h].prev.Some? && AtTip(d, t, disk, t[h].prev.value)
    ensures var r := ConnectsTo(env, t, h, disk, d.tx, BlockOf(t, disk, h), bestHeight);
      r.Some? && d'.tx == r.value && d'.blockIndex == WithNext(d.blockIndex, t, h, Some(h)) ==> AtTip(d', t, disk, h)
  {
    hide ConnectSpec.ConnectBlock, ConnectsTo, DiskImage, Links;
    ImageStep(t, h);
    ConnectsToIsReplay(env, t, disk, h, d.tx, bestHeight);
  }

  /** Whatever checks are in force, an accepted block changes the index as its replay does. */
  lemma ConnectsToIsReplay(env: Env, t: Tree, disk: Disk, h: Hash, ix: Index, bestHeight: int)
    requires WellFormed(t) && h in t && Stored(t, disk)
    ensures var b := BlockOf(t, disk, h);
      ConnectsTo(env, t, h, disk, ix, b, bestHeight).Some? ==>
        ConnectSpec.ConnectBlock(Bare(), disk, ix, b, t[h].file, t[h].blockPos, t[h].height)
          == ConnectsTo(env, t, h, disk, ix, b, bestHeight)
  {
    hide ConnectSpec.ConnectBlock;
    var b := BlockOf(t, disk, h);
    if ConnectsTo(env, t, h, disk, ix, b, bestHeight).Some? {
      ConnectBlockIsApply(ChecksFor(env, t, h, b.time, bestHeight), disk, ix, b, t[h].file, t[h].blockPos, t[h].height);
    }
  }

  /** The rules refuse block `h` on top of its parent's index. */
  predicate Rejects(env: Env, t: Tree, disk: Disk, h: Hash, bestHeight: int)
    requires WellFormed(t) && h in t && Stored(t, disk)
  {
    && t[h].prev.Some? && Replay(t, disk, t[h].prev.value).Some?
    && ConnectsTo(env, t, h, disk, Replay(t, disk, t[h].prev.value).value, BlockOf(t, disk, h), bestHeight).None?
  }

  /** They refuse exactly the unlawful blocks. */
  lemma RejectsUnlawful(env: Env, t: Tree, disk: Disk, h: Hash, bestHeight: int)
    requires WellFormed(t) && h in t && Stored(t, disk) && t[h].prev.Some? && Replay(t, disk, t[h].prev.value).Some?
    ensures Rejects(env, t, disk, h, bestHeight)
       <==> !BlockLaw.Lawful(env, t, h, disk, Replay(t, disk, t[h].prev.value).value, BlockOf(t, disk, h), bestHeight)
  {
    hide ConnectsTo, BlockLaw.Lawful, Replay;
    ConnectsIfLawful(env, t, h, disk, Replay(t, disk, t[h].prev.value).value, BlockOf(t, disk, h), bestHeight);
  }

  // ---------------------------------------------------------------- growing block files

  /** Everything stored stays where it is. */
  predicate Grows(disk: Disk, disk': Disk) {
    forall k :: k in disk ==> k in disk' && disk'[k] == disk[k]
  }

  lemma {:induction false} ValueInGrows(disk: Disk, disk': Disk, ix: Index, vin: seq<OutPoint>)
    requires Grows(disk, disk') && AllFetchable(disk, ix, vin)
    ensures AllFetchable(disk', ix, vin) && ValueIn(disk', ix, vin) == ValueIn(disk, ix, vin)
    ensures forall i :: 0 <= i < |vin| ==> Prev(disk', ix, vin[i]) == Prev(disk, ix, vin[i])
  {
    hide FindTx;
    forall i | 0 <= i < |vin| ensures Fetchable(disk', ix, vin[i]) && Prev(disk', ix, vin[i]) == Prev(disk, ix, vin[i]) {
      assert Fetchable(disk, ix, vin[i]);
    }
    if vin != [] {
      ValueInGrows(disk, disk', ix, vin[..|vin| - 1]);
    }
  }

  lemma InputsAllowedGrows(disk: Disk, disk': Disk, ix: Index, tx: Tx)
    requires Grows(disk, disk') && AllFetchable(disk, ix, tx.vin) && InputsAllowed(Bare(), disk, ix, tx)
    ensures AllFetchable(disk', ix, tx.vin) && InputsAllowed(Bare(), disk', ix, tx)
    ensures ValueIn(disk', ix, tx.vin) == ValueIn(disk, ix, tx.vin)
  {
    hide FindTx;
    ValueInGrows(disk, disk', ix, tx.vin);
    forall i | 0 <= i < |tx.vin| ensures InputAllowed(Bare(), disk', ix, tx, i) {
      assert InputAllowed(Bare(), disk, ix, tx, i);
      ValueInGrows(disk, disk', ix, tx.vin[..i + 1]);
    }
  }

  lemma {:induction false} ConnectGrows(disk: Disk, disk': Disk, ix: Index, b: Block, file: nat, blockPos: nat, k: nat)
    requires Grows(disk, disk') && k <= |b.vtx| && ConnectTxs(Bare(), disk, ix, b, file, blockPos, k).Some?
    ensures ConnectTxs(Bare(), disk', ix, b, file, blockPos, k) == ConnectTxs(Bare(), disk, ix, b, file, blockPos, k)
  {
    hide ConnectTx;
    if k > 0 {
      ConnectGrows(disk, disk', ix, b, file, blockPos, k - 1);
      ConnectTxGrows(disk, disk', ConnectTxs(Bare(), disk, ix, b, file, blockPos, k - 1).value, b.vtx[k - 1],
                     TxPosAt(b, file, blockPos, k - 1));
    }
  }

  lemma ConnectTxGrows(disk: Disk, disk': Disk, t: Tally, tx: Tx, p: DiskTxPos)
    requires Grows(disk, disk') && ConnectTx(Bare(), disk, t, tx, p).Some?
    ensures ConnectTx(Bare(), disk', t, tx, p) == ConnectTx(Bare(), disk, t, tx, p)
  {
    hide InputsAllowed, Fetchable;
    if !tx.IsCoinBase() {
      InputsAllowedGrows(disk, disk', t.ix, tx);
    }
  }

  lemma {:induction false} ReplayGrows(t: Tree, disk: Disk, disk': Disk, h: Hash)
    requires Grows(disk, disk') && WellFormed(t) && h in t && Stored(t, disk)
    ensures Stored(t, disk') && BranchIds(t, disk', h) == BranchIds(t, disk, h)
    ensures Replay(t, disk, h).Some? ==> Replay(t, disk', h) == Replay(t, disk, h)
    decreases t[h].height
  {
    if t[h].prev.Some? {
      var p, b := t[h].prev.value, BlockOf(t, disk, h);
      ReplayGrows(t, disk, disk', p);
      if Replay(t, disk, h).Some? {
        ConnectGrows(disk, disk', Replay(t, disk, p).value, b, t[h].file, t[h].blockPos, |b.vtx|);
      }
    }
  }

  /** Whatever is stored besides, the blocks of the tree mean what they meant. */
  lemma DiskGrows(t: Tree, disk: Disk, disk': Disk)
    requires Grows(disk, disk') && WellFormed(t) && Stored(t, disk) && Fresh(t, disk)
    ensures Stored(t, disk') && Fresh(t, disk')
    ensures forall h :: h in t ==> BranchIds(t, disk', h) == BranchIds(t, disk, h)
    ensures forall d, h :: AtTip(d, t, disk, h) ==> AtTip(d, t, disk', h)
  {
    hide Replay, BranchIds, Links, DiskImage, Branch;
    forall h | h in t
      ensures Stored(t, disk') && BranchIds(t, disk', h) == BranchIds(t, disk, h)
      ensures Replay(t, disk, h).Some? ==> Replay(t, disk', h) == Replay(t, disk, h)
    {
      ReplayGrows(t, disk, disk', h);
    }
  }
}
