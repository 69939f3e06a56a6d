/** Which blocks may be connected, and to what index: the rules of ConnectBlock on a single map. */
module ConnectSpec {
  import opened Basics
  import opened ChainTypes
  import opened TxIndexSpec

  const COIN: int := 100_000_000
  const MAX_MONEY: int := 10_000_000 * COIN
  const MAX_BLOCK_SIGOPS: nat := 1_000_000 / 64

  predicate MoneyRange(v: int) { 0 <= v <= MAX_MONEY }

  /** The checks whose code is outside the model. `immature` says whether a coinbase at a position is
      too young to be spent, `verify(prev, tx, i)` whether input i passes (or skips) its signature
      check, and `p2shSigOps` what one input adds to the operation count. */
  datatype Checks = Checks(
    immature: DiskTxPos -> bool,
    verify: (Tx, Tx, nat) -> bool,
    strictP2SH: bool,
    p2shSigOps: (Tx, nat, TxOut) -> nat)

  /** The transaction an outpoint refers to, found through the index. */
  function Prev(disk: Disk, ix: Index, o: OutPoint): Option<Tx> {
    if o.hash in ix then ReadTx(disk, ix[o.hash].pos) else None
  }

  predicate Fetchable(disk: Disk, ix: Index, o: OutPoint) {
    && Prev(disk, ix, o).Some?
    && o.n < |Prev(disk, ix, o).value.vout|
    && InRange(ix, o)
  }

  predicate AllFetchable(disk: Disk, ix: Index, vin: seq<OutPoint>) {
    forall i :: 0 <= i < |vin| ==> Fetchable(disk, ix, vin[i])
  }

  function OutputFor(disk: Disk, ix: Index, o: OutPoint): TxOut
    requires Fetchable(disk, ix, o)
  {
    Prev(disk, ix, o).value.vout[o.n]
  }

  function ValueIn(disk: Disk, ix: Index, vin: seq<OutPoint>): int
    requires AllFetchable(disk, ix, vin)
  {
    if vin == [] then 0
    else ValueIn(disk, ix, vin[..|vin| - 1]) + OutputFor(disk, ix, vin[|vin| - 1]).value
  }

  function P2SHSigOps(c: Checks, disk: Disk, ix: Index, tx: Tx, k: nat): nat
    requires k <= |tx.vin| && AllFetchable(disk, ix, tx.vin)
  {
    if k == 0 then 0
    else P2SHSigOps(c, disk, ix, tx, k - 1) + c.p2shSigOps(tx, k - 1, OutputFor(disk, ix, tx.vin[k - 1]))
  }

  /** Everything ConnectInputs asks of input `i`, apart from its being unspent. */
  predicate InputAllowed(c: Checks, disk: Disk, ix: Index, tx: Tx, i: nat)
    requires i < |tx.vin| && AllFetchable(disk, ix, tx.vin)
  {
    var o := tx.vin[i];
    && (Prev(disk, ix, o).value.IsCoinBase() ==> !c.immature(ix[o.hash].pos))
    && MoneyRange(OutputFor(disk, ix, o).value)
    && MoneyRange(ValueIn(disk, ix, tx.vin[..i + 1]))
    && c.verify(Prev(disk, ix, o).value, tx, i)
  }

  predicate InputsAllowed(c: Checks, disk: Disk, ix: Index, tx: Tx)
    requires AllFetchable(disk, ix, tx.vin)
  {
    && (forall i :: 0 <= i < |tx.vin| ==> InputAllowed(c, disk, ix, tx, i))
    && SumOut(tx.vout) <= ValueIn(disk, ix, tx.vin)
    && MoneyRange(ValueIn(disk, ix, tx.vin) - SumOut(tx.vout))
  }

  datatype Tally = Tally(ix: Index, fees: int, sigOps: nat)

  /** One transaction of a block; `None` is rejection. */
  function ConnectTx(c: Checks, disk: Disk, t: Tally, tx: Tx, p: DiskTxPos): Option<Tally> {
    var ops := t.sigOps + tx.sigOps;
    if ops > MAX_BLOCK_SIGOPS then None
    else if tx.IsCoinBase() then Some(t.(ix := t.ix[tx.hash := NewEntry(tx, p)], sigOps := ops))
    else if !AllFetchable(disk, t.ix, tx.vin) then None
    else
      var all := if c.strictP2SH then ops + P2SHSigOps(c, disk, t.ix, tx, |tx.vin|) else ops;
      if all > MAX_BLOCK_SIGOPS || !InputsAllowed(c, disk, t.ix, tx) || ApplyTx(t.ix, tx, p).None? then None
      else Some(Tally(ApplyTx(t.ix, tx, p).value,
                      t.fees + (ValueIn(disk, t.ix, tx.vin) - SumOut(tx.vout)), all))
  }

  function ConnectTxs(c: Checks, disk: Disk, ix: Index, b: Block, file: nat, blockPos: nat, k: nat): Option<Tally>
    requires k <= |b.vtx|
  {
    if k == 0 then Some(Tally(ix, 0, 0))
    else
      var r := ConnectTxs(c, disk, ix, b, file, blockPos, k - 1);
      if r.None? then None
      else ConnectTx(c, disk, r.value, b.vtx[k - 1], TxPosAt(b, file, blockPos, k - 1))
  }

  /** Two blocks of another chain that broke the BIP30 rule before it existed. */
  predicate Bip30Exempt(height: nat, hash: Hash) {
    || (height == 91842 && hash == 0x00000000000a4d0a398161ffc163c503763b1f4360639393e0e4c8e300e0caec)
    || (height == 91880 && hash == 0x00000000000743f190a18c5577a3c2d2a1f610ae9601ac046a38084ccb7cd721)
  }

  /** GetProofOfWorkReward without fees. The 25-coin window of the main network also applies to the test
      network, which in addition starts with 600 blocks of 25 coins. */
  function SubsidyOn(fTestNet: bool, height: nat): int {
    var base := if (74100 <= height < 154000) || (fTestNet && height < 600) then 25 * COIN else 50 * COIN;
    base / Pow2(height / 1_000_000)
  }

  /** The main network's block reward. */
  function Subsidy(height: nat): int { SubsidyOn(false, height) }

  function Reward(height: nat, fees: int): int { Subsidy(height) + fees }

  /** CheckBlock, as far as the chain state depends on it. */
  predicate CheckBlock(b: Block) {
    && b.vtx != []
    && b.vtx[0].IsCoinBase()
    && (forall i :: 0 < i < |b.vtx| ==> !b.vtx[i].IsCoinBase())
    && DistinctIds(b.vtx)
    && SizesPositive(b)
    && (forall t :: t in b.vtx ==> CheckTransaction(t))
  }

  predicate CheckTransaction(t: Tx) {
    && t.vin != [] && t.vout != []
    && (forall i :: 0 <= i < |t.vout| ==> MoneyRange(t.vout[i].value))
    && (forall k :: 0 <= k <= |t.vout| ==> MoneyRange(SumOut(t.vout[..k])))
    && NoDuplicates(t.vin)
    && (!t.IsCoinBase() ==> forall o :: o in t.vin ==> !o.IsNull())
  }

  /** The index after connecting block `b` at `height`, or `None` when ConnectBlock must refuse it. */
  function ConnectBlock(c: Checks, disk: Disk, ix: Index, b: Block, file: nat, blockPos: nat, height: nat): Option<Index> {
    var r := ConnectTxs(c, disk, ix, b, file, blockPos, |b.vtx|);
    if !CheckBlock(b) || (!Bip30Exempt(height, b.hash) && !Bip30(ix, b)) || r.None?
       || SumOut(b.vtx[0].vout) > Reward(height, r.value.fees)
    then None else Some(r.value.ix)
  }

  // ---------------------------------------------------------------- consequences

  /** The checks that depend on nothing but the index and the block. */
  function Bare(): Checks { Checks(_ => false, (_, _, _) => true, false, (_, _, _) => 0) }

  /** What a stricter set of checks accepts, the bare rules accept with the same effect. */
  lemma {:induction false} BareAccepts(c: Checks, disk: Disk, ix: Index, b: Block, file: nat, blockPos: nat, k: nat)
    requires k <= |b.vtx| && ConnectTxs(c, disk, ix, b, file, blockPos, k).Some?
    ensures ConnectTxs(Bare(), disk, ix, b, file, blockPos, k).Some?
    ensures var s, t := ConnectTxs(c, disk, ix, b, file, blockPos, k).value,
                        ConnectTxs(Bare(), disk, ix, b, file, blockPos, k).value;
            s.ix == t.ix && s.fees == t.fees && t.sigOps <= s.sigOps
  {
    if k > 0 {
      BareAccepts(c, disk, ix, b, file, blockPos, k - 1);
      var t := ConnectTxs(c, disk, ix, b, file, blockPos, k - 1).value;
      var tx := b.vtx[k - 1];
      if !tx.IsCoinBase() {
        forall i | 0 <= i < |tx.vin| ensures InputAllowed(Bare(), disk, t.ix, tx, i) {
          assert InputAllowed(c, disk, t.ix, tx, i);
        }
      }
    }
  }

  /** The bare rules change the index exactly as connecting the transactions in order does. */
  lemma {:induction false} ConnectIsApply(c: Checks, disk: Disk, ix: Index, b: Block, file: nat, blockPos: nat, k: nat)
    requires k <= |b.vtx| && ConnectTxs(c, disk, ix, b, file, blockPos, k).Some?
    ensures ApplyTxs(ix, b, file, blockPos, k) == Some(ConnectTxs(c, disk, ix, b, file, blockPos, k).value.ix)
  {
    if k > 0 {
      ConnectIsApply(c, disk, ix, b, file, blockPos, k - 1);
    }
  }
}
