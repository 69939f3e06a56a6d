/** Entities of the chain: outpoints, transactions, blocks and their places on disk. */
module ChainTypes {
  import opened Basics

  /** A 256-bit identifier, read as a number. Hash functions are not modelled: a transaction or block carries the
      identifier that its serialisation hashes to. */
  type Hash = int

  const NULL_INDEX: nat := 0xFFFF_FFFF

  datatype OutPoint = OutPoint(hash: Hash, n: nat) {
    predicate IsNull() { hash == 0 && n == NULL_INDEX }
  }

  /** CDiskTxPos. Every null position the source creates is the same value, so null is one constructor. */
  datatype DiskTxPos = NullPos | Pos(file: nat, blockPos: nat, txPos: nat)

  /** A script is an opaque number: only the functions in `Checks` look at it. */
  datatype TxOut = TxOut(value: int, script: nat)

  /** `size` is the serialised size; `sigOps` is what GetLegacySigOpCount returns. */
  datatype Tx = Tx(hash: Hash, vin: seq<OutPoint>, vout: seq<TxOut>, size: nat, sigOps: nat) {
    predicate IsCoinBase() { |vin| == 1 && vin[0].IsNull() }

    /** The outpoints this transaction really spends: a coinbase spends nothing. */
    function Inputs(): seq<OutPoint> { if IsCoinBase() then [] else vin }
  }

  /** `work` is what GetBlockWork computes from the header, `time` its time stamp. */
  datatype Block = Block(hash: Hash, prev: Hash, work: nat, time: nat, vtx: seq<Tx>)

  /** The world outside: signature checks, pay-to-script-hash counts, and three node parameters. */
  datatype Env = Env(
    verify: (Tx, Tx, nat, bool) -> bool,
    p2shSigOps: (Tx, nat, TxOut) -> nat,
    baseMaturity: nat,
    checkpointEstimate: nat,
    genesis: Hash)

  function SumOut(vout: seq<TxOut>): int {
    if vout == [] then 0 else SumOut(vout[..|vout| - 1]) + vout[|vout| - 1].value
  }

  function Ids(txs: seq<Tx>): set<Hash> {
    set t | t in txs :: t.hash
  }

  predicate DistinctIds(txs: seq<Tx>) {
    forall i, j :: 0 <= i < j < |txs| ==> txs[i].hash != txs[j].hash
  }

  /** Serialised length of a compact-size count. */
  function CompactSize(n: nat): nat {
    if n < 253 then 1 else if n <= 0xFFFF then 3 else if n <= 0xFFFF_FFFF then 5 else 9
  }

  /** Where transaction `i` of a block stored at `blockPos` starts: an 80-byte header, the count,
      then the transactions one after another. */
  function TxOffset(b: Block, blockPos: nat, i: nat): nat
    requires i <= |b.vtx|
  {
    if i == 0 then blockPos + 80 + CompactSize(|b.vtx|)
    else TxOffset(b, blockPos, i - 1) + b.vtx[i - 1].size
  }

  function TxPosAt(b: Block, file: nat, blockPos: nat, i: nat): DiskTxPos
    requires i <= |b.vtx|
  {
    Pos(file, blockPos, TxOffset(b, blockPos, i))
  }

  /** The block files: blocks stored by file number and position. */
  type Disk = map<(nat, nat), Block>

  /** The transaction whose bytes start at `txPos`, searching the first `k` of the block. */
  function FindTx(b: Block, blockPos: nat, txPos: nat, k: nat): Option<Tx>
    requires k <= |b.vtx|
  {
    if k == 0 then None
    else if TxOffset(b, blockPos, k - 1) == txPos then Some(b.vtx[k - 1])
    else FindTx(b, blockPos, txPos, k - 1)
  }

  /** The position given to transactions that are in no block yet. */
  const POOL_POS: DiskTxPos := Pos(1, 1, 1)

  /** CTransaction::ReadFromDisk. No block lies at place (1, 1); what stands there in the model is whatever the bytes from
      the second on of the first file read as, if they read as a transaction. */
  function ReadTx(disk: Disk, pos: DiskTxPos): Option<Tx> {
    if pos.NullPos? || (pos.file, pos.blockPos) !in disk then None
    else
      var b := disk[(pos.file, pos.blockPos)];
      if pos == POOL_POS then if b.vtx == [] then None else Some(b.vtx[0])
      else FindTx(b, pos.blockPos, pos.txPos, |b.vtx|)
  }

  predicate SizesPositive(b: Block) {
    forall t :: t in b.vtx ==> t.size > 0
  }

  lemma {:induction false} OffsetsIncrease(b: Block, blockPos: nat, i: nat, j: nat)
    requires i < j <= |b.vtx| && SizesPositive(b)
    ensures TxOffset(b, blockPos, i) < TxOffset(b, blockPos, j)
    decreases j
  {
    assert b.vtx[j - 1] in b.vtx;
    if i < j - 1 {
      OffsetsIncrease(b, blockPos, i, j - 1);
    }
  }

  /** No transaction of a block has the position of those in no block. */
  lemma {:induction false} PastHeader(b: Block, blockPos: nat, i: nat)
    requires i <= |b.vtx|
    ensures TxOffset(b, blockPos, i) > blockPos + 80 && forall file :: TxPosAt(b, file, blockPos, i) != POOL_POS
  {
    if i > 0 {
      PastHeader(b, blockPos, i - 1);
    }
  }

  /** Reading back the position that ConnectBlock assigns to a transaction yields that transaction. */
  lemma {:induction false} ReadBack(disk: Disk, file: nat, blockPos: nat, i: nat)
    requires (file, blockPos) in disk
    requires i < |disk[(file, blockPos)].vtx| && SizesPositive(disk[(file, blockPos)])
    ensures ReadTx(disk, TxPosAt(disk[(file, blockPos)], file, blockPos, i))
         == Some(disk[(file, blockPos)].vtx[i])
  {
    var b := disk[(file, blockPos)];
    PastHeader(b, blockPos, i);
    FindFromTop(b, blockPos, i, |b.vtx|);
  }

  lemma {:induction false} FindFromTop(b: Block, blockPos: nat, i: nat, k: nat)
    requires i < k <= |b.vtx| && SizesPositive(b)
    ensures FindTx(b, blockPos, TxOffset(b, blockPos, i), k) == Some(b.vtx[i])
  {
    if i < k - 1 {
      OffsetsIncrease(b, blockPos, i, k - 1);
      FindFromTop(b, blockPos, i, k - 1);
    }
  }
}
