/** A block that BIP30 as coded lets in although it cannot be undone: the rules accept a coinbase, its spender, and later the
    same coinbase again. */
module Overwriting {
  import opened Basics
  import opened ChainTypes
  import opened TxIndexSpec
  import opened ConnectSpec

  function CoinBase(id: Hash): Tx { Tx(id, [OutPoint(0, NULL_INDEX)], [TxOut(5, 0)], 111, 0) }

  /** It spends the only output of transaction 1. */
  function Spender(): Tx { Tx(2, [OutPoint(1, 0)], [TxOut(5, 0)], 111, 0) }

  function First(): Block { Block(11, 10, 0x100001, 1400000000, [CoinBase(1)]) }

  function Spending(): Block { Block(112, 111, 0x100001, 1400010000, [CoinBase(3), Spender()]) }

  function Again(): Block { Block(113, 112, 0x100001, 1400010100, [CoinBase(1)]) }

  /** Where the first block's transaction is, the block being the first in its file. */
  function Home(): DiskTxPos { TxPosAt(First(), 1, 8, 0) }

  /** A block of a new coinbase, or of one whose record is completely spent, connects. */
  lemma CoinBaseConnects(c: Checks, disk: Disk, ix: Index, b: Block, id: Hash, file: nat, blockPos: nat, height: nat)
    requires b.vtx == [CoinBase(id)] && FullySpentOrAbsent(ix, id) && 5 <= Subsidy(height)
    ensures ConnectSpec.ConnectBlock(c, disk, ix, b, file, blockPos, height)
         == Some(ix[id := NewEntry(CoinBase(id), TxPosAt(b, file, blockPos, 0))])
    ensures CheckBlock(b) && Bip30(ix, b) && ApplyBlock(ix, b, file, blockPos).Some?
  {
    var tx := b.vtx[0];
    OneOutput(tx);
    assert tx.IsCoinBase() && CheckTransaction(tx);
    assert ConnectTxs(c, disk, ix, b, file, blockPos, 0) == Some(Tally(ix, 0, 0));
    assert ConnectTxs(c, disk, ix, b, file, blockPos, 1) == Some(Tally(ix[id := NewEntry(tx, TxPosAt(b, file, blockPos, 0))], 0, 0));
    ConnectIsApply(c, disk, ix, b, file, blockPos, 1);
  }

  lemma OneOutput(tx: Tx)
    requires tx.vout == [TxOut(5, 0)]
    ensures SumOut(tx.vout) == 5 && SumOut(tx.vout[..0]) == 0 && SumOut(tx.vout[..1]) == 5
  {
    assert tx.vout[..0] == [] && tx.vout[..1] == tx.vout;
  }

  /** Wherever the first coinbase is known, unspent and mature, and the signature verifies, its spender connects. */
  lemma SpenderConnects(c: Checks, disk: Disk, ix: Index, blockPos: nat, height: nat)
    requires (1, 8) in disk && disk[(1, 8)] == First() && 5 <= Subsidy(height)
    requires 1 in ix && ix[1] == NewEntry(CoinBase(1), Home()) && 2 !in ix && 3 !in ix
    requires !c.immature(Home()) && c.verify(CoinBase(1), Spender(), 0) && c.p2shSigOps(Spender(), 0, TxOut(5, 0)) == 0
    ensures var r := ConnectSpec.ConnectBlock(c, disk, ix, Spending(), 1, blockPos, height);
            && r.Some? && r.value.Keys == ix.Keys + {2, 3}
            && r.value[1] == TxIndex(Home(), [TxPosAt(Spending(), 1, blockPos, 1)])
  {
    var b, cb := Spending(), CoinBase(3);
    SpendingIsSound(ix);
    hide CheckBlock, Bip30;
    OneOutput(cb);
    var t := Tally(ix[3 := NewEntry(cb, TxPosAt(b, 1, blockPos, 0))], 0, 0);
    assert ConnectTxs(c, disk, ix, b, 1, blockPos, 0) == Some(Tally(ix, 0, 0));
    assert ConnectTxs(c, disk, ix, b, 1, blockPos, 1) == Some(t);
    SpenderFollows(c, disk, t.ix, TxPosAt(b, 1, blockPos, 1));
    assert [NullPos][0 := TxPosAt(b, 1, blockPos, 1)] == [TxPosAt(b, 1, blockPos, 1)];
  }

  lemma SpendingIsSound(ix: Index)
    requires 2 !in ix && 3 !in ix
    ensures CheckBlock(Spending()) && Bip30(ix, Spending())
  {
    var cb, tx := CoinBase(3), Spender();
    OneOutput(cb);
    OneOutput(tx);
    assert CheckTransaction(cb) && CheckTransaction(tx);
  }

  lemma SpenderFollows(c: Checks, disk: Disk, ix: Index, p: DiskTxPos)
    requires (1, 8) in disk && disk[(1, 8)] == First() && 1 in ix && ix[1] == NewEntry(CoinBase(1), Home())
    requires !c.immature(Home()) && c.verify(CoinBase(1), Spender(), 0) && c.p2shSigOps(Spender(), 0, TxOut(5, 0)) == 0
    ensures ConnectTx(c, disk, Tally(ix, 0, 0), Spender(), p)
         == Some(Tally(Mark(ix, OutPoint(1, 0), p)[2 := NewEntry(Spender(), p)], 0, 0))
  {
    var tx := Spender();
    OneOutput(tx);
    InputIsAllowed(c, disk, ix);
    hide InputsAllowed, OutputFor, ValueIn;
    assert tx.vin[..0] == [] && SpendAll(ix, [], p) == Some(ix);
    assert ApplyTx(ix, tx, p) == Some(Mark(ix, OutPoint(1, 0), p)[2 := NewEntry(tx, p)]);
    assert P2SHSigOps(c, disk, ix, tx, 0) == 0;
  }

  lemma InputIsAllowed(c: Checks, disk: Disk, ix: Index)
    requires (1, 8) in disk && disk[(1, 8)] == First()
    requires 1 in ix && ix[1] == NewEntry(CoinBase(1), Home())
    requires !c.immature(Home()) && c.verify(CoinBase(1), Spender(), 0)
    ensures AllFetchable(disk, ix, Spender().vin) && InputsAllowed(c, disk, ix, Spender()) && ValueIn(disk, ix, Spender().vin) == 5
    ensures OutputFor(disk, ix, OutPoint(1, 0)) == TxOut(5, 0) && Unspent(ix, OutPoint(1, 0))
  {
    var tx := Spender();
    PastHeader(First(), 8, 0);
    ReadBack(disk, 1, 8, 0);
    assert Prev(disk, ix, OutPoint(1, 0)) == Some(CoinBase(1));
    assert tx.vin[..0] == [] && tx.vin[..1] == tx.vin && ValueIn(disk, ix, tx.vin[..0]) == 0;
    OneOutput(tx);
  }

  /** The three blocks one after the other, with any blocks between the first two that touch neither: all connect, and
      disconnecting the last does not bring the record back; nor can the spender then be undone. */
  lemma OverwritingIsNotUndone(c: Checks, disk: Disk, ix: Index, at: nat, at': nat, height: nat)
    requires (1, 8) in disk && disk[(1, 8)] == First() && 5 <= Subsidy(height) && 5 <= Subsidy(height + 1)
    requires 1 in ix && ix[1] == NewEntry(CoinBase(1), Home()) && 2 !in ix && 3 !in ix
    requires !c.immature(Home()) && c.verify(CoinBase(1), Spender(), 0) && c.p2shSigOps(Spender(), 0, TxOut(5, 0)) == 0
    ensures var r := ConnectSpec.ConnectBlock(c, disk, ix, Spending(), 1, at, height);
            && r.Some?
            && var s := ConnectSpec.ConnectBlock(c, disk, r.value, Again(), 1, at', height + 1);
            && s.Some? && UndoBlock(s.value, Again()) == Some(r.value - {1}) && r.value - {1} != r.value
            && UndoTx(r.value - {1}, Spender()).None?
  {
    SpenderConnects(c, disk, ix, at, height);
    var r := ConnectSpec.ConnectBlock(c, disk, ix, Spending(), 1, at, height).value;
    CoinBaseConnects(c, disk, r, Again(), 1, 1, at', height + 1);
    var s := ConnectSpec.ConnectBlock(c, disk, r, Again(), 1, at', height + 1).value;
    BareAccepts(c, disk, r, Again(), 1, at', 1);
    ConnectIsApply(c, disk, r, Again(), 1, at', 1);
    hide ConnectSpec.ConnectBlock, ConnectTxs, CheckBlock;
    UndoBlockMeaning(r, Again(), 1, at');
    LostRecordBlocksDisconnect(r, Again(), 1, at', Spender(), OutPoint(1, 0));
    assert Ids(Again().vtx) == {1} && 1 !in r - {1};
  }
}
