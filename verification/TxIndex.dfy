/** The transaction index (which output is spent where) and what connecting and disconnecting a
    block does to it, stated on one map. */
module TxIndexSpec {
  import opened Basics
  import opened ChainTypes

  datatype TxIndex = TxIndex(pos: DiskTxPos, vSpent: seq<DiskTxPos>)

  type Index = map<Hash, TxIndex>

  function Unspents(n: nat): seq<DiskTxPos> { seq(n, _ => NullPos) }

  function NewEntry(tx: Tx, pos: DiskTxPos): TxIndex { TxIndex(pos, Unspents(|tx.vout|)) }

  predicate InRange(ix: Index, o: OutPoint) {
    o.hash in ix && o.n < |ix[o.hash].vSpent|
  }

  predicate Unspent(ix: Index, o: OutPoint) {
    InRange(ix, o) && ix[o.hash].vSpent[o.n].NullPos?
  }

  function Mark(ix: Index, o: OutPoint, p: DiskTxPos): Index
    requires InRange(ix, o)
  {
    var e := ix[o.hash];
    ix[o.hash := e.(vSpent := e.vSpent[o.n := p])]
  }

  /** Spend the outpoints one by one; a spent or unknown one fails the whole. */
  function SpendAll(ix: Index, vin: seq<OutPoint>, p: DiskTxPos): Option<Index> {
    if vin == [] then Some(ix)
    else
      var r := SpendAll(ix, vin[..|vin| - 1], p);
      var o := vin[|vin| - 1];
      if r.None? || !Unspent(r.value, o) then None else Some(Mark(r.value, o, p))
  }

  /** Release the outpoints one by one; an unknown one fails the whole. */
  function ReleaseAll(ix: Index, vin: seq<OutPoint>): Option<Index> {
    if vin == [] then Some(ix)
    else
      var r := ReleaseAll(ix, vin[..|vin| - 1]);
      var o := vin[|vin| - 1];
      if r.None? || !InRange(r.value, o) then None else Some(Mark(r.value, o, NullPos))
  }

  /** The index with every outpoint of `s` stamped `p`, whatever the order. */
  function Stamp(ix: Index, s: set<OutPoint>, p: DiskTxPos): Index {
    map h | h in ix ::
      TxIndex(ix[h].pos,
              seq(|ix[h].vSpent|, n requires 0 <= n < |ix[h].vSpent| =>
                if OutPoint(h, n) in s then p else ix[h].vSpent[n]))
  }

  function Points(vin: seq<OutPoint>): set<OutPoint> { set o | o in vin }

  predicate NoDuplicates(vin: seq<OutPoint>) {
    forall i, j :: 0 <= i < j < |vin| ==> vin[i] != vin[j]
  }

  lemma StampEmpty(ix: Index, p: DiskTxPos)
    ensures Stamp(ix, {}, p) == ix
  {
    forall h | h in ix ensures Stamp(ix, {}, p)[h] == ix[h] {
      assert Stamp(ix, {}, p)[h].vSpent == ix[h].vSpent;
    }
  }

  lemma StampOneMore(ix: Index, s: set<OutPoint>, o: OutPoint, p: DiskTxPos)
    requires InRange(ix, o)
    ensures InRange(Stamp(ix, s, p), o)
    ensures Mark(Stamp(ix, s, p), o, p) == Stamp(ix, s + {o}, p)
  {
    var a, b := Mark(Stamp(ix, s, p), o, p), Stamp(ix, s + {o}, p);
    assert a.Keys == b.Keys;
    forall h | h in ix ensures a[h] == b[h] {
      assert a[h].vSpent == b[h].vSpent;
    }
  }

  /** SpendAll succeeds exactly on distinct, unspent outpoints, and then stamps precisely those. */
  lemma {:induction false} SpendAllMeaning(ix: Index, vin: seq<OutPoint>, p: DiskTxPos)
    requires p.Pos?
    ensures SpendAll(ix, vin, p).Some? <==> NoDuplicates(vin) && forall o :: o in vin ==> Unspent(ix, o)
    ensures SpendAll(ix, vin, p).Some? ==> SpendAll(ix, vin, p).value == Stamp(ix, Points(vin), p)
  {
    if vin == [] {
      StampEmpty(ix, p);
      assert Points(vin) == {};
    } else {
      var init, o := vin[..|vin| - 1], vin[|vin| - 1];
      assert vin == init + [o];
      SpendAllMeaning(ix, init, p);
      assert Points(vin) == Points(init) + {o};
      if SpendAll(ix, init, p).Some? {
        var r := Stamp(ix, Points(init), p);
        assert Unspent(r, o) <==> Unspent(ix, o) && o !in init;
        if Unspent(r, o) {
          StampOneMore(ix, Points(init), o, p);
        }
      }
    }
  }

  lemma {:induction false} ReleaseAllMeaning(ix: Index, vin: seq<OutPoint>)
    ensures ReleaseAll(ix, vin).Some? <==> forall o :: o in vin ==> InRange(ix, o)
    ensures ReleaseAll(ix, vin).Some? ==> ReleaseAll(ix, vin).value == Stamp(ix, Points(vin), NullPos)
  {
    if vin == [] {
      StampEmpty(ix, NullPos);
      assert Points(vin) == {};
    } else {
      var init, o := vin[..|vin| - 1], vin[|vin| - 1];
      assert vin == init + [o];
      ReleaseAllMeaning(ix, init);
      assert Points(vin) == Points(init) + {o};
      if ReleaseAll(ix, init).Some? {
        var r := Stamp(ix, Points(init), NullPos);
        assert InRange(r, o) <==> InRange(ix, o);
        if InRange(ix, o) {
          StampOneMore(ix, Points(init), o, NullPos);
        }
      }
    }
  }

  lemma StampBack(ix: Index, s: set<OutPoint>, p: DiskTxPos)
    requires forall o :: o in s ==> Unspent(ix, o)
    ensures Stamp(Stamp(ix, s, p), s, NullPos) == ix
  {
    var r := Stamp(Stamp(ix, s, p), s, NullPos);
    assert r.Keys == ix.Keys;
    forall h | h in ix ensures r[h] == ix[h] {
      forall n | 0 <= n < |ix[h].vSpent| ensures r[h].vSpent[n] == ix[h].vSpent[n] {
        if OutPoint(h, n) in s {
          assert Unspent(ix, OutPoint(h, n));
        }
      }
      assert r[h].vSpent == ix[h].vSpent;
    }
  }

  /** Releasing exactly what was spent restores the index. */
  lemma ReleaseUndoesSpend(ix: Index, vin: seq<OutPoint>, p: DiskTxPos)
    requires p.Pos? && SpendAll(ix, vin, p).Some?
    ensures ReleaseAll(SpendAll(ix, vin, p).value, vin) == Some(ix)
  {
    SpendAllMeaning(ix, vin, p);
    var ix' := SpendAll(ix, vin, p).value;
    forall o | o in vin ensures InRange(ix', o) { assert Unspent(ix, o); }
    ReleaseAllMeaning(ix', vin);
    StampBack(ix, Points(vin), p);
  }

  // ---------------------------------------------------------------- one transaction

  /** Spend the inputs, then enter (or overwrite) the transaction's own record. */
  function ApplyTx(ix: Index, tx: Tx, p: DiskTxPos): Option<Index> {
    var r := SpendAll(ix, tx.Inputs(), p);
    if r.None? then None else Some(r.value[tx.hash := NewEntry(tx, p)])
  }

  /** CTransaction::DisconnectInputs: release the inputs, then erase the transaction's record. */
  function UndoTx(ix: Index, tx: Tx): Option<Index> {
    var r := ReleaseAll(ix, tx.Inputs());
    if r.None? then None else Some(r.value - {tx.hash})
  }

  /** What the BIP30 check demands of the index for one identifier. */
  predicate FullySpentOrAbsent(ix: Index, h: Hash) {
    h in ix ==> forall p :: p in ix[h].vSpent ==> p.Pos?
  }

  predicate AllSpentOrAbsent(ix: Index, hs: set<Hash>) {
    forall h :: h in hs ==> FullySpentOrAbsent(ix, h)
  }

  lemma StampForeign(ix: Index, s: set<OutPoint>, p: DiskTxPos, h: Hash, e: TxIndex)
    requires forall o :: o in s ==> o.hash != h
    ensures Stamp(ix[h := e], s, p) == Stamp(ix, s, p)[h := e]
    ensures Stamp(ix - {h}, s, p) == Stamp(ix, s, p) - {h}
  {
    var a := Stamp(ix[h := e], s, p);
    assert a.Keys == (Stamp(ix, s, p)[h := e]).Keys;
    assert a[h].vSpent == e.vSpent;
    forall g | g in ix && g != h ensures a[g] == Stamp(ix, s, p)[g] {
      assert a[g].vSpent == Stamp(ix, s, p)[g].vSpent;
    }
    assert a == Stamp(ix, s, p)[h := e];
    assert Stamp(ix - {h}, s, p) == Stamp(ix, s, p) - {h};
  }

  lemma SpentNotInputs(ix: Index, vin: seq<OutPoint>, p: DiskTxPos, h: Hash)
    requires p.Pos? && SpendAll(ix, vin, p).Some? && FullySpentOrAbsent(ix, h)
    ensures forall o :: o in Points(vin) ==> o.hash != h
  {
    SpendAllMeaning(ix, vin, p);
    forall o | o in vin ensures o.hash != h {
      assert Unspent(ix, o);
      assert ix[o.hash].vSpent[o.n] in ix[o.hash].vSpent;
    }
  }

  /** Undoing a transaction gives back the index, without whatever record the transaction overwrote. */
  lemma UndoTxMeaning(ix: Index, tx: Tx, p: DiskTxPos)
    requires p.Pos? && ApplyTx(ix, tx, p).Some? && FullySpentOrAbsent(ix, tx.hash)
    ensures UndoTx(ApplyTx(ix, tx, p).value, tx) == Some(ix - {tx.hash})
  {
    var vin := tx.Inputs();
    SpendAllMeaning(ix, vin, p);
    SpentNotInputs(ix, vin, p, tx.hash);
    var spent := SpendAll(ix, vin, p).value;
    var after := spent[tx.hash := NewEntry(tx, p)];
    forall o | o in vin ensures InRange(after, o) {
      assert Unspent(ix, o) && o in Points(vin);
    }
    ReleaseAllMeaning(after, vin);
    StampForeign(spent, Points(vin), NullPos, tx.hash, NewEntry(tx, p));
    forall o | o in Points(vin) ensures Unspent(ix, o) {}
    StampBack(ix, Points(vin), p);
    assert ix[tx.hash := NewEntry(tx, p)] - {tx.hash} == ix - {tx.hash};
  }

  // ---------------------------------------------------------------- one block

  /** The first `k` transactions of a block connected in order. */
  function ApplyTxs(ix: Index, b: Block, file: nat, blockPos: nat, k: nat): Option<Index>
    requires k <= |b.vtx|
  {
    if k == 0 then Some(ix)
    else
      var r := ApplyTxs(ix, b, file, blockPos, k - 1);
      if r.None? then None else ApplyTx(r.value, b.vtx[k - 1], TxPosAt(b, file, blockPos, k - 1))
  }

  function ApplyBlock(ix: Index, b: Block, file: nat, blockPos: nat): Option<Index> {
    ApplyTxs(ix, b, file, blockPos, |b.vtx|)
  }

  /** The first `k` transactions of a block disconnected, last one first. */
  function UndoTxs(ix: Index, b: Block, k: nat): Option<Index>
    requires k <= |b.vtx|
    decreases k
  {
    if k == 0 then Some(ix)
    else
      var r := UndoTx(ix, b.vtx[k - 1]);
      if r.None? then None else UndoTxs(r.value, b, k - 1)
  }

  function UndoBlock(ix: Index, b: Block): Option<Index> { UndoTxs(ix, b, |b.vtx|) }

  /** The BIP30 rule for a whole block, read against the index before the block. */
  predicate Bip30(ix: Index, b: Block) {
    forall t :: t in b.vtx ==> FullySpentOrAbsent(ix, t.hash)
  }

  /** Fully spent records stay fully spent while other transactions of the block connect. */
  lemma {:induction false} Bip30Persists(ix: Index, b: Block, file: nat, blockPos: nat, k: nat, h: Hash)
    requires k <= |b.vtx| && ApplyTxs(ix, b, file, blockPos, k).Some?
    requires FullySpentOrAbsent(ix, h) && forall i :: 0 <= i < k ==> b.vtx[i].hash != h
    ensures FullySpentOrAbsent(ApplyTxs(ix, b, file, blockPos, k).value, h)
  {
    if k > 0 {
      Bip30Persists(ix, b, file, blockPos, k - 1, h);
      var p := TxPosAt(b, file, blockPos, k - 1);
      SpendAllMeaning(ApplyTxs(ix, b, file, blockPos, k - 1).value, b.vtx[k - 1].Inputs(), p);
    }
  }

  lemma UndoStep(before: Index, tx: Tx, p: DiskTxPos, gone: set<Hash>)
    requires p.Pos? && ApplyTx(before, tx, p).Some?
    requires AllSpentOrAbsent(before, gone + {tx.hash})
    ensures UndoTx(ApplyTx(before, tx, p).value - gone, tx) == Some(before - (gone + {tx.hash}))
  {
    assert tx.hash in gone + {tx.hash};
    UndoTxMeaning(before, tx, p);
    forall h | h in gone ensures forall o :: o in Points(tx.Inputs()) ==> o.hash != h {
      SpentNotInputs(before, tx.Inputs(), p, h);
    }
    UndoTxForgets(ApplyTx(before, tx, p).value, tx, gone);
    assert (before - {tx.hash}) - gone == before - (gone + {tx.hash});
  }

  /** Records that the first `k` transactions of the block neither enter nor spend from. */
  ghost predicate Untouched(ix0: Index, b: Block, k: nat, gone: set<Hash>)
    requires k <= |b.vtx|
  {
    forall h :: h in gone ==> FullySpentOrAbsent(ix0, h) && forall i :: 0 <= i < k ==> b.vtx[i].hash != h
  }

  lemma UntouchedStep(ix0: Index, b: Block, file: nat, blockPos: nat, k: nat, gone: set<Hash>)
    requires 0 < k <= |b.vtx| && ApplyTxs(ix0, b, file, blockPos, k - 1).Some?
    requires DistinctIds(b.vtx) && Bip30(ix0, b) && Untouched(ix0, b, k, gone)
    ensures Untouched(ix0, b, k - 1, gone + {b.vtx[k - 1].hash})
    ensures AllSpentOrAbsent(ApplyTxs(ix0, b, file, blockPos, k - 1).value, gone + {b.vtx[k - 1].hash})
  {
    var gone' := gone + {b.vtx[k - 1].hash};
    assert b.vtx[k - 1] in b.vtx;
    assert Untouched(ix0, b, k - 1, gone');
    forall h | h in gone' ensures FullySpentOrAbsent(ApplyTxs(ix0, b, file, blockPos, k - 1).value, h) {
      Bip30Persists(ix0, b, file, blockPos, k - 1, h);
    }
  }

  lemma IdsStep(txs: seq<Tx>, k: nat, gone: set<Hash>)
    requires 0 < k <= |txs|
    ensures gone + {txs[k - 1].hash} + Ids(txs[..k - 1]) == gone + Ids(txs[..k])
  {
    assert txs[..k] == txs[..k - 1] + [txs[k - 1]];
  }

  /** Undoing the first `k` transactions commutes with forgetting records they never touch. */
  lemma {:induction false} UndoIgnores(ix0: Index, b: Block, file: nat, blockPos: nat, k: nat, gone: set<Hash>)
    requires k <= |b.vtx| && ApplyTxs(ix0, b, file, blockPos, k).Some?
    requires DistinctIds(b.vtx) && Bip30(ix0, b) && Untouched(ix0, b, k, gone)
    ensures UndoTxs(ApplyTxs(ix0, b, file, blockPos, k).value - gone, b, k)
         == Some(ix0 - (gone + Ids(b.vtx[..k])))
    decreases k
  {
    if k == 0 {
      assert gone + Ids(b.vtx[..0]) == gone;
    } else {
      var gone' := gone + {b.vtx[k - 1].hash};
      UntouchedStep(ix0, b, file, blockPos, k, gone);
      UndoStep(ApplyTxs(ix0, b, file, blockPos, k - 1).value, b.vtx[k - 1], TxPosAt(b, file, blockPos, k - 1), gone);
      UndoIgnores(ix0, b, file, blockPos, k - 1, gone');
      IdsStep(b.vtx, k, gone);
    }
  }

  lemma UndoTxForgets(ix: Index, tx: Tx, gone: set<Hash>)
    requires UndoTx(ix, tx).Some?
    requires forall o :: o in Points(tx.Inputs()) ==> o.hash !in gone
    ensures UndoTx(ix - gone, tx) == Some(UndoTx(ix, tx).value - gone)
  {
    ReleaseAllMeaning(ix, tx.Inputs());
    forall o | o in tx.Inputs() ensures InRange(ix - gone, o) {
      assert InRange(ix, o) && o in Points(tx.Inputs());
    }
    ReleaseAllMeaning(ix - gone, tx.Inputs());
    var s := Points(tx.Inputs());
    assert Stamp(ix - gone, s, NullPos) == Stamp(ix, s, NullPos) - gone;
    assert (Stamp(ix, s, NullPos) - gone) - {tx.hash} == (Stamp(ix, s, NullPos) - {tx.hash}) - gone;
  }

  /** Disconnecting a block that was just connected always succeeds, and leaves the earlier index
      without the records of the block's own identifiers. */
  lemma UndoBlockMeaning(ix: Index, b: Block, file: nat, blockPos: nat)
    requires ApplyBlock(ix, b, file, blockPos).Some? && DistinctIds(b.vtx) && Bip30(ix, b)
    ensures UndoBlock(ApplyBlock(ix, b, file, blockPos).value, b) == Some(ix - Ids(b.vtx))
  {
    var after := ApplyBlock(ix, b, file, blockPos).value;
    UndoIgnores(ix, b, file, blockPos, |b.vtx|, {});
    assert after - {} == after && b.vtx[..|b.vtx|] == b.vtx && {} + Ids(b.vtx) == Ids(b.vtx);
  }

  /** Exact undo, and exactly when: no transaction of the block may already be in the index. */
  lemma DisconnectUndoesConnect(ix: Index, b: Block, file: nat, blockPos: nat)
    requires ApplyBlock(ix, b, file, blockPos).Some? && DistinctIds(b.vtx) && Bip30(ix, b)
    ensures UndoBlock(ApplyBlock(ix, b, file, blockPos).value, b) == Some(ix) <==> Ids(b.vtx) !! ix.Keys
  {
    UndoBlockMeaning(ix, b, file, blockPos);
    if Ids(b.vtx) !! ix.Keys {
      assert ix - Ids(b.vtx) == ix;
    } else {
      assert (ix - Ids(b.vtx)).Keys != ix.Keys;
    }
  }

  /** Why freshness matters: once a record has been lost that way, disconnecting any transaction that
      spent from it fails, so the branch below cannot be disconnected any more. */
  lemma LostRecordBlocksDisconnect(ix: Index, b: Block, file: nat, blockPos: nat, spender: Tx, o: OutPoint)
    requires ApplyBlock(ix, b, file, blockPos).Some? && DistinctIds(b.vtx) && Bip30(ix, b)
    requires o in spender.Inputs() && o.hash in Ids(b.vtx)
    ensures UndoBlock(ApplyBlock(ix, b, file, blockPos).value, b).Some?
    ensures UndoTx(UndoBlock(ApplyBlock(ix, b, file, blockPos).value, b).value, spender).None?
  {
    UndoBlockMeaning(ix, b, file, blockPos);
    ReleaseAllMeaning(ix - Ids(b.vtx), spender.Inputs());
  }
}
