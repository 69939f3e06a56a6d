/** Conservation of money: connecting a block never creates more than its subsidy. */
module Money {
  import opened Basics
  import opened ChainTypes
  import opened TxIndexSpec
  import opened ConnectSpec

  /** Value of the first `k` outputs that are not spent yet. */
  function UnspentSum(vout: seq<TxOut>, vSpent: seq<DiskTxPos>, k: nat): int
    requires k <= |vout| && |vout| == |vSpent|
  {
    if k == 0 then 0
    else UnspentSum(vout, vSpent, k - 1) + if vSpent[k - 1].NullPos? then vout[k - 1].value else 0
  }

  /** An index record leads to a transaction with as many outputs, each in the money range. */
  predicate GoodEntry(disk: Disk, e: TxIndex) {
    && ReadTx(disk, e.pos).Some?
    && |ReadTx(disk, e.pos).value.vout| == |e.vSpent|
    && forall i :: 0 <= i < |e.vSpent| ==> MoneyRange(ReadTx(disk, e.pos).value.vout[i].value)
  }

  predicate GoodIndex(disk: Disk, ix: Index) {
    forall h :: h in ix ==> GoodEntry(disk, ix[h])
  }

  function UnspentOf(disk: Disk, e: TxIndex): int
    requires GoodEntry(disk, e)
  {
    UnspentSum(ReadTx(disk, e.pos).value.vout, e.vSpent, |e.vSpent|)
  }

  /** The sum of the values of a finite map. */
  ghost function SumOf(w: map<Hash, int>): int
    decreases |w.Keys|
  {
    if w.Keys == {} then 0
    else
      var h := Some1(w.Keys);
      SmallerWithout(w, h);
      w[h] + SumOf(w - {h})
  }

  lemma SmallerWithout(w: map<Hash, int>, h: Hash)
    requires h in w
    ensures (w - {h}).Keys == w.Keys - {h} && |(w - {h}).Keys| < |w.Keys|
  {
    assert (w - {h}).Keys == w.Keys - {h};
  }

  lemma {:induction false} SumWithout(w: map<Hash, int>, k: Hash)
    requires k in w
    ensures SumOf(w) == w[k] + SumOf(w - {k})
    decreases |w.Keys|
  {
    var h := Some1(w.Keys);
    if h != k {
      SmallerWithout(w, h);
      SmallerWithout(w, k);
      SumWithout(w - {h}, k);
      SumWithout(w - {k}, h);
      assert (w - {h}) - {k} == (w - {k}) - {h};
    }
  }

  lemma {:induction false} SumNonNegative(w: map<Hash, int>)
    requires forall h :: h in w ==> w[h] >= 0
    ensures SumOf(w) >= 0
    decreases |w.Keys|
  {
    if w.Keys != {} {
      SmallerWithout(w, Some1(w.Keys));
      SumNonNegative(w - {Some1(w.Keys)});
    }
  }

  function Weights(disk: Disk, ix: Index): map<Hash, int>
    requires GoodIndex(disk, ix)
  {
    map h | h in ix :: UnspentOf(disk, ix[h])
  }

  /** All unspent money recorded by an index. */
  ghost function Total(disk: Disk, ix: Index): int
    requires GoodIndex(disk, ix)
  {
    SumOf(Weights(disk, ix))
  }

  lemma EmptyTotal(disk: Disk)
    ensures GoodIndex(disk, map[]) && Total(disk, map[]) == 0
  {
    assert Weights(disk, map[]) == map[];
  }

  lemma TotalWithout(disk: Disk, ix: Index, k: Hash)
    requires GoodIndex(disk, ix) && k in ix
    ensures Total(disk, ix) == UnspentOf(disk, ix[k]) + Total(disk, ix - {k})
  {
    assert Weights(disk, ix) - {k} == Weights(disk, ix - {k});
    SumWithout(Weights(disk, ix), k);
  }

  lemma TotalPut(disk: Disk, ix: Index, k: Hash, e: TxIndex)
    requires GoodIndex(disk, ix) && GoodEntry(disk, e)
    ensures GoodIndex(disk, ix[k := e])
    ensures Total(disk, ix[k := e]) == UnspentOf(disk, e) + Total(disk, ix - {k})
  {
    TotalWithout(disk, ix[k := e], k);
    assert ix[k := e] - {k} == ix - {k};
  }

  lemma {:induction false} SumAfterSpend(vout: seq<TxOut>, vSpent: seq<DiskTxPos>, n: nat, p: DiskTxPos, k: nat)
    requires k <= |vout| && |vout| == |vSpent| && n < |vout| && p.Pos? && vSpent[n].NullPos?
    ensures UnspentSum(vout, vSpent[n := p], k) == UnspentSum(vout, vSpent, k) - if n < k then vout[n].value else 0
  {
    if k > 0 {
      SumAfterSpend(vout, vSpent, n, p, k - 1);
    }
  }

  lemma {:induction false} SumExtremes(vout: seq<TxOut>, vSpent: seq<DiskTxPos>, k: nat)
    requires k <= |vout| && |vout| == |vSpent|
    requires forall i :: 0 <= i < |vout| ==> MoneyRange(vout[i].value)
    ensures 0 <= UnspentSum(vout, vSpent, k)
    ensures (forall i :: 0 <= i < k ==> vSpent[i].Pos?) ==> UnspentSum(vout, vSpent, k) == 0
    ensures (forall i :: 0 <= i < k ==> vSpent[i].NullPos?) ==> UnspentSum(vout, vSpent, k) == SumOut(vout[..k])
  {
    if k == 0 {
      assert vout[..0] == [];
    } else {
      SumExtremes(vout, vSpent, k - 1);
      assert vout[..k][..k - 1] == vout[..k - 1];
    }
  }

  lemma TotalNonNegative(disk: Disk, ix: Index)
    requires GoodIndex(disk, ix)
    ensures Total(disk, ix) >= 0
  {
    forall h | h in ix ensures UnspentOf(disk, ix[h]) >= 0 {
      SumExtremes(ReadTx(disk, ix[h].pos).value.vout, ix[h].vSpent, |ix[h].vSpent|);
    }
    SumNonNegative(Weights(disk, ix));
  }

  /** Spending one output takes exactly its value out of the total. */
  lemma SpendTakesValue(disk: Disk, ix: Index, o: OutPoint, p: DiskTxPos)
    requires GoodIndex(disk, ix) && Unspent(ix, o) && p.Pos?
    ensures GoodIndex(disk, Mark(ix, o, p))
    ensures Fetchable(disk, ix, o)
    ensures Total(disk, Mark(ix, o, p)) == Total(disk, ix) - OutputFor(disk, ix, o).value
  {
    var e := ix[o.hash];
    var e' := e.(vSpent := e.vSpent[o.n := p]);
    assert GoodEntry(disk, e) && GoodEntry(disk, e');
    TotalWithout(disk, ix, o.hash);
    TotalPut(disk, ix, o.hash, e');
    SumAfterSpend(ReadTx(disk, e.pos).value.vout, e.vSpent, o.n, p, |e.vSpent|);
  }

  lemma {:induction false} SpendAllTakesValueIn(disk: Disk, ix: Index, vin: seq<OutPoint>, p: DiskTxPos)
    requires GoodIndex(disk, ix) && p.Pos? && SpendAll(ix, vin, p).Some? && AllFetchable(disk, ix, vin)
    ensures GoodIndex(disk, SpendAll(ix, vin, p).value)
    ensures Total(disk, SpendAll(ix, vin, p).value) == Total(disk, ix) - ValueIn(disk, ix, vin)
  {
    if vin != [] {
      var init, o := vin[..|vin| - 1], vin[|vin| - 1];
      SpendAllTakesValueIn(disk, ix, init, p);
      SpendAllMeaning(ix, init, p);
      SpendTakesValue(disk, SpendAll(ix, init, p).value, o, p);
    }
  }

  /** Entering a transaction's record adds its outputs, provided the record it replaces was spent. */
  lemma EntryAddsOutputs(disk: Disk, ix: Index, tx: Tx, p: DiskTxPos)
    requires GoodIndex(disk, ix) && FullySpentOrAbsent(ix, tx.hash)
    requires ReadTx(disk, p) == Some(tx) && CheckTransaction(tx)
    ensures GoodIndex(disk, ix[tx.hash := NewEntry(tx, p)])
    ensures Total(disk, ix[tx.hash := NewEntry(tx, p)]) == Total(disk, ix) + SumOut(tx.vout)
  {
    var e := NewEntry(tx, p);
    TotalPut(disk, ix, tx.hash, e);
    SumExtremes(tx.vout, e.vSpent, |tx.vout|);
    assert tx.vout[..|tx.vout|] == tx.vout;
    if tx.hash in ix {
      var prior := ix[tx.hash];
      TotalWithout(disk, ix, tx.hash);
      assert forall i :: 0 <= i < |prior.vSpent| ==> prior.vSpent[i] in prior.vSpent;
      SumExtremes(ReadTx(disk, prior.pos).value.vout, prior.vSpent, |prior.vSpent|);
    } else {
      assert ix - {tx.hash} == ix;
    }
  }

  /** One transaction: fees leave the total, a coinbase adds its outputs. */
  lemma TxBalance(disk: Disk, t: Tally, tx: Tx, p: DiskTxPos)
    requires GoodIndex(disk, t.ix) && FullySpentOrAbsent(t.ix, tx.hash)
    requires p.Pos? && ReadTx(disk, p) == Some(tx) && CheckTransaction(tx)
    requires ConnectTx(Bare(), disk, t, tx, p).Some?
    ensures var t' := ConnectTx(Bare(), disk, t, tx, p).value;
      GoodIndex(disk, t'.ix) && t'.fees >= t.fees
      && Total(disk, t'.ix) + t'.fees == Total(disk, t.ix) + t.fees + if tx.IsCoinBase() then SumOut(tx.vout) else 0
  {
    if tx.IsCoinBase() {
      EntryAddsOutputs(disk, t.ix, tx, p);
    } else {
      SpendAllTakesValueIn(disk, t.ix, tx.vin, p);
      SpendAllMeaning(t.ix, tx.vin, p);
      assert FullySpentOrAbsent(SpendAll(t.ix, tx.vin, p).value, tx.hash) by {
        SpentNotInputs(t.ix, tx.vin, p, tx.hash);
      }
      EntryAddsOutputs(disk, SpendAll(t.ix, tx.vin, p).value, tx, p);
    }
  }

  lemma NextTxReady(disk: Disk, ix: Index, b: Block, file: nat, blockPos: nat, k: nat)
    requires (file, blockPos) in disk && disk[(file, blockPos)] == b
    requires 0 < k <= |b.vtx| && CheckBlock(b) && Bip30(ix, b)
    requires ConnectTxs(Bare(), disk, ix, b, file, blockPos, k - 1).Some?
    ensures FullySpentOrAbsent(ConnectTxs(Bare(), disk, ix, b, file, blockPos, k - 1).value.ix, b.vtx[k - 1].hash)
    ensures ReadTx(disk, TxPosAt(b, file, blockPos, k - 1)) == Some(b.vtx[k - 1])
    ensures CheckTransaction(b.vtx[k - 1]) && (b.vtx[k - 1].IsCoinBase() <==> k == 1)
  {
    hide ConnectTx, ConnectTxs, FindTx;
    var tx := b.vtx[k - 1];
    assert tx in b.vtx;
    ReadBack(disk, file, blockPos, k - 1);
    assert FullySpentOrAbsent(ix, tx.hash);
    ConnectIsApply(Bare(), disk, ix, b, file, blockPos, k - 1);
    NotYetEntered(ix, b, file, blockPos, k);
  }

  lemma NotYetEntered(ix: Index, b: Block, file: nat, blockPos: nat, k: nat)
    requires 0 < k <= |b.vtx| && DistinctIds(b.vtx) && FullySpentOrAbsent(ix, b.vtx[k - 1].hash)
    requires ApplyTxs(ix, b, file, blockPos, k - 1).Some?
    ensures FullySpentOrAbsent(ApplyTxs(ix, b, file, blockPos, k - 1).value, b.vtx[k - 1].hash)
  {
    Bip30Persists(ix, b, file, blockPos, k - 1, b.vtx[k - 1].hash);
  }

  lemma {:induction false} BlockBalance(disk: Disk, ix: Index, b: Block, file: nat, blockPos: nat, k: nat)
    requires (file, blockPos) in disk && disk[(file, blockPos)] == b
    requires k <= |b.vtx| && CheckBlock(b) && Bip30(ix, b) && GoodIndex(disk, ix)
    requires ConnectTxs(Bare(), disk, ix, b, file, blockPos, k).Some?
    ensures var t := ConnectTxs(Bare(), disk, ix, b, file, blockPos, k).value;
      GoodIndex(disk, t.ix) && t.fees >= 0
      && Total(disk, t.ix) + t.fees == Total(disk, ix) + if k == 0 then 0 else SumOut(b.vtx[0].vout)
  {
    hide ConnectTx;
    if k > 0 {
      BlockBalance(disk, ix, b, file, blockPos, k - 1);
      var t := ConnectTxs(Bare(), disk, ix, b, file, blockPos, k - 1).value;
      NextTxReady(disk, ix, b, file, blockPos, k);
      TxBalance(disk, t, b.vtx[k - 1], TxPosAt(b, file, blockPos, k - 1));
    }
  }

  /** Connecting a block adds at most its subsidy to the unspent total, and its fees are themselves
      unspent money plus the coinbase: no sum in ConnectBlock exceeds what exists. */
  lemma BlockConservesMoney(c: Checks, disk: Disk, ix: Index, b: Block, file: nat, blockPos: nat, height: nat)
    requires (file, blockPos) in disk && disk[(file, blockPos)] == b
    requires Bip30(ix, b) && GoodIndex(disk, ix)
    requires ConnectBlock(c, disk, ix, b, file, blockPos, height).Some?
    ensures var ix' := ConnectBlock(c, disk, ix, b, file, blockPos, height).value;
      GoodIndex(disk, ix') && Total(disk, ix') <= Total(disk, ix) + Subsidy(height)
    ensures 0 <= ConnectTxs(c, disk, ix, b, file, blockPos, |b.vtx|).value.fees <= Total(disk, ix) + MAX_MONEY
  {
    BareAccepts(c, disk, ix, b, file, blockPos, |b.vtx|);
    BlockBalance(disk, ix, b, file, blockPos, |b.vtx|);
    TotalNonNegative(disk, ConnectTxs(Bare(), disk, ix, b, file, blockPos, |b.vtx|).value.ix);
    assert b.vtx[0] in b.vtx && b.vtx[0].vout[..|b.vtx[0].vout|] == b.vtx[0].vout;
  }
}
