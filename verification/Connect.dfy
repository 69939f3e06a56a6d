/** FetchInputs, ConnectInputs, ConnectBlock and DisconnectBlock as the code runs them: with a cache of
    fetched inputs and a queue of pending index changes, against the one-map rules of ConnectSpec. */
module Connect {
  import opened Basics
  import opened ChainTypes
  import opened TxIndexSpec
  import opened ConnectSpec
  import opened BlockTree
  import BlockLaw
  import LawMatches
  import opened Storage

  const BIP16_SWITCH_TIME: nat := 1333238400

  /** Walking back from `cur`, is a block nearer than `maturity` to `top` stored where `pos` points? */
  predicate TooYoung(t: Tree, top: Hash, cur: Hash, pos: DiskTxPos, maturity: nat)
    requires WellFormed(t) && top in t && cur in t
    decreases t[cur].height
  {
    && t[top].height - t[cur].height < maturity
    && ((pos.Pos? && pos.file == t[cur].file && pos.blockPos == t[cur].blockPos)
        || (t[cur].prev.Some? && TooYoung(t, top, t[cur].prev.value, pos, maturity)))
  }

  /** A position is too young exactly if one of the last `maturity` blocks up to `top` is stored there. */
  lemma {:induction false} TooYoungMeaning(t: Tree, top: Hash, cur: Hash, pos: DiskTxPos, maturity: nat)
    requires WellFormed(t) && top in t && cur in t && t[cur].height <= t[top].height
    ensures TooYoung(t, top, cur, pos, maturity) <==>
              pos.Pos? && exists x :: x in Branch(t, cur) && x in t && t[top].height - t[x].height < maturity
                                      && t[x].file == pos.file && t[x].blockPos == pos.blockPos
    decreases t[cur].height
  {
    if t[cur].prev.Some? {
      var p := t[cur].prev.value;
      TooYoungMeaning(t, top, p, pos, maturity);
      forall x | x in Branch(t, cur) ensures x == cur || x in Branch(t, p) {
        assert Branch(t, cur) == Branch(t, p) + [cur];
      }
      forall x | x in Branch(t, p) ensures x in Branch(t, cur) && x in t && t[x].height < t[cur].height {
        assert Branch(t, cur) == Branch(t, p) + [cur];
        BranchMember(t, p, x);
      }
    }
    assert cur in Branch(t, cur);
  }

  /** The checks in force while block `h` of the tree is connected. */
  function ChecksFor(env: Env, t: Tree, h: Hash, time: nat, bestHeight: int): Checks
    requires WellFormed(t) && h in t
  {
    var strict := time >= BIP16_SWITCH_TIME;
    Checks(pos => TooYoung(t, h, h, pos, env.baseMaturity),
           (prev: Tx, tx: Tx, i: nat) => bestHeight < env.checkpointEstimate || env.verify(prev, tx, i, strict),
           strict,
           env.p2shSigOps)
  }

  type PrevTxs = map<Hash, (TxIndex, Tx)>

  /** `inputs` caches, for `hs`, exactly what the index `ix` leads to. */
  ghost predicate Caches(disk: Disk, ix: Index, inputs: PrevTxs, hs: set<Hash>) {
    && inputs.Keys == hs
    && forall h :: h in inputs ==>
         h in ix && inputs[h].0 == ix[h] && ReadTx(disk, ix[h].pos) == Some(inputs[h].1)
  }

  function Hashes(vin: seq<OutPoint>): set<Hash> { set o | o in vin :: o.hash }

  lemma HashesStep(vin: seq<OutPoint>, i: nat)
    requires i < |vin|
    ensures Hashes(vin[..i + 1]) == Hashes(vin[..i]) + {vin[i].hash}
  {
    assert vin[..i + 1] == vin[..i] + [vin[i]];
  }

  /** The second loop of FetchInputs: every output number must exist in the cached transaction. */
  method PrevoutsInRange(ghost disk: Disk, ghost ix: Index, inputs: PrevTxs, vin: seq<OutPoint>) returns (ok: bool)
    requires Caches(disk, ix, inputs, Hashes(vin))
    ensures ok <==> AllFetchable(disk, ix, vin)
  {
    for i := 0 to |vin|
      invariant forall j :: 0 <= j < i ==> Fetchable(disk, ix, vin[j])
    {
      var o := vin[i];
      assert o in vin && o.hash in Hashes(vin);
      if o.n >= |inputs[o.hash].1.vout| || o.n >= |inputs[o.hash].0.vSpent| {
        assert !Fetchable(disk, ix, vin[i]);
        return false;
      }
    }
    return true;
  }

  /** CTransaction::FetchInputs for a block: each previous transaction is looked up once, first among the
      queued changes, then in the database, and read from disk; then every output number is checked. */
  method FetchInputs(db: TxDb, ghost disk: Disk, ghost base: Index, queue: Index, tx: Tx)
      returns (v: Verdict, inputs: PrevTxs)
    requires db.txn.Some? && base == db.View() && disk == db.disk
    ensures v.Accepted? ==> AllFetchable(disk, base + queue, tx.vin) && Caches(disk, base + queue, inputs, Hashes(tx.vin))
    ensures v.Refused? ==> !AllFetchable(disk, base + queue, tx.vin)
    ensures db.reliable ==> !v.Faulted?
  {
    ghost var ix := base + queue;
    inputs := map[];
    assert tx.vin[..0] == [];
    for i := 0 to |tx.vin|
      invariant Caches(disk, ix, inputs, Hashes(tx.vin[..i]))
    {
      HashesStep(tx.vin, i);
      var h := tx.vin[i].hash;
      if h in inputs {
        continue;
      }
      var entry: TxIndex;
      if h in queue {
        entry := queue[h];
      } else {
        var found := db.ReadTxIndex(h);
        if found.None? {
          assert !Fetchable(disk, ix, tx.vin[i]);
          return Refused, map[];
        }
        entry := found.value;
      }
      var fault, prev := db.ReadTxFromDisk(entry.pos);
      if prev.None? {
        assert !fault ==> !Fetchable(disk, ix, tx.vin[i]);
        return if fault then Faulted else Refused, map[];
      }
      inputs := inputs[h := (entry, prev.value)];
    }
    assert tx.vin[..|tx.vin|] == tx.vin;
    var inRange := PrevoutsInRange(disk, ix, inputs, tx.vin);
    v := if inRange then Accepted else Refused;
  }

  /** The maturity walk of ConnectInputs. */
  method IsTooYoung(t: Tree, top: Hash, pos: DiskTxPos, maturity: nat) returns (young: bool)
    requires WellFormed(t) && top in t
    ensures young == TooYoung(t, top, top, pos, maturity)
  {
    var cur := Some(top);
    while cur.Some? && t[top].height - t[cur.value].height < maturity
      invariant cur.Some? ==> cur.value in t
      invariant TooYoung(t, top, top, pos, maturity) ==
                (cur.Some? && TooYoung(t, top, cur.value, pos, maturity))
      decreases if cur.Some? then t[cur.value].height + 1 else 0
    {
      if pos.Pos? && t[cur.value].blockPos == pos.blockPos && t[cur.value].file == pos.file {
        return true;
      }
      cur := t[cur.value].prev;
    }
    return false;
  }

  /** What the second loop of ConnectInputs keeps: the queue and the cache both show the inputs spent. */
  ghost predicate Spending(ix: Index, base: Index, queue: Index, inputs: PrevTxs, vin: seq<OutPoint>, i: nat, p: DiskTxPos) {
    && i <= |vin|
    && SpendAll(ix, vin[..i], p) == Some(base + queue)
    && forall h :: h in inputs ==> h in base + queue && inputs[h].0 == (base + queue)[h]
  }

  lemma SpendingStep(ix: Index, base: Index, queue: Index, inputs: PrevTxs, vin: seq<OutPoint>, i: nat, p: DiskTxPos)
    requires Spending(ix, base, queue, inputs, vin, i, p) && i < |vin| && vin[i].hash in inputs
    ensures var o := vin[i];
      && (o.n >= |inputs[o.hash].0.vSpent| || inputs[o.hash].0.vSpent[o.n].Pos? ==> SpendAll(ix, vin[..i + 1], p).None?)
      && (o.n < |inputs[o.hash].0.vSpent| && inputs[o.hash].0.vSpent[o.n].NullPos? ==>
            var e := inputs[o.hash].0.(vSpent := inputs[o.hash].0.vSpent[o.n := p]);
            Spending(ix, base, queue[o.hash := e], inputs[o.hash := (e, inputs[o.hash].1)], vin, i + 1, p))
  {
    var o := vin[i];
    assert vin[..i + 1][..i] == vin[..i];
    if o.n < |inputs[o.hash].0.vSpent| && inputs[o.hash].0.vSpent[o.n].NullPos? {
      var e := inputs[o.hash].0.(vSpent := inputs[o.hash].0.vSpent[o.n := p]);
      assert Mark(base + queue, o, p) == base + queue[o.hash := e];
    }
  }

  lemma {:induction false} SpendAllPrefix(ix: Index, vin: seq<OutPoint>, p: DiskTxPos, i: nat)
    requires i <= |vin| && SpendAll(ix, vin[..i], p).None?
    ensures SpendAll(ix, vin, p).None?
    decreases |vin| - i
  {
    if i < |vin| {
      assert vin[..i + 1][..i] == vin[..i];
      SpendAllPrefix(ix, vin, p, i + 1);
    } else {
      assert vin[..i] == vin;
    }
  }

  lemma ValueInStep(disk: Disk, ix: Index, vin: seq<OutPoint>, i: nat)
    requires i < |vin| && AllFetchable(disk, ix, vin)
    ensures AllFetchable(disk, ix, vin[..i]) && AllFetchable(disk, ix, vin[..i + 1])
    ensures ValueIn(disk, ix, vin[..i + 1]) == ValueIn(disk, ix, vin[..i]) + OutputFor(disk, ix, vin[i]).value
  {
    assert vin[..i + 1][..i] == vin[..i];
  }

  method ValueOut(vout: seq<TxOut>) returns (v: int)
    ensures v == SumOut(vout)
  {
    v := 0;
    assert vout[..0] == [];
    for i := 0 to |vout|
      invariant v == SumOut(vout[..i])
    {
      assert vout[..i + 1][..i] == vout[..i];
      v := v + vout[i].value;
    }
    assert vout[..|vout|] == vout;
  }

  /** CTransaction::GetValueIn over the cached inputs. */
  method GetValueIn(ghost disk: Disk, ghost ix: Index, inputs: PrevTxs, vin: seq<OutPoint>) returns (v: int)
    requires AllFetchable(disk, ix, vin) && Caches(disk, ix, inputs, Hashes(vin))
    ensures v == ValueIn(disk, ix, vin)
  {
    v := 0;
    assert vin[..0] == [];
    for i := 0 to |vin|
      invariant AllFetchable(disk, ix, vin[..i]) && v == ValueIn(disk, ix, vin[..i])
    {
      ValueInStep(disk, ix, vin, i);
      assert vin[i] in vin && vin[i].hash in Hashes(vin) && Fetchable(disk, ix, vin[i]);
      v := v + inputs[vin[i].hash].1.vout[vin[i].n].value;
    }
    assert vin[..|vin|] == vin;
  }

  method GetP2SHSigOpCount(c: Checks, ghost disk: Disk, ghost ix: Index, inputs: PrevTxs, tx: Tx) returns (n: nat)
    requires AllFetchable(disk, ix, tx.vin) && Caches(disk, ix, inputs, Hashes(tx.vin))
    ensures n == P2SHSigOps(c, disk, ix, tx, |tx.vin|)
  {
    n := 0;
    for i := 0 to |tx.vin|
      invariant n == P2SHSigOps(c, disk, ix, tx, i)
    {
      var o := tx.vin[i];
      assert o in tx.vin && o.hash in Hashes(tx.vin) && Fetchable(disk, ix, o);
      n := n + c.p2shSigOps(tx, i, inputs[o.hash].1.vout[o.n]);
    }
  }

  /** The first loop of ConnectInputs: ranges, coinbase maturity and money ranges. */
  method CheckInputs(env: Env, t: Tree, h: Hash, ghost c: Checks, ghost disk: Disk, ghost ix: Index,
                     inputs: PrevTxs, tx: Tx) returns (ok: bool, nValueIn: int)
    requires WellFormed(t) && h in t
    requires forall p :: c.immature(p) == TooYoung(t, h, h, p, env.baseMaturity)
    requires AllFetchable(disk, ix, tx.vin) && Caches(disk, ix, inputs, Hashes(tx.vin))
    ensures ok <==> forall i :: 0 <= i < |tx.vin| ==> InputCheap(c, disk, ix, tx, i)
    ensures ok ==> nValueIn == ValueIn(disk, ix, tx.vin)
  {
    nValueIn := 0;
    assert tx.vin[..0] == [];
    assert ValueIn(disk, ix, []) == 0;
    hide InputCheap, ValueIn, AllFetchable, Fetchable, TooYoung, WellFormed, Caches, Hashes;
    for i := 0 to |tx.vin|
      invariant AllFetchable(disk, ix, tx.vin[..i]) && nValueIn == ValueIn(disk, ix, tx.vin[..i])
      invariant forall j :: 0 <= j < i ==> InputCheap(c, disk, ix, tx, j)
    {
      var o := tx.vin[i];
      CheapIs(c, disk, ix, inputs, tx, i);
      var (txindex, txPrev) := inputs[o.hash];
      if txPrev.IsCoinBase() {
        var young := IsTooYoung(t, h, txindex.pos, env.baseMaturity);
        if young {
          return false, 0;
        }
      }
      var nValue := txPrev.vout[o.n].value;
      nValueIn := nValueIn + nValue;
      if !MoneyRange(nValue) || !MoneyRange(nValueIn) {
        return false, 0;
      }
      assert InputCheap(c, disk, ix, tx, i);
    }
    assert tx.vin[..|tx.vin|] == tx.vin;
    return true, nValueIn;
  }

  /** What an input's checks come to on the cached record and transaction. */
  lemma CheapIs(c: Checks, disk: Disk, ix: Index, inputs: PrevTxs, tx: Tx, i: nat)
    requires AllFetchable(disk, ix, tx.vin) && Caches(disk, ix, inputs, Hashes(tx.vin)) && i < |tx.vin|
    ensures AllFetchable(disk, ix, tx.vin[..i]) && AllFetchable(disk, ix, tx.vin[..i + 1])
    ensures var o := tx.vin[i];
            && o.hash in inputs && o.n < |inputs[o.hash].1.vout|
            && var (txindex, txPrev) := inputs[o.hash];
               var value := txPrev.vout[o.n].value;
            && ValueIn(disk, ix, tx.vin[..i + 1]) == ValueIn(disk, ix, tx.vin[..i]) + value
            && (InputCheap(c, disk, ix, tx, i) <==>
                  (txPrev.IsCoinBase() ==> !c.immature(txindex.pos)) && MoneyRange(value) && MoneyRange(ValueIn(disk, ix, tx.vin[..i + 1])))
  {
    var o := tx.vin[i];
    assert o in tx.vin && o.hash in Hashes(tx.vin) && Fetchable(disk, ix, o);
    ValueInStep(disk, ix, tx.vin, i);
  }

  /** InputAllowed without the signature check. */
  predicate InputCheap(c: Checks, disk: Disk, ix: Index, tx: Tx, i: nat)
    requires i < |tx.vin| && AllFetchable(disk, ix, tx.vin)
  {
    var o := tx.vin[i];
    && (Prev(disk, ix, o).value.IsCoinBase() ==> !c.immature(ix[o.hash].pos))
    && MoneyRange(OutputFor(disk, ix, o).value)
    && MoneyRange(ValueIn(disk, ix, tx.vin[..i + 1]))
  }

  /** The cached transaction of each input is the one at the same place in `prevs`. */
  ghost predicate SameTxs(inputs: PrevTxs, vin: seq<OutPoint>, prevs: seq<Tx>) {
    && |prevs| == |vin|
    && forall i :: 0 <= i < |vin| ==> vin[i].hash in inputs && inputs[vin[i].hash].1 == prevs[i]
  }

  /** The first `k` inputs pass (or skip) their signature check. */
  predicate AllVerify(c: Checks, prevs: seq<Tx>, tx: Tx, k: nat)
    requires k <= |prevs|
  {
    k > 0 ==> AllVerify(c, prevs, tx, k - 1) && c.verify(prevs[k - 1], tx, k - 1)
  }

  lemma {:induction false} AllVerifyMeaning(c: Checks, prevs: seq<Tx>, tx: Tx, k: nat)
    requires k <= |prevs|
    ensures AllVerify(c, prevs, tx, k) <==> forall i {:trigger prevs[i]} :: 0 <= i < k ==> c.verify(prevs[i], tx, i)
  {
    if k > 0 {
      AllVerifyMeaning(c, prevs, tx, k - 1);
    }
  }

  /** One turn of the second loop of ConnectInputs: the conflict check, the signature check, and the spent
      mark in cache and queue. */
  method SpendOne(c: Checks, ghost ix: Index, ghost base: Index, ghost prevs: seq<Tx>, cache: PrevTxs, queue: Index,
                  tx: Tx, i: nat, p: DiskTxPos) returns (ok: bool, inputs: PrevTxs, queue': Index)
    requires p.Pos? && i < |tx.vin|
    requires Spending(ix, base, queue, cache, tx.vin, i, p) && SameTxs(cache, tx.vin, prevs)
    ensures ok ==> Spending(ix, base, queue', inputs, tx.vin, i + 1, p) && SameTxs(inputs, tx.vin, prevs)
    ensures ok ==> c.verify(prevs[i], tx, i)
    ensures !ok ==> SpendAll(ix, tx.vin, p).None? || !c.verify(prevs[i], tx, i)
  {
    var o := tx.vin[i];
    SpendingStep(ix, base, queue, cache, tx.vin, i, p);
    var (txindex, txPrev) := cache[o.hash];
    if o.n >= |txindex.vSpent| || txindex.vSpent[o.n].Pos? {
      SpendAllPrefix(ix, tx.vin, p, i + 1);
      return false, cache, queue;
    }
    if !c.verify(txPrev, tx, i) {
      return false, cache, queue;
    }
    txindex := txindex.(vSpent := txindex.vSpent[o.n := p]);
    return true, cache[o.hash := (txindex, txPrev)], queue[o.hash := txindex];
  }

  /** The second loop of ConnectInputs. */
  method SpendInputs(c: Checks, ghost ix: Index, ghost base: Index, ghost prevs: seq<Tx>, cache: PrevTxs, queue: Index,
                     tx: Tx, p: DiskTxPos) returns (ok: bool, queue': Index)
    requires p.Pos? && SameTxs(cache, tx.vin, prevs) && ix == base + queue
    requires forall h :: h in cache ==> h in ix && cache[h].0 == ix[h]
    ensures ok == (SpendAll(ix, tx.vin, p).Some? && AllVerify(c, prevs, tx, |tx.vin|))
    ensures ok ==> SpendAll(ix, tx.vin, p) == Some(base + queue')
  {
    var inputs: PrevTxs := cache;
    queue' := queue;
    assert tx.vin[..0] == [];
    for i := 0 to |tx.vin|
      invariant Spending(ix, base, queue', inputs, tx.vin, i, p) && SameTxs(inputs, tx.vin, prevs)
      invariant AllVerify(c, prevs, tx, i)
    {
      ok, inputs, queue' := SpendOne(c, ix, base, prevs, inputs, queue', tx, i, p);
      if !ok {
        AllVerifyMeaning(c, prevs, tx, |tx.vin|);
        return;
      }
    }
    assert tx.vin[..|tx.vin|] == tx.vin;
    return true, queue';
  }

  ghost function Prevs(disk: Disk, ix: Index, vin: seq<OutPoint>): seq<Tx>
    requires AllFetchable(disk, ix, vin)
  {
    seq(|vin|, i requires 0 <= i < |vin| => Prev(disk, ix, vin[i]).value)
  }

  lemma PrevsCached(disk: Disk, ix: Index, inputs: PrevTxs, vin: seq<OutPoint>)
    requires AllFetchable(disk, ix, vin) && Caches(disk, ix, inputs, Hashes(vin))
    ensures SameTxs(inputs, vin, Prevs(disk, ix, vin))
  {
    forall i | 0 <= i < |vin|
      ensures vin[i].hash in inputs && inputs[vin[i].hash].1 == Prevs(disk, ix, vin)[i]
    {
      assert vin[i] in vin && vin[i].hash in Hashes(vin);
      assert Fetchable(disk, ix, vin[i]);
    }
  }

  lemma CheapAndVerified(c: Checks, disk: Disk, ix: Index, tx: Tx)
    requires AllFetchable(disk, ix, tx.vin)
    requires forall i :: 0 <= i < |tx.vin| ==> InputCheap(c, disk, ix, tx, i)
    ensures (forall i :: 0 <= i < |tx.vin| ==> InputAllowed(c, disk, ix, tx, i))
       <==> AllVerify(c, Prevs(disk, ix, tx.vin), tx, |tx.vin|)
  {
    var prevs := Prevs(disk, ix, tx.vin);
    AllVerifyMeaning(c, prevs, tx, |tx.vin|);
    forall i | 0 <= i < |tx.vin|
      ensures InputAllowed(c, disk, ix, tx, i) <==> c.verify(prevs[i], tx, i)
    {
      assert InputCheap(c, disk, ix, tx, i);
    }
  }

  /** CTransaction::ConnectInputs for a block: accepts exactly what the rules allow, and queues exactly the
      index changes they call for. */
  method ConnectInputs(env: Env, t: Tree, h: Hash, c: Checks, ghost disk: Disk, ghost ix: Index, ghost base: Index,
                       inputs: PrevTxs, queue: Index, tx: Tx, p: DiskTxPos) returns (ok: bool, queue': Index)
    requires WellFormed(t) && h in t
    requires forall q :: c.immature(q) == TooYoung(t, h, h, q, env.baseMaturity)
    requires p.Pos? && AllFetchable(disk, ix, tx.vin) && Caches(disk, ix, inputs, Hashes(tx.vin)) && ix == base + queue
    ensures ok <==> InputsAllowed(c, disk, ix, tx) && SpendAll(ix, tx.vin, p).Some?
    ensures ok ==> SpendAll(ix, tx.vin, p) == Some(base + queue')
  {
    var cheap, nValueIn := CheckInputs(env, t, h, c, disk, ix, inputs, tx);
    if !cheap {
      assert exists i :: 0 <= i < |tx.vin| && !InputCheap(c, disk, ix, tx, i);
      ghost var i :| 0 <= i < |tx.vin| && !InputCheap(c, disk, ix, tx, i);
      assert !InputAllowed(c, disk, ix, tx, i);
      return false, queue;
    }
    ghost var prevs := Prevs(disk, ix, tx.vin);
    PrevsCached(disk, ix, inputs, tx.vin);
    var spendOk, spent := SpendInputs(c, ix, base, prevs, inputs, queue, tx, p);
    CheapAndVerified(c, disk, ix, tx);
    if !spendOk {
      return false, queue;
    }
    var nValueOut := ValueOut(tx.vout);
    if nValueIn < nValueOut {
      return false, queue;
    }
    var nTxFee := nValueIn - nValueOut;
    if !MoneyRange(nTxFee) {
      return false, queue;
    }
    return true, spent;
  }

  lemma PutInQueue(base: Index, queue: Index, h: Hash, e: TxIndex)
    ensures (base + queue)[h := e] == base + queue[h := e]
  {
  }

  /** The part of ConnectBlock's loop that only a spending transaction goes through. */
  method ConnectSpender(env: Env, t: Tree, h: Hash, c: Checks, db: TxDb, ghost disk: Disk, ghost base: Index,
                        queue: Index, nSigOps: nat, tx: Tx, p: DiskTxPos)
      returns (v: Verdict, queue': Index, fee: int, ops: nat)
    requires db.txn.Some? && base == db.View() && disk == db.disk && WellFormed(t) && h in t && p.Pos?
    requires forall q :: c.immature(q) == TooYoung(t, h, h, q, env.baseMaturity)
    ensures v.Accepted? ==>
      && SpenderAllowed(c, disk, base + queue, tx, p, nSigOps)
      && fee == ValueIn(disk, base + queue, tx.vin) - SumOut(tx.vout)
      && ops == SpenderSigOps(c, disk, base + queue, tx, nSigOps)
      && SpendAll(base + queue, tx.vin, p) == Some(base + queue')
    ensures v.Refused? ==> !SpenderAllowed(c, disk, base + queue, tx, p, nSigOps)
    ensures db.reliable ==> !v.Faulted?
  {
    queue', fee, ops := queue, 0, nSigOps;
    var inputs;
    v, inputs := FetchInputs(db, disk, base, queue, tx);
    if !v.Accepted? {
      return;
    }
    if c.strictP2SH {
      var more := GetP2SHSigOpCount(c, disk, base + queue, inputs, tx);
      ops := ops + more;
      if ops > MAX_BLOCK_SIGOPS {
        v := Refused;
        return;
      }
    }
    var nValueIn := GetValueIn(disk, base + queue, inputs, tx.vin);
    var nValueOut := ValueOut(tx.vout);
    fee := nValueIn - nValueOut;
    var ok;
    ok, queue' := ConnectInputs(env, t, h, c, disk, base + queue, base, inputs, queue, tx, p);
    v := if ok then Accepted else Refused;
  }

  function SpenderSigOps(c: Checks, disk: Disk, ix: Index, tx: Tx, nSigOps: nat): nat
    requires AllFetchable(disk, ix, tx.vin)
  {
    if c.strictP2SH then nSigOps + P2SHSigOps(c, disk, ix, tx, |tx.vin|) else nSigOps
  }

  /** The rules ConnectTx applies to a spending transaction whose own operations are already counted. */
  predicate SpenderAllowed(c: Checks, disk: Disk, ix: Index, tx: Tx, p: DiskTxPos, nSigOps: nat) {
    && AllFetchable(disk, ix, tx.vin)
    && (c.strictP2SH ==> SpenderSigOps(c, disk, ix, tx, nSigOps) <= MAX_BLOCK_SIGOPS)
    && InputsAllowed(c, disk, ix, tx)
    && SpendAll(ix, tx.vin, p).Some?
  }

  lemma ConnectTxSpender(c: Checks, disk: Disk, t: Tally, tx: Tx, p: DiskTxPos)
    requires !tx.IsCoinBase() && t.sigOps + tx.sigOps <= MAX_BLOCK_SIGOPS
    ensures var ops := t.sigOps + tx.sigOps;
      ConnectTx(c, disk, t, tx, p) ==
        if !SpenderAllowed(c, disk, t.ix, tx, p, ops) then None
        else Some(Tally(SpendAll(t.ix, tx.vin, p).value[tx.hash := NewEntry(tx, p)],
                        t.fees + (ValueIn(disk, t.ix, tx.vin) - SumOut(tx.vout)),
                        SpenderSigOps(c, disk, t.ix, tx, ops)))
  {
  }

  /** One turn of ConnectBlock's loop, after the BIP30 check. */
  method ConnectOne(env: Env, t: Tree, h: Hash, c: Checks, db: TxDb, ghost disk: Disk, ghost base: Index,
                    queue: Index, nFees: int, nSigOps: nat, tx: Tx, p: DiskTxPos)
      returns (v: Verdict, queue': Index, fees': int, ops': nat)
    requires db.txn.Some? && base == db.View() && disk == db.disk && WellFormed(t) && h in t && p.Pos?
    requires forall q :: c.immature(q) == TooYoung(t, h, h, q, env.baseMaturity)
    ensures v.Accepted? ==>
      ConnectTx(c, disk, Tally(base + queue, nFees, nSigOps), tx, p) == Some(Tally(base + queue', fees', ops'))
    ensures v.Refused? ==> ConnectTx(c, disk, Tally(base + queue, nFees, nSigOps), tx, p).None?
    ensures db.reliable ==> !v.Faulted?
  {
    queue', fees', ops' := queue, nFees, nSigOps + tx.sigOps;
    if ops' > MAX_BLOCK_SIGOPS {
      v := Refused;
      return;
    }
    v := Accepted;
    if !tx.IsCoinBase() {
      ConnectTxSpender(c, disk, Tally(base + queue, nFees, nSigOps), tx, p);
      var fee;
      v, queue', fee, ops' := ConnectSpender(env, t, h, c, db, disk, base, queue, ops', tx, p);
      if !v.Accepted? {
        return;
      }
      fees' := nFees + fee;
    }
    PutInQueue(base, queue', tx.hash, NewEntry(tx, p));
    queue' := queue'[tx.hash := NewEntry(tx, p)];
  }

  /** The BIP30 check of one identifier. */
  method OverwritesUnspent(db: TxDb, h: Hash) returns (bad: bool)
    requires db.txn.Some?
    ensures bad <==> !FullySpentOrAbsent(db.View(), h)
  {
    var found := db.ReadTxIndex(h);
    if found.Some? {
      var e := found.value;
      for i := 0 to |e.vSpent|
        invariant forall j :: 0 <= j < i ==> e.vSpent[j].Pos?
      {
        if e.vSpent[i].NullPos? {
          assert e.vSpent[i] in e.vSpent;
          return true;
        }
      }
    }
    return false;
  }

  lemma QueueStep(ix: Index, queue: Index, todo: set<Hash>, h: Hash)
    requires h in todo && h in queue
    ensures (ix + (queue - todo))[h := queue[h]] == ix + (queue - (todo - {h}))
  {
  }

  /** Writing the queued changes, in any order, adds exactly the queue to the index. */
  method WriteQueue(db: TxDb, queue: Index) returns (ok: bool)
    requires db.txn.Some?
    modifies db`txn, db`broken
    ensures db.txn.Some? && (old(db.broken) ==> db.broken)
    ensures ok ==> db.Now(old(db.txn).value.tx + queue, old(db.txn).value.blockIndex, old(db.txn).value.best)
                   && db.broken == old(db.broken)
    ensures !ok ==> db.broken
    ensures db.reliable ==> ok
  {
    var todo := queue.Keys;
    ghost var before, cur := db.txn.value, db.txn.value.tx;
    QueueStart(cur, queue);
    while todo != {}
      invariant todo <= queue.Keys && db.broken == old(db.broken)
      invariant db.Now(cur, before.blockIndex, before.best)
      invariant cur == before.tx + (queue - todo)
      decreases |todo|
    {
      var h := AnyOf(todo);
      QueueStep(before.tx, queue, todo, h);
      ok := db.UpdateTxIndex(h, queue[h]);
      if !ok {
        return;
      }
      cur := cur[h := queue[h]];
      todo := todo - {h};
    }
    ok := true;
  }

  lemma QueueStart(ix: Index, queue: Index)
    ensures ix + (queue - queue.Keys) == ix
    ensures queue - {} == queue
  {
  }

  lemma {:induction false} ConnectTxsPrefix(c: Checks, disk: Disk, ix: Index, b: Block, file: nat, blockPos: nat, k: nat)
    requires k <= |b.vtx| && ConnectTxs(c, disk, ix, b, file, blockPos, k).None?
    ensures ConnectTxs(c, disk, ix, b, file, blockPos, |b.vtx|).None?
    decreases |b.vtx| - k
  {
    if k < |b.vtx| {
      ConnectTxsPrefix(c, disk, ix, b, file, blockPos, k + 1);
    }
  }

  /** The loop of ConnectBlock: BIP30, inputs and queue for every transaction, with running totals. */
  method ConnectAll(env: Env, t: Tree, h: Hash, c: Checks, db: TxDb, ghost disk: Disk, ghost base: Index, b: Block)
      returns (v: Verdict, queue: Index, nFees: int)
    requires db.txn.Some? && base == db.View() && disk == db.disk && WellFormed(t) && h in t
    requires forall q :: c.immature(q) == TooYoung(t, h, h, q, env.baseMaturity)
    ensures v.Accepted? ==>
      && (Bip30Exempt(t[h].height, h) || Bip30(base, b))
      && ConnectTxs(c, disk, base, b, t[h].file, t[h].blockPos, |b.vtx|).Some?
      && ConnectTxs(c, disk, base, b, t[h].file, t[h].blockPos, |b.vtx|).value.ix == base + queue
      && ConnectTxs(c, disk, base, b, t[h].file, t[h].blockPos, |b.vtx|).value.fees == nFees
    ensures v.Refused? ==>
      || !(Bip30Exempt(t[h].height, h) || Bip30(base, b))
      || ConnectTxs(c, disk, base, b, t[h].file, t[h].blockPos, |b.vtx|).None?
    ensures db.reliable ==> !v.Faulted?
  {
    hide ConnectTx;
    var fEnforceBIP30 := !Bip30Exempt(t[h].height, h);
    var nSigOps: nat;
    queue, nFees, nSigOps := map[], 0, 0;
    assert base + queue == base;
    for i := 0 to |b.vtx|
      invariant fEnforceBIP30 ==> forall j :: 0 <= j < i ==> FullySpentOrAbsent(base, b.vtx[j].hash)
      invariant ConnectTxs(c, disk, base, b, t[h].file, t[h].blockPos, i) == Some(Tally(base + queue, nFees, nSigOps))
    {
      if fEnforceBIP30 {
        var bad := OverwritesUnspent(db, b.vtx[i].hash);
        if bad {
          assert b.vtx[i] in b.vtx;
          return Refused, map[], 0;
        }
      }
      v, queue, nFees, nSigOps := ConnectOne(env, t, h, c, db, disk, base, queue, nFees, nSigOps,
                                             b.vtx[i], TxPosAt(b, t[h].file, t[h].blockPos, i));
      if !v.Accepted? {
        if v.Refused? {
          ConnectTxsPrefix(c, disk, base, b, t[h].file, t[h].blockPos, i + 1);
        }
        return;
      }
    }
    v := Accepted;
  }

  /** The rules of ConnectBlock with the checks in force for block `h` of the tree. */
  function ConnectsTo(env: Env, t: Tree, h: Hash, disk: Disk, ix: Index, b: Block, bestHeight: int): Option<Index>
    requires WellFormed(t) && h in t
  {
    ConnectSpec.ConnectBlock(ChecksFor(env, t, h, b.time, bestHeight), disk, ix, b,
                             t[h].file, t[h].blockPos, t[h].height)
  }

  /** ConnectBlock from its loop to its first write, for a block that passed CheckBlock. */
  method QueueChecked(env: Env, t: Tree, h: Hash, c: Checks, db: TxDb, ghost disk: Disk, ghost base: Index, b: Block)
      returns (v: Verdict, queue: Index)
    requires db.txn.Some? && base == db.View() && disk == db.disk && WellFormed(t) && h in t && b.hash == h && CheckBlock(b)
    requires forall q :: c.immature(q) == TooYoung(t, h, h, q, env.baseMaturity)
    ensures v.Accepted? ==>
      ConnectSpec.ConnectBlock(c, disk, base, b, t[h].file, t[h].blockPos, t[h].height) == Some(base + queue)
    ensures v.Refused? ==> ConnectSpec.ConnectBlock(c, disk, base, b, t[h].file, t[h].blockPos, t[h].height).None?
    ensures db.reliable ==> !v.Faulted?
  {
    hide ConnectSpec.ConnectBlock, ConnectTxs, TooYoung, Bip30, CheckBlock;
    SpecVerdict(c, disk, base, b, t[h].file, t[h].blockPos, t[h].height);
    var nFees;
    v, queue, nFees := ConnectAll(env, t, h, c, db, disk, base, b);
    if v.Accepted? {
      var coinbaseOut := ValueOut(b.vtx[0].vout);
      v := if coinbaseOut > Reward(t[h].height, nFees) then Refused else Accepted;
    }
  }

  /** ConnectBlock up to its first write: checks the block and computes the queued index changes. */
  method CheckAndQueue(env: Env, t: Tree, h: Hash, db: TxDb, ghost disk: Disk, ghost base: Index, b: Block, bestHeight: int)
      returns (v: Verdict, queue: Index)
    requires db.txn.Some? && base == db.View() && disk == db.disk && WellFormed(t) && h in t && b.hash == h
    ensures v.Accepted? ==> ConnectsTo(env, t, h, disk, base, b, bestHeight) == Some(base + queue)
    ensures v.Refused? ==> ConnectsTo(env, t, h, disk, base, b, bestHeight).None?
    ensures v.Accepted? ==> BlockLaw.Lawful(env, t, h, disk, base, b, bestHeight)
    ensures v.Refused? ==> !BlockLaw.Lawful(env, t, h, disk, base, b, bestHeight)
    ensures db.reliable ==> !v.Faulted?
  {
    hide ConnectSpec.ConnectBlock, TooYoung, CheckBlock, BlockLaw.Lawful;
    ConnectsIfLawful(env, t, h, disk, base, b, bestHeight);
    var c := ChecksFor(env, t, h, b.time, bestHeight);
    if !CheckBlock(b) {
      SpecRefuses(c, disk, base, b, t[h].file, t[h].blockPos, t[h].height);
      return Refused, map[];
    }
    v, queue := QueueChecked(env, t, h, c, db, disk, base, b);
  }

  /** The rules with the checks in force accept exactly the lawful blocks, and apply them. */
  lemma ConnectsIfLawful(env: Env, t: Tree, h: Hash, disk: Disk, ix: Index, b: Block, bestHeight: int)
    requires WellFormed(t) && h in t
    ensures var r := ConnectsTo(env, t, h, disk, ix, b, bestHeight);
            && (r.Some? <==> BlockLaw.Lawful(env, t, h, disk, ix, b, bestHeight))
            && (r.Some? ==> r == ApplyBlock(ix, b, t[h].file, t[h].blockPos))
  {
    hide BlockLaw.Lawful, ConnectSpec.ConnectBlock, LawMatches.StandsFor, ChecksFor;
    ChecksStandForLaw(env, t, h, b.time, bestHeight);
    LawMatches.RulesAreLaw(ChecksFor(env, t, h, b.time, bestHeight), env, t, h, disk, ix, b, bestHeight);
  }

  lemma ChecksStandForLaw(env: Env, t: Tree, h: Hash, time: nat, bestHeight: int)
    requires WellFormed(t) && h in t
    ensures LawMatches.StandsFor(ChecksFor(env, t, h, time, bestHeight), env, t, h, time, bestHeight)
  {
    forall pos ensures TooYoung(t, h, h, pos, env.baseMaturity) <==> BlockLaw.AmongLast(t, h, pos, env.baseMaturity) {
      TooYoungMeaning(t, h, h, pos, env.baseMaturity);
    }
    hide TooYoung, BlockLaw.AmongLast;
  }

  lemma SpecRefuses(c: Checks, disk: Disk, ix: Index, b: Block, file: nat, blockPos: nat, height: nat)
    requires !CheckBlock(b)
    ensures ConnectSpec.ConnectBlock(c, disk, ix, b, file, blockPos, height).None?
  {
  }

  lemma SpecVerdict(c: Checks, disk: Disk, ix: Index, b: Block, file: nat, blockPos: nat, height: nat)
    requires CheckBlock(b)
    ensures b.vtx != []
    ensures var r := ConnectTxs(c, disk, ix, b, file, blockPos, |b.vtx|);
      ConnectSpec.ConnectBlock(c, disk, ix, b, file, blockPos, height) ==
        if (Bip30Exempt(height, b.hash) || Bip30(ix, b)) && r.Some? && SumOut(b.vtx[0].vout) <= Reward(height, r.value.fees)
        then Some(r.value.ix) else None
  {
  }

  /** The block index with the parent of `h` pointing forward to `next`. */
  function WithNext(bi: map<Hash, DiskBlockIndex>, t: Tree, h: Hash, next: Option<Hash>): map<Hash, DiskBlockIndex>
    requires WellFormed(t) && h in t
  {
    if t[h].prev.None? then bi else bi[t[h].prev.value := DiskBlockIndex(t[t[h].prev.value], next)]
  }

  /** CBlock::ConnectBlock. Unless a storage operation fails, it accepts exactly what the rules accept, and
      then the open transaction holds the index they call for, with the parent's record pointing forward. */
  method ConnectBlock(env: Env, t: Tree, h: Hash, db: TxDb, b: Block, bestHeight: int) returns (v: Verdict)
    requires db.txn.Some? && WellFormed(t) && h in t && b.hash == h
    modifies db`txn, db`broken
    ensures db.txn.Some? && (old(db.broken) ==> db.broken)
    ensures v.Accepted? && !db.broken ==>
      var r := ConnectsTo(env, t, h, db.disk, old(db.txn).value.tx, b, bestHeight);
      r.Some? && db.Now(r.value, WithNext(old(db.txn).value.blockIndex, t, h, Some(h)), old(db.txn).value.best)
    ensures v.Refused? && !db.broken ==> ConnectsTo(env, t, h, db.disk, old(db.txn).value.tx, b, bestHeight).None?
    ensures v.Accepted? && !db.broken ==>
      && BlockLaw.Lawful(env, t, h, db.disk, old(db.txn).value.tx, b, bestHeight)
      && ApplyBlock(old(db.txn).value.tx, b, t[h].file, t[h].blockPos) == Some(db.txn.value.tx)
    ensures v.Refused? && !db.broken ==> !BlockLaw.Lawful(env, t, h, db.disk, old(db.txn).value.tx, b, bestHeight)
    ensures db.reliable ==> !v.Faulted? && db.broken == old(db.broken)
  {
    hide ConnectsTo, BlockLaw.Lawful;
    ConnectsIfLawful(env, t, h, db.disk, db.View(), b, bestHeight);
    var queue;
    v, queue := CheckAndQueue(env, t, h, db, db.disk, db.View(), b, bestHeight);
    if !v.Accepted? {
      return;
    }
    var ok := WriteQueue(db, queue);
    if ok && t[h].prev.Some? {
      ok := db.WriteBlockIndex(t[h].prev.value, DiskBlockIndex(t[t[h].prev.value], Some(h)));
    }
    v := if ok then Accepted else Faulted;
  }

  lemma {:induction false} ReleaseAllPrefix(ix: Index, vin: seq<OutPoint>, i: nat)
    requires i <= |vin| && ReleaseAll(ix, vin[..i]).None?
    ensures ReleaseAll(ix, vin).None?
    decreases |vin| - i
  {
    if i < |vin| {
      assert vin[..i + 1][..i] == vin[..i];
      ReleaseAllPrefix(ix, vin, i + 1);
    } else {
      assert vin[..i] == vin;
    }
  }

  /** CTransaction::DisconnectInputs. The result of the final erase is ignored, as in the source. */
  method DisconnectInputs(db: TxDb, tx: Tx) returns (v: Verdict)
    requires db.txn.Some?
    modifies db`txn, db`broken
    ensures db.txn.Some? && (old(db.broken) ==> db.broken)
    ensures v.Accepted? && !db.broken ==>
      && UndoTx(old(db.txn).value.tx, tx).Some?
      && db.Now(UndoTx(old(db.txn).value.tx, tx).value, old(db.txn).value.blockIndex, old(db.txn).value.best)
    ensures v.Refused? && !db.broken ==> UndoTx(old(db.txn).value.tx, tx).None?
    ensures db.reliable ==> !v.Faulted? && db.broken == old(db.broken)
  {
    ghost var before := db.txn.value;
    var vin := tx.Inputs();
    assert vin[..0] == [];
    for i := 0 to |vin|
      invariant db.txn.Some? && db.broken == old(db.broken)
      invariant !db.broken ==>
        && ReleaseAll(before.tx, vin[..i]).Some?
        && db.Now(ReleaseAll(before.tx, vin[..i]).value, before.blockIndex, before.best)
    {
      assert vin[..i + 1][..i] == vin[..i];
      var prevout := vin[i];
      var found := db.ReadTxIndex(prevout.hash);
      if found.None? || prevout.n >= |found.value.vSpent| {
        if !db.broken {
          ReleaseAllPrefix(before.tx, vin, i + 1);
        }
        return Refused;
      }
      var ok := db.UpdateTxIndex(prevout.hash, found.value.(vSpent := found.value.vSpent[prevout.n := NullPos]));
      if !ok {
        return Faulted;
      }
    }
    assert vin[..|vin|] == vin;
    db.EraseTxIndex(tx.hash);
    return Accepted;
  }

  /** CBlock::DisconnectBlock: the transactions are undone last one first, and the parent's record on disk
      loses its forward link. */
  method DisconnectBlock(t: Tree, h: Hash, db: TxDb, b: Block) returns (v: Verdict)
    requires db.txn.Some? && WellFormed(t) && h in t
    modifies db`txn, db`broken
    ensures db.txn.Some? && (old(db.broken) ==> db.broken)
    ensures v.Accepted? && !db.broken ==>
      && UndoBlock(old(db.txn).value.tx, b).Some?
      && db.Now(UndoBlock(old(db.txn).value.tx, b).value, WithNext(old(db.txn).value.blockIndex, t, h, None),
                old(db.txn).value.best)
    ensures v.Refused? && !db.broken ==> UndoBlock(old(db.txn).value.tx, b).None?
    ensures db.reliable ==> !v.Faulted? && db.broken == old(db.broken)
  {
    ghost var before := db.txn.value;
    var i := |b.vtx|;
    while i > 0
      invariant 0 <= i <= |b.vtx|
      invariant db.txn.Some? && (old(db.broken) ==> db.broken) && (db.reliable ==> db.broken == old(db.broken))
      invariant !db.broken ==>
        && db.Now(db.txn.value.tx, before.blockIndex, before.best)
        && UndoTxs(db.txn.value.tx, b, i) == UndoBlock(before.tx, b)
    {
      i := i - 1;
      v := DisconnectInputs(db, b.vtx[i]);
      if !v.Accepted? {
        return;
      }
    }
    v := Accepted;
    if t[h].prev.Some? {
      var ok := db.WriteBlockIndex(t[h].prev.value, DiskBlockIndex(t[t[h].prev.value], None));
      v := if ok then Accepted else Faulted;
    }
  }
}
