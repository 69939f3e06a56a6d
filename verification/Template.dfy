/** What CreateNewBlock's test pool accepts, against what ConnectBlock accepts of the block made from it. */
module BlockTemplate {
  import opened Basics
  import opened ChainTypes
  import opened TxIndexSpec
  import opened ConnectSpec
  import opened BlockCreation
  import opened BlockTree
  import opened Connect
  import ChainSpec
  import BlockLaw
  import LawMatches

  // ---------------------------------------------------------------- the test pool

  /** FetchInputs, GetP2SHSigOpCount and ConnectInputs for a pool transaction, on an index with the test pool laid over it.
      A previous transaction that is itself in the test pool is read from disk, at the position its entry gives. */
  function TestConnect(c: Checks, disk: Disk, ix: Index, tx: Tx): Option<Connected<Index>> {
    if !AllFetchable(disk, ix, tx.vin) || !InputsAllowed(c, disk, ix, tx) || SpendAll(ix, tx.vin, POOL_POS).None? then None
    else Some(Connected(SpendAll(ix, tx.vin, POOL_POS).value[tx.hash := NewEntry(tx, POOL_POS)],
                        ValueIn(disk, ix, tx.vin) - SumOut(tx.vout), P2SHSigOps(c, disk, ix, tx, |tx.vin|)))
  }

  function Tester(c: Checks, disk: Disk): Try<Index> {
    (ix: Index, tx: Tx) => TestConnect(c, disk, ix, tx)
  }

  /** VerifySignature compares the previous transaction's hash with the one the input names. */
  ghost predicate HashChecked(c: Checks) {
    forall prev: Tx, tx: Tx, i: nat :: c.verify(prev, tx, i) ==> i < |tx.vin| && prev.hash == tx.vin[i].hash
  }

  /** A memory pool: each transaction under its hash, well formed. */
  ghost predicate PoolOk(m: MemPool) {
    forall h :: h in m ==> m[h].tx.hash == h && m[h].tx.size > 0 && CheckTransaction(m[h].tx)
  }

  /** No entry of the database has the position of transactions in no block, and what stands at that position on disk is
      not a transaction of the pool. */
  ghost predicate Unmarked(m: MemPool, disk: Disk, ix: Index) {
    && (forall h :: h in ix ==> ix[h].pos != POOL_POS)
    && (ReadTx(disk, POOL_POS).Some? ==> ReadTx(disk, POOL_POS).value.hash !in m)
  }

  /** The test pool after some choices: their entries are the marked ones; what else there is keeps its position. */
  ghost predicate Pooled(ix0: Index, ix: Index, ids: set<Hash>) {
    forall h :: h in ix ==> if h in ids then ix[h].pos == POOL_POS else h in ix0 && ix[h].pos == ix0[h].pos
  }

  /** So an input that spends a chosen transaction is never accepted: what is read for it is another transaction. */
  lemma SpendsNoChoice(m: MemPool, c: Checks, disk: Disk, ix0: Index, ix: Index, ids: set<Hash>, tx: Tx)
    requires HashChecked(c) && Unmarked(m, disk, ix0) && Pooled(ix0, ix, ids) && forall h :: h in ids ==> h in m
    requires TestConnect(c, disk, ix, tx).Some?
    ensures forall i :: 0 <= i < |tx.vin| ==> tx.vin[i].hash !in ids
  {
    hide SpendAll, P2SHSigOps, ValueIn;
    forall i | 0 <= i < |tx.vin| ensures tx.vin[i].hash !in ids {
      var o := tx.vin[i];
      assert InputAllowed(c, disk, ix, tx, i) && Fetchable(disk, ix, o);
      assert c.verify(Prev(disk, ix, o).value, tx, i);
    }
  }

  lemma StaysPooled(c: Checks, disk: Disk, ix0: Index, ix: Index, ids: set<Hash>, tx: Tx)
    requires Pooled(ix0, ix, ids) && TestConnect(c, disk, ix, tx).Some?
    ensures Pooled(ix0, TestConnect(c, disk, ix, tx).value.pool, ids + {tx.hash})
  {
    hide AllFetchable, InputsAllowed, P2SHSigOps, ValueIn;
    SpendAllMeaning(ix, tx.vin, POOL_POS);
    hide SpendAll;
  }

  /** The choices lead to a test pool in which exactly they are marked, and none of them spends another. */
  lemma {:induction false} ChoicesApart(m: MemPool, c: Checks, disk: Disk, ix0: Index, ids: seq<Hash>)
    requires PoolOk(m) && HashChecked(c) && Unmarked(m, disk, ix0) && Filled(m, Tester(c, disk), ix0, ids).Some?
    ensures Pooled(ix0, Filled(m, Tester(c, disk), ix0, ids).value.pool, Elems(ids))
    ensures forall k :: 0 <= k < |ids| ==> ids[k] in m
    ensures forall k, i :: 0 <= k < |ids| && 0 <= i < |m[ids[k]].tx.vin| ==> m[ids[k]].tx.vin[i].hash !in ids[..k]
  {
    if ids != [] {
      var front, h := ids[..|ids| - 1], ids[|ids| - 1];
      ChoicesApart(m, c, disk, ix0, front);
      var ix, tx := Filled(m, Tester(c, disk), ix0, front).value.pool, m[h].tx;
      hide TestConnect;
      assert TestConnect(c, disk, ix, tx).Some?;
      SpendsNoChoice(m, c, disk, ix0, ix, Elems(front), tx);
      StaysPooled(c, disk, ix0, ix, Elems(front), tx);
      assert ids == front + [h] && Elems(ids) == Elems(front) + {h};
      LastIsApart(m, front, h);
    }
  }

  lemma LastIsApart(m: MemPool, front: seq<Hash>, h: Hash)
    requires h in m && forall k :: 0 <= k < |front| ==> front[k] in m
    requires forall k, i :: 0 <= k < |front| && 0 <= i < |m[front[k]].tx.vin| ==> m[front[k]].tx.vin[i].hash !in front[..k]
    requires forall i :: 0 <= i < |m[h].tx.vin| ==> m[h].tx.vin[i].hash !in Elems(front)
    ensures var ids := front + [h];
            && (forall k :: 0 <= k < |ids| ==> ids[k] in m)
            && forall k, i :: 0 <= k < |ids| && 0 <= i < |m[ids[k]].tx.vin| ==> m[ids[k]].tx.vin[i].hash !in ids[..k]
  {
    var ids := front + [h];
    forall k, i | 0 <= k < |ids| && 0 <= i < |m[ids[k]].tx.vin| ensures m[ids[k]].tx.vin[i].hash !in ids[..k] {
      if k < |front| {
        assert ids[k] == front[k] && ids[..k] == front[..k];
      } else {
        assert ids[..k] == front;
      }
    }
  }

  /** So no transaction with a parent in the pool is ever chosen, although the choice waits for parents: those chosen have
      none. */
  lemma DependentsLeftOut(m: MemPool, c: Checks, disk: Disk, ix0: Index, ids: seq<Hash>)
    requires PoolOk(m) && HashChecked(c) && Unmarked(m, disk, ix0) && Filled(m, Tester(c, disk), ix0, ids).Some?
    requires InOrder(m, ids)
    ensures forall h :: h in ids ==> h in m && Parents(m, h) == {}
  {
    ChoicesApart(m, c, disk, ix0, ids);
    forall h | h in ids ensures h in m && Parents(m, h) == {} {
      var k :| 0 <= k < |ids| && ids[k] == h;
      forall o | o in m[h].tx.vin ensures o.hash !in m {
        var i :| 0 <= i < |m[h].tx.vin| && m[h].tx.vin[i] == o;
        assert m[ids[k]].tx.vin[i].hash !in ids[..k];
        assert o.hash in m ==> o.hash in Parents(m, h);
      }
    }
  }

  /** A transaction that spends `from` of another, worth 10. */
  function Passing(h: Hash, from: OutPoint): Tx { Tx(h, [from], [TxOut(10, 0)], 1, 0) }

  /** Blocks 8 and 200 of file 0 hold one transaction each. */
  function TwoBlocks(): Disk {
    map[(0, 8) := Block(8, 7, 1, 0, [Passing(1, OutPoint(5, 0))]), (0, 200) := Block(9, 8, 1, 0, [Passing(2, OutPoint(1, 0))])]
  }

  /** Checks that only compare hashes. */
  function OnlyHashes(): Checks {
    Checks(_ => false, (prev: Tx, tx: Tx, i: nat) => i < |tx.vin| && prev.hash == tx.vin[i].hash, true, (_, _, _) => 0)
  }

  /** A case: transaction 2 spends 1, which is in a block, and 3 spends 2. The test pool takes 2 and then refuses 3, which
      connects once 2 is in a block. */
  lemma DependentRefused()
    ensures var c, disk := OnlyHashes(), TwoBlocks();
            var ix := map[1 := TxIndex(Pos(0, 8, 89), [NullPos])];
            var mined := map[1 := TxIndex(Pos(0, 8, 89), [Pos(0, 200, 281)]), 2 := TxIndex(Pos(0, 200, 281), [NullPos])];
            && HashChecked(c) && TestConnect(c, disk, ix, Passing(2, OutPoint(1, 0))).Some?
            && TestConnect(c, disk, TestConnect(c, disk, ix, Passing(2, OutPoint(1, 0))).value.pool, Passing(3, OutPoint(2, 0))).None?
            && TestConnect(c, disk, mined, Passing(3, OutPoint(2, 0))).Some?
  {
    var c, disk := OnlyHashes(), TwoBlocks();
    var ix: Index := map[1 := TxIndex(Pos(0, 8, 89), [NullPos])];
    var mined: Index := map[1 := TxIndex(Pos(0, 8, 89), [Pos(0, 200, 281)]), 2 := TxIndex(Pos(0, 200, 281), [NullPos])];
    ReadBack(disk, 0, 8, 0);
    ReadBack(disk, 0, 200, 0);
    PassesOn(c, disk, ix, 1, 2);
    PassesOn(c, disk, mined, 2, 3);
    SpendAllMeaning(ix, [OutPoint(1, 0)], POOL_POS);
    var pool := TestConnect(c, disk, ix, Passing(2, OutPoint(1, 0))).value.pool;
    assert pool[2].pos == POOL_POS && ReadTx(disk, POOL_POS).None?;
    assert !Fetchable(disk, pool, Passing(3, OutPoint(2, 0)).vin[0]);
  }

  lemma PassesOn(c: Checks, disk: Disk, ix: Index, from: Hash, to: Hash)
    requires c == OnlyHashes() && from in ix && ix[from].vSpent == [NullPos]
    requires exists o :: ReadTx(disk, ix[from].pos) == Some(Passing(from, o)) && !o.IsNull()
    ensures TestConnect(c, disk, ix, Passing(to, OutPoint(from, 0))).Some?
  {
    var tx := Passing(to, OutPoint(from, 0));
    var o := tx.vin[0];
    assert Fetchable(disk, ix, o) && OutputFor(disk, ix, o).value == 10;
    assert tx.vin[..0] == [] && tx.vin[..1] == tx.vin;
    assert ValueIn(disk, ix, tx.vin[..0]) == 0 && ValueIn(disk, ix, tx.vin) == 10;
    assert tx.vout[..0] == [] && SumOut(tx.vout[..0]) == 0 && SumOut(tx.vout) == 10;
    assert InputAllowed(c, disk, ix, tx, 0);
    SpendAllMeaning(ix, tx.vin, POOL_POS);
    assert Unspent(ix, o);
  }

  // ---------------------------------------------------------------- the block made from the choice

  /** The checks of a block are no stricter, input by input, than those of the test pool. */
  ghost predicate NoStricter(c: Checks, d: Checks, ix0: Index) {
    && d.strictP2SH && d.p2shSigOps == c.p2shSigOps
    && (forall h :: h in ix0 && d.immature(ix0[h].pos) ==> c.immature(ix0[h].pos))
    && (forall prev, tx, i :: c.verify(prev, tx, i) ==> d.verify(prev, tx, i))
  }

  /** Test pool `p` and the index `r` of the block being connected show the same outputs spent, except that `r` has the
      coinbase `cb` already; only chosen transactions stand at different positions. */
  ghost predicate Matches(p: Index, r: Index, ids: set<Hash>, cb: Hash) {
    && (forall h :: h in r <==> h in p || h == cb)
    && (forall h :: h in p && h != cb ==> SameEntry(p[h], r[h]) && (h !in ids ==> r[h].pos == p[h].pos))
    && FullySpentOrAbsent(p, cb)
  }

  ghost predicate SameEntry(a: TxIndex, b: TxIndex) {
    && |a.vSpent| == |b.vSpent|
    && forall n :: 0 <= n < |a.vSpent| ==> (a.vSpent[n].NullPos? <==> b.vSpent[n].NullPos?)
  }

  /** What an accepted input finds, it finds in the block's index too. */
  lemma SameInput(disk: Disk, disk': Disk, ix0: Index, p: Index, r: Index, ids: set<Hash>, cb: Hash, o: OutPoint)
    requires Matches(p, r, ids, cb) && Pooled(ix0, p, ids) && ChainSpec.Grows(disk, disk') && o.hash !in ids
    requires Fetchable(disk, p, o) && Unspent(p, o)
    ensures o.hash != cb && Fetchable(disk', r, o) && Unspent(r, o)
    ensures Prev(disk', r, o) == Prev(disk, p, o) && OutputFor(disk', r, o) == OutputFor(disk, p, o)
    ensures o.hash in ix0 && r[o.hash].pos == p[o.hash].pos == ix0[o.hash].pos
  {
    assert p[o.hash].vSpent[o.n] in p[o.hash].vSpent;
    assert o.hash != cb;
    assert SameEntry(p[o.hash], r[o.hash]);
  }

  lemma SameInputs(disk: Disk, disk': Disk, ix0: Index, p: Index, r: Index, ids: set<Hash>, cb: Hash, vin: seq<OutPoint>)
    requires Matches(p, r, ids, cb) && Pooled(ix0, p, ids) && ChainSpec.Grows(disk, disk')
    requires AllFetchable(disk, p, vin) && forall o :: o in vin ==> o.hash !in ids && Unspent(p, o)
    ensures AllFetchable(disk', r, vin)
    ensures forall o :: o in vin ==>
              && o.hash != cb && Unspent(r, o) && Fetchable(disk, p, o) && Fetchable(disk', r, o)
              && Prev(disk', r, o) == Prev(disk, p, o) && OutputFor(disk', r, o) == OutputFor(disk, p, o)
              && o.hash in ix0 && r[o.hash].pos == p[o.hash].pos == ix0[o.hash].pos
  {
    hide Pooled, Matches, Unspent, Prev;
    forall o | o in vin
      ensures o.hash != cb && Unspent(r, o) && Fetchable(disk, p, o) && Fetchable(disk', r, o)
      ensures Prev(disk', r, o) == Prev(disk, p, o) && OutputFor(disk', r, o) == OutputFor(disk, p, o)
      ensures o.hash in ix0 && r[o.hash].pos == p[o.hash].pos == ix0[o.hash].pos
    {
      var i :| 0 <= i < |vin| && vin[i] == o;
      assert Fetchable(disk, p, vin[i]);
      SameInput(disk, disk', ix0, p, r, ids, cb, o);
    }
    forall i | 0 <= i < |vin| ensures Fetchable(disk', r, vin[i]) {
      assert vin[i] in vin;
    }
  }

  lemma {:induction false} SameValue(disk: Disk, disk': Disk, p: Index, r: Index, vin: seq<OutPoint>)
    requires AllFetchable(disk, p, vin) && AllFetchable(disk', r, vin)
    requires forall i :: 0 <= i < |vin| ==> OutputFor(disk', r, vin[i]) == OutputFor(disk, p, vin[i])
    ensures ValueIn(disk', r, vin) == ValueIn(disk, p, vin)
  {
    if vin != [] {
      SameValue(disk, disk', p, r, vin[..|vin| - 1]);
    }
  }

  lemma {:induction false} SameOps(c: Checks, d: Checks, disk: Disk, disk': Disk, p: Index, r: Index, tx: Tx, k: nat)
    requires d.p2shSigOps == c.p2shSigOps && k <= |tx.vin| && AllFetchable(disk, p, tx.vin) && AllFetchable(disk', r, tx.vin)
    requires forall i :: 0 <= i < |tx.vin| ==> OutputFor(disk', r, tx.vin[i]) == OutputFor(disk, p, tx.vin[i])
    ensures P2SHSigOps(d, disk', r, tx, k) == P2SHSigOps(c, disk, p, tx, k)
  {
    if k > 0 {
      SameOps(c, d, disk, disk', p, r, tx, k - 1);
    }
  }

  /** What the test pool allows, the block allows. */
  lemma InputsStayAllowed(c: Checks, d: Checks, disk: Disk, disk': Disk, ix0: Index, p: Index, r: Index, tx: Tx)
    requires NoStricter(c, d, ix0) && AllFetchable(disk, p, tx.vin) && AllFetchable(disk', r, tx.vin) && InputsAllowed(c, disk, p, tx)
    requires forall i :: 0 <= i < |tx.vin| ==>
               && OutputFor(disk', r, tx.vin[i]) == OutputFor(disk, p, tx.vin[i])
               && Prev(disk', r, tx.vin[i]) == Prev(disk, p, tx.vin[i]) && tx.vin[i].hash in ix0
               && r[tx.vin[i].hash].pos == p[tx.vin[i].hash].pos == ix0[tx.vin[i].hash].pos
    ensures InputsAllowed(d, disk', r, tx) && ValueIn(disk', r, tx.vin) == ValueIn(disk, p, tx.vin)
  {
    hide Prev, ValueIn, OutputFor;
    SameValue(disk, disk', p, r, tx.vin);
    forall i | 0 <= i < |tx.vin| ensures InputAllowed(d, disk', r, tx, i) {
      assert InputAllowed(c, disk, p, tx, i);
      forall j | 0 <= j < i + 1 ensures tx.vin[..i + 1][j] == tx.vin[j] {
      }
      SameValue(disk, disk', p, r, tx.vin[..i + 1]);
      assert Fetchable(disk, p, tx.vin[i]) && Fetchable(disk', r, tx.vin[i]);
    }
  }

  lemma StampMatches(p: Index, r: Index, ids: set<Hash>, cb: Hash, s: set<OutPoint>, at: DiskTxPos)
    requires Matches(p, r, ids, cb) && at.Pos? && forall o :: o in s ==> o.hash != cb
    ensures Matches(Stamp(p, s, POOL_POS), Stamp(r, s, at), ids, cb)
  {
    forall h | h in p && h != cb ensures SameEntry(Stamp(p, s, POOL_POS)[h], Stamp(r, s, at)[h]) {
      assert SameEntry(p[h], r[h]);
    }
    if cb in p {
      assert Stamp(p, s, POOL_POS)[cb].vSpent == p[cb].vSpent;
    }
  }

  /** One more chosen transaction keeps test pool and block in step, with equal fees and operations. */
  lemma StepMatches(c: Checks, d: Checks, disk: Disk, disk': Disk, ix0: Index, p: Index, t: Tally, ids: set<Hash>, cb: Hash, tx: Tx,
                    at: DiskTxPos)
    requires Matches(p, t.ix, ids, cb) && Pooled(ix0, p, ids) && ChainSpec.Grows(disk, disk') && NoStricter(c, d, ix0) && at.Pos?
    requires TestConnect(c, disk, p, tx).Some? && !tx.IsCoinBase() && tx.hash != cb
    requires forall i :: 0 <= i < |tx.vin| ==> tx.vin[i].hash !in ids
    ensures var x := TestConnect(c, disk, p, tx).value;
            var ops := t.sigOps + tx.sigOps + x.sigOps;
            if ops > MAX_BLOCK_SIGOPS then ConnectTx(d, disk', t, tx, at).None?
            else
              && ConnectTx(d, disk', t, tx, at).Some?
              && var u := ConnectTx(d, disk', t, tx, at).value;
              && u.fees == t.fees + x.fees && u.sigOps == ops && Matches(x.pool, u.ix, ids + {tx.hash}, cb)
  {
    SpendAllMeaning(p, tx.vin, POOL_POS);
    SpendAllMeaning(t.ix, tx.vin, at);
    hide Pooled, SpendAll, Matches, ValueIn, P2SHSigOps, InputsAllowed, Fetchable, Unspent, NoStricter, Prev, OutputFor;
    assert d.strictP2SH && d.p2shSigOps == c.p2shSigOps by { Agree(c, d, ix0); }
    SameInputs(disk, disk', ix0, p, t.ix, ids, cb, tx.vin);
    forall i | 0 <= i < |tx.vin| ensures tx.vin[i] in tx.vin {
    }
    InputsStayAllowed(c, d, disk, disk', ix0, p, t.ix, tx);
    SameOps(c, d, disk, disk', p, t.ix, tx, |tx.vin|);
    StampMatches(p, t.ix, ids, cb, Points(tx.vin), at);
    EntryMatches(Stamp(p, Points(tx.vin), POOL_POS), Stamp(t.ix, Points(tx.vin), at), ids, cb, tx, at);
  }

  lemma Agree(c: Checks, d: Checks, ix0: Index)
    requires NoStricter(c, d, ix0)
    ensures d.strictP2SH && d.p2shSigOps == c.p2shSigOps
  {
  }

  lemma EntryMatches(p: Index, r: Index, ids: set<Hash>, cb: Hash, tx: Tx, at: DiskTxPos)
    requires Matches(p, r, ids, cb) && tx.hash != cb
    ensures Matches(p[tx.hash := NewEntry(tx, POOL_POS)], r[tx.hash := NewEntry(tx, at)], ids + {tx.hash}, cb)
  {
    var p', r' := p[tx.hash := NewEntry(tx, POOL_POS)], r[tx.hash := NewEntry(tx, at)];
    forall h | h in p' && h != cb ensures SameEntry(p'[h], r'[h]) {
      if h != tx.hash {
        assert SameEntry(p[h], r[h]);
      }
    }
  }

  // ---------------------------------------------------------------- the whole block

  /** Connecting transactions one after another, each under the position listed for it. */
  function ConnectListed(d: Checks, disk: Disk, ix: Index, txs: seq<Tx>, at: seq<DiskTxPos>, k: nat): Option<Tally>
    requires k <= |txs| == |at|
  {
    if k == 0 then Some(Tally(ix, 0, 0))
    else
      var r := ConnectListed(d, disk, ix, txs, at, k - 1);
      if r.None? then None else ConnectTx(d, disk, r.value, txs[k - 1], at[k - 1])
  }

  function Places(b: Block, file: nat, blockPos: nat): seq<DiskTxPos> {
    seq(|b.vtx|, i requires 0 <= i < |b.vtx| => TxPosAt(b, file, blockPos, i))
  }

  /** A stored block's transactions connect under their own positions. */
  lemma {:induction false} ConnectIsListed(d: Checks, disk: Disk, ix: Index, b: Block, file: nat, blockPos: nat, k: nat)
    requires k <= |b.vtx|
    ensures ConnectTxs(d, disk, ix, b, file, blockPos, k) == ConnectListed(d, disk, ix, b.vtx, Places(b, file, blockPos), k)
  {
    hide ConnectTx, TxOffset;
    if k > 0 {
      ConnectIsListed(d, disk, ix, b, file, blockPos, k - 1);
    }
  }

  /** ConnectBlock in check-only mode: every transaction under the position of those in no block, BIP30 in any case. */
  function JustCheck(d: Checks, disk: Disk, ix: Index, b: Block, height: nat): bool {
    var r := ConnectListed(d, disk, ix, b.vtx, seq(|b.vtx|, _ => POOL_POS), |b.vtx|);
    && CheckBlock(b) && Bip30(ix, b) && r.Some? && SumOut(b.vtx[0].vout) <= Reward(height, r.value.fees)
  }

  /** The choice behind a coinbase. */
  ghost predicate Holds(m: MemPool, ids: seq<Hash>, b: Block) {
    && |b.vtx| == |ids| + 1 && b.vtx[0].IsCoinBase()
    && forall k :: 0 <= k < |ids| ==> ids[k] in m && b.vtx[k + 1] == m[ids[k]].tx && !m[ids[k]].tx.IsCoinBase()
  }

  lemma {:induction false} FilledFront(m: MemPool, connect: Try<Index>, start: Index, ids: seq<Hash>, k: nat)
    requires k <= |ids| && Filled(m, connect, start, ids).Some?
    ensures Filled(m, connect, start, ids[..k]).Some?
    decreases |ids|
  {
    if k == |ids| {
      assert ids[..k] == ids;
    } else {
      FilledFront(m, connect, start, ids[..|ids| - 1], k);
      assert ids[..|ids| - 1][..k] == ids[..k];
    }
  }

  /** What is known of a choice, its block and the checks on both sides. */
  ghost predicate Setting(m: MemPool, c: Checks, d: Checks, disk: Disk, disk': Disk, ix0: Index, ids: seq<Hash>, b: Block,
                          at: seq<DiskTxPos>) {
    && PoolOk(m) && HashChecked(c) && Unmarked(m, disk, ix0) && NoStricter(c, d, ix0) && ChainSpec.Grows(disk, disk')
    && Filled(m, Tester(c, disk), ix0, ids).Some? && Holds(m, ids, b)
    && |at| == |b.vtx| && (forall i :: 0 <= i < |at| ==> at[i].Pos?)
    && FullySpentOrAbsent(ix0, b.vtx[0].hash) && b.vtx[0].hash !in ids
  }

  /** Signature operations of the block after `k` choices: the coinbase's, and what the choice counted beyond its reserve. */
  ghost function OpsAfter(m: MemPool, c: Checks, disk: Disk, ix0: Index, ids: seq<Hash>, b: Block, k: nat): int
    requires k <= |ids| && Filled(m, Tester(c, disk), ix0, ids[..k]).Some? && b.vtx != []
  {
    b.vtx[0].sigOps + Filled(m, Tester(c, disk), ix0, ids[..k]).value.nBlockSigOps - 100
  }

  /** After `k` choices the block connects exactly if its operations are within the limit, and then matches the test pool. */
  ghost predicate InStep(m: MemPool, c: Checks, d: Checks, disk: Disk, disk': Disk, ix0: Index, ids: seq<Hash>, b: Block,
                         at: seq<DiskTxPos>, k: nat)
    requires k <= |ids| && Filled(m, Tester(c, disk), ix0, ids[..k]).Some? && Holds(m, ids, b) && |at| == |b.vtx|
  {
    var f, r := Filled(m, Tester(c, disk), ix0, ids[..k]).value, ConnectListed(d, disk', ix0, b.vtx, at, k + 1);
    var ops := OpsAfter(m, c, disk, ix0, ids, b, k);
    if ops > MAX_BLOCK_SIGOPS then r.None?
    else r.Some? && r.value.fees == f.nFees && r.value.sigOps == ops && Matches(f.pool, r.value.ix, Elems(ids[..k]), b.vtx[0].hash)
  }

  lemma StartsInStep(m: MemPool, c: Checks, d: Checks, disk: Disk, disk': Disk, ix0: Index, ids: seq<Hash>, b: Block,
                     at: seq<DiskTxPos>)
    requires Setting(m, c, d, disk, disk', ix0, ids, b, at)
    ensures Filled(m, Tester(c, disk), ix0, ids[..0]).Some? && InStep(m, c, d, disk, disk', ix0, ids, b, at, 0)
  {
    hide PoolOk, HashChecked, Unmarked, NoStricter, ChainSpec.Grows;
    assert ids[..0] == [] && ConnectListed(d, disk', ix0, b.vtx, at, 0) == Some(Tally(ix0, 0, 0));
    var cb := b.vtx[0];
    var r := ix0[cb.hash := NewEntry(cb, at[0])];
    assert forall h :: h in ix0 && h != cb.hash ==> SameEntry(ix0[h], r[h]);
  }

  /** The choice one transaction further on, which spends none of those before it. */
  lemma FilledNext(m: MemPool, c: Checks, disk: Disk, ix0: Index, ids: seq<Hash>, k: nat)
    requires PoolOk(m) && HashChecked(c) && Unmarked(m, disk, ix0) && k < |ids| && ids[k] in m
    requires Filled(m, Tester(c, disk), ix0, ids).Some?
    requires Filled(m, Tester(c, disk), ix0, ids[..k]).Some? && Filled(m, Tester(c, disk), ix0, ids[..k + 1]).Some?
    ensures var f := Filled(m, Tester(c, disk), ix0, ids[..k]).value;
            var x := TestConnect(c, disk, f.pool, m[ids[k]].tx);
            && x.Some? && Filled(m, Tester(c, disk), ix0, ids[..k + 1]).value == With(f, ids[k], m[ids[k]].tx, x.value)
            && Pooled(ix0, f.pool, Elems(ids[..k]))
    ensures forall i :: 0 <= i < |m[ids[k]].tx.vin| ==> m[ids[k]].tx.vin[i].hash !in Elems(ids[..k])
    ensures m[ids[k]].tx.hash == ids[k] && Elems(ids[..k + 1]) == Elems(ids[..k]) + {ids[k]}
  {
    FilledOne(m, Tester(c, disk), ix0, ids, k);
    ChoicesApart(m, c, disk, ix0, ids[..k]);
    ChoicesApart(m, c, disk, ix0, ids);
    hide Filled, Pooled, TestConnect, HashChecked, Unmarked;
    forall i | 0 <= i < |m[ids[k]].tx.vin| ensures m[ids[k]].tx.vin[i].hash !in Elems(ids[..k]) {
      assert m[ids[k]].tx.vin[i].hash !in ids[..k];
    }
  }

  lemma FilledOne(m: MemPool, connect: Try<Index>, start: Index, ids: seq<Hash>, k: nat)
    requires k < |ids| && ids[k] in m
    requires Filled(m, connect, start, ids[..k]).Some? && Filled(m, connect, start, ids[..k + 1]).Some?
    ensures var f := Filled(m, connect, start, ids[..k]).value;
            var x := connect(f.pool, m[ids[k]].tx);
            x.Some? && Filled(m, connect, start, ids[..k + 1]).value == With(f, ids[k], m[ids[k]].tx, x.value)
    ensures Elems(ids[..k + 1]) == Elems(ids[..k]) + {ids[k]}
  {
    assert ids[..k + 1][..k] == ids[..k] && ids[..k + 1] == ids[..k] + [ids[k]];
  }

  lemma GoesOnInStep(m: MemPool, c: Checks, d: Checks, disk: Disk, disk': Disk, ix0: Index, ids: seq<Hash>, b: Block,
                     at: seq<DiskTxPos>, k: nat)
    requires Setting(m, c, d, disk, disk', ix0, ids, b, at) && k < |ids|
    requires Filled(m, Tester(c, disk), ix0, ids[..k]).Some? && Filled(m, Tester(c, disk), ix0, ids[..k + 1]).Some?
    requires InStep(m, c, d, disk, disk', ix0, ids, b, at, k)
    ensures InStep(m, c, d, disk, disk', ix0, ids, b, at, k + 1)
  {
    hide PoolOk, Pooled, HashChecked, Unmarked, NoStricter, ChainSpec.Grows, Matches, TestConnect, ConnectTx, Elems, Filled;
    var f := Filled(m, Tester(c, disk), ix0, ids[..k]).value;
    var r := ConnectListed(d, disk', ix0, b.vtx, at, k + 1);
    var tx := m[ids[k]].tx;
    assert b.vtx[k + 1] == tx && ids[k] in ids;
    FilledNext(m, c, disk, ix0, ids, k);
    if r.Some? {
      StepMatches(c, d, disk, disk', ix0, f.pool, r.value, Elems(ids[..k]), b.vtx[0].hash, tx, at[k + 1]);
    }
  }

  lemma {:induction false} BlockFollows(m: MemPool, c: Checks, d: Checks, disk: Disk, disk': Disk, ix0: Index, ids: seq<Hash>,
                                        b: Block, at: seq<DiskTxPos>, k: nat)
    requires Setting(m, c, d, disk, disk', ix0, ids, b, at) && k <= |ids|
    ensures Filled(m, Tester(c, disk), ix0, ids[..k]).Some? && InStep(m, c, d, disk, disk', ix0, ids, b, at, k)
  {
    hide InStep;
    FilledFront(m, Tester(c, disk), ix0, ids, k);
    if k == 0 {
      StartsInStep(m, c, d, disk, disk', ix0, ids, b, at);
    } else {
      BlockFollows(m, c, d, disk, disk', ix0, ids, b, at, k - 1);
      GoesOnInStep(m, c, d, disk, disk', ix0, ids, b, at, k - 1);
    }
  }

  // ---------------------------------------------------------------- when the template is a block

  /** What a template needs beyond the choice: a well-formed coinbase of its own txid whose operations fit, and no txid on
      unspent outputs. */
  ghost predicate Connectable(m: MemPool, c: Checks, disk: Disk, ix0: Index, ids: seq<Hash>, b: Block)
    requires Filled(m, Tester(c, disk), ix0, ids).Some? && Holds(m, ids, b)
  {
    var cb := b.vtx[0];
    && CheckTransaction(cb) && cb.size > 0 && cb.hash !in ids
    && FullySpentOrAbsent(ix0, cb.hash) && (forall h :: h in ids ==> FullySpentOrAbsent(ix0, h))
    && cb.sigOps + Filled(m, Tester(c, disk), ix0, ids).value.nBlockSigOps - 100 <= MAX_BLOCK_SIGOPS
  }

  lemma CheckedBlock(m: MemPool, ids: seq<Hash>, b: Block)
    requires PoolOk(m) && InOrder(m, ids) && Holds(m, ids, b)
    ensures CheckBlock(b) <==> CheckTransaction(b.vtx[0]) && b.vtx[0].size > 0 && b.vtx[0].hash !in ids
  {
    hide CheckTransaction;
    assert b.vtx[0] in b.vtx;
    forall k | 0 <= k < |ids| ensures b.vtx[k + 1].hash == ids[k] && CheckTransaction(b.vtx[k + 1]) && b.vtx[k + 1].size > 0 {
    }
    forall t | t in b.vtx && t != b.vtx[0] ensures CheckTransaction(t) && t.size > 0 {
      var i :| 0 <= i < |b.vtx| && b.vtx[i] == t;
      assert ids[i - 1] == b.vtx[i - 1 + 1].hash;
    }
    forall i | 0 < i < |b.vtx| ensures !b.vtx[i].IsCoinBase() {
      assert ids[i - 1] in m && b.vtx[i - 1 + 1] == m[ids[i - 1]].tx;
    }
    if b.vtx[0].hash !in ids {
      forall i, j | 0 <= i < j < |b.vtx| ensures b.vtx[i].hash != b.vtx[j].hash {
        assert b.vtx[j].hash == ids[j - 1];
        if i > 0 { assert b.vtx[i].hash == ids[i - 1]; }
      }
    } else {
      var k :| 0 <= k < |ids| && ids[k] == b.vtx[0].hash;
      assert b.vtx[k + 1].hash == b.vtx[0].hash;
    }
  }

  lemma FreshBlock(m: MemPool, ix0: Index, ids: seq<Hash>, b: Block)
    requires PoolOk(m) && Holds(m, ids, b)
    ensures Bip30(ix0, b) <==> FullySpentOrAbsent(ix0, b.vtx[0].hash) && forall h :: h in ids ==> FullySpentOrAbsent(ix0, h)
  {
    hide FullySpentOrAbsent;
    assert b.vtx[0] in b.vtx;
    forall k | 0 <= k < |ids| ensures b.vtx[k + 1].hash == ids[k] && b.vtx[k + 1] in b.vtx {
    }
    forall t | t in b.vtx && t != b.vtx[0] ensures t.hash in ids {
      var i :| 0 <= i < |b.vtx| && b.vtx[i] == t;
      assert t.hash == ids[i - 1];
    }
  }

  /** The transactions of the block connect exactly if the operations fit, with the fees of the choice. */
  lemma ListedVerdict(m: MemPool, c: Checks, d: Checks, disk: Disk, disk': Disk, ix0: Index, ids: seq<Hash>, b: Block,
                      at: seq<DiskTxPos>)
    requires Setting(m, c, d, disk, disk', ix0, ids, b, at)
    ensures var f, r := Filled(m, Tester(c, disk), ix0, ids).value, ConnectListed(d, disk', ix0, b.vtx, at, |b.vtx|);
            && (r.Some? <==> b.vtx[0].sigOps + f.nBlockSigOps - 100 <= MAX_BLOCK_SIGOPS)
            && (r.Some? ==> r.value.fees == f.nFees)
  {
    BlockFollows(m, c, d, disk, disk', ix0, ids, b, at, |ids|);
    hide Setting, Matches, ConnectListed, Filled;
    assert ids[..|ids|] == ids;
  }

  /** The rules of ConnectBlock accept the template, wherever it is stored later, if and only if it is connectable; and
      so does the check-only mode before it is given out. */
  lemma TemplateConnects(m: MemPool, c: Checks, d: Checks, disk: Disk, disk': Disk, ix0: Index, ids: seq<Hash>, b: Block,
                         file: nat, blockPos: nat, height: nat)
    requires PoolOk(m) && HashChecked(c) && Unmarked(m, disk, ix0) && NoStricter(c, d, ix0) && ChainSpec.Grows(disk, disk')
    requires Filled(m, Tester(c, disk), ix0, ids).Some? && InOrder(m, ids) && Holds(m, ids, b)
    requires SumOut(b.vtx[0].vout) == Reward(height, Filled(m, Tester(c, disk), ix0, ids).value.nFees)
    requires !Bip30Exempt(height, b.hash)
    ensures ConnectSpec.ConnectBlock(d, disk', ix0, b, file, blockPos, height).Some? <==> Connectable(m, c, disk, ix0, ids, b)
    ensures JustCheck(d, disk, ix0, b, height) <==> Connectable(m, c, disk, ix0, ids, b)
  {
    CheckedBlock(m, ids, b);
    FreshBlock(m, ix0, ids, b);
    ConnectIsListed(d, disk', ix0, b, file, blockPos, |b.vtx|);
    if b.vtx[0].hash !in ids && FullySpentOrAbsent(ix0, b.vtx[0].hash) {
      ListedVerdict(m, c, d, disk, disk', ix0, ids, b, Places(b, file, blockPos));
      ListedVerdict(m, c, d, disk, disk, ix0, ids, b, seq(|b.vtx|, _ => POOL_POS));
    }
    hide CheckBlock, Bip30, FullySpentOrAbsent, ConnectListed, ConnectTxs, Filled, CheckTransaction, InOrder;
  }

  /** CreateNewBlock: the choice behind a coinbase worth the reward with its fees. It is given out if and only if the rules
      accept it as a block, wherever it is stored later; no transaction in it has a parent in the pool. */
  method CreateNewBlock(m: MemPool, l: Limits, c: Checks, d: Checks, disk: Disk, ix0: Index, coinbase: Tx, height: nat, hash: Hash,
                        prev: Hash, work: nat, time: nat)
    returns (r: Option<Block>, f: Chosen<Index>, ghost looks: seq<Hash>, ghost b: Block)
    requires coinbase.IsCoinBase() && |coinbase.vout| == 1 && !Bip30Exempt(height, hash)
    requires PoolOk(m) && HashChecked(c) && Unmarked(m, disk, ix0) && NoStricter(c, d, ix0)
    ensures InOrder(m, f.ids) && Filled(m, Tester(c, disk), ix0, f.ids) == Some(f) && Within(l, f)
    ensures var g := GreedyRun(m, l, Tester(c, disk), ix0, looks);
            g.Some? && g.value.c == f && forall h :: !Ready(m, g.value, h)
    ensures forall h :: h in f.ids ==> h in m && Parents(m, h) == {}
    ensures Holds(m, f.ids, b) && b.prev == prev && b.hash == hash
    ensures b.vtx[0] == coinbase.(vout := [coinbase.vout[0].(value := Reward(height, f.nFees))])
    ensures b.vtx[0].vout[0].value == BlockLaw.NewMoney(height) + f.nFees && b.work == work && b.time == time
    ensures forall i :: 0 <= i < |looks| ==> LooksAtBest(m, l, Tester(c, disk), ix0, looks, i)
    ensures forall h :: !IsWaiting(m, looks, f.ids, h)
    ensures r == (if Connectable(m, c, disk, ix0, f.ids, b) then Some(b) else None)
    ensures forall disk', file, blockPos :: ChainSpec.Grows(disk, disk') ==>
              (r.Some? <==> ConnectSpec.ConnectBlock(d, disk', ix0, b, file, blockPos, height).Some?)
  {
    ghost var popped;
    f, popped, looks := Choose(m, l, Tester(c, disk), ix0);
    DependentsLeftOut(m, c, disk, ix0, f.ids);
    NoneWaits(m, l, Tester(c, disk), ix0, looks, f);
    LawMatches.NewMoneyIs(height);
    hide Tester, Filled, GreedyRun, LooksAtBest, IsWaiting, BlockLaw.NewMoney, Subsidy, PoolOk, HashChecked, Unmarked, NoStricter, Within;
    var block := Assemble(m, f.ids, coinbase.(vout := [coinbase.vout[0].(value := Reward(height, f.nFees))]), hash, prev, work, time);
    b := block;
    assert b.vtx[0].vout[..0] == [];
    forall disk', file, blockPos | ChainSpec.Grows(disk, disk')
      ensures ConnectSpec.ConnectBlock(d, disk', ix0, b, file, blockPos, height).Some? <==> Connectable(m, c, disk, ix0, f.ids, b)
    {
      TemplateConnects(m, c, d, disk, disk', ix0, f.ids, b, file, blockPos, height);
    }
    TemplateConnects(m, c, d, disk, disk, ix0, f.ids, b, 1, 1, height);
    r := if JustCheck(d, disk, ix0, block, height) then Some(block) else None;
  }

  /** When the choice ends, nothing waits that could be looked at. */
  lemma NoneWaits<T>(m: MemPool, l: Limits, connect: Try<T>, start: T, looks: seq<Hash>, c: Chosen<T>)
    requires var g := GreedyRun(m, l, connect, start, looks); g.Some? && g.value.c == c && forall h :: !Ready(m, g.value, h)
    ensures forall h :: !IsWaiting(m, looks, c.ids, h)
  {
    var g := GreedyRun(m, l, connect, start, looks).value;
    LookedAt(m, l, connect, start, looks);
    forall h ensures !IsWaiting(m, looks, c.ids, h) {
      WaitingIsReady(m, g, looks, h);
    }
  }

  /** The block: coinbase first, then the chosen transactions. */
  method Assemble(m: MemPool, ids: seq<Hash>, coinbase: Tx, hash: Hash, prev: Hash, work: nat, time: nat) returns (b: Block)
    requires coinbase.IsCoinBase() && InOrder(m, ids)
    ensures Holds(m, ids, b) && b == Block(hash, prev, work, time, b.vtx) && b.vtx[0] == coinbase
  {
    var vtx := [coinbase];
    for k := 0 to |ids|
      invariant |vtx| == k + 1 && vtx[0] == coinbase
      invariant forall j :: 0 <= j < k ==> ids[j] in m && vtx[j + 1] == m[ids[j]].tx
    {
      assert Eligible(m, ids[k]);
      vtx := vtx + [m[ids[k]].tx];
    }
    forall k | 0 <= k < |ids| ensures !m[ids[k]].tx.IsCoinBase() {
      assert Eligible(m, ids[k]);
    }
    b := Block(hash, prev, work, time, vtx);
  }

  // ---------------------------------------------------------------- on the chain

  /** The checks of the test pool, for a block on top of `prev`: scripts are verified strictly and in any case. */
  function TemplateChecks(env: Env, t: Tree, prev: Hash): Checks
    requires WellFormed(t) && prev in t
  {
    Checks(pos => TooYoung(t, prev, prev, pos, env.baseMaturity), (p: Tx, tx: Tx, i: nat) => env.verify(p, tx, i, true), true,
           env.p2shSigOps)
  }

  /** VerifySignature compares hashes, whatever the script does. */
  ghost predicate SignsHash(env: Env) {
    forall p: Tx, tx: Tx, i: nat, strict: bool :: env.verify(p, tx, i, strict) ==> i < |tx.vin| && p.hash == tx.vin[i].hash
  }

  /** The block one higher is no stricter about maturity than its parent, about outputs that are not in it. */
  lemma MaturityRelaxed(t: Tree, prev: Hash, h: Hash, e: BlockIndex, pos: DiskTxPos, maturity: nat)
    requires WellFormed(t) && WellFormed(t[h := e]) && prev in t && h !in t && e.prev == Some(prev)
    requires pos.Pos? && (pos.file, pos.blockPos) != (e.file, e.blockPos)
    requires TooYoung(t[h := e], h, h, pos, maturity)
    ensures TooYoung(t, prev, prev, pos, maturity)
  {
    var t' := t[h := e];
    TooYoungMeaning(t', h, h, pos, maturity);
    TooYoungMeaning(t, prev, prev, pos, maturity);
    BranchStable(t, prev, h, e);
    var x :| x in Branch(t', h) && x in t' && t'[h].height - t'[x].height < maturity
             && t'[x].file == pos.file && t'[x].blockPos == pos.blockPos;
    assert x != h && x in Branch(t, prev);
    BranchMember(t, prev, x);
  }

  lemma TemplateChecksHash(env: Env, t: Tree, prev: Hash)
    requires WellFormed(t) && prev in t && SignsHash(env)
    ensures HashChecked(TemplateChecks(env, t, prev))
  {
    hide TooYoung;
  }

  /** With the checks of the test pool, a transaction is accepted exactly if it is a lawful spender in the next block, all
      signatures looked at; and what it adds is its fee, its scripts' operations, its spent marks and its entry. */
  lemma TestIsLaw(env: Env, t: Tree, prev: Hash, disk: Disk, ix: Index, tx: Tx)
    requires WellFormed(t) && prev in t && CheckTransaction(tx) && !tx.IsCoinBase()
    ensures var r := TestConnect(TemplateChecks(env, t, prev), disk, ix, tx);
            && (r.Some? <==> BlockLaw.LawfulSpender(env, t, prev, disk, ix, tx, 1_333_238_400, env.checkpointEstimate))
            && (r.Some? ==> && r.value.fees == BlockLaw.WorthAll(disk, ix, tx.vin) - SumOut(tx.vout)
                            && r.value.sigOps == BlockLaw.ScriptOps(env, disk, ix, tx, |tx.vin|)
                            && r.value.pool == Stamp(ix, Points(tx.vin), Pos(1, 1, 1))[tx.hash := TxIndex(Pos(1, 1, 1), Unspents(|tx.vout|))])
  {
    var c := TemplateChecks(env, t, prev);
    forall pos ensures c.immature(pos) <==> BlockLaw.AmongLast(t, prev, pos, env.baseMaturity) {
      TooYoungMeaning(t, prev, prev, pos, env.baseMaturity);
    }
    assert LawMatches.StandsFor(c, env, t, prev, 1_333_238_400, env.checkpointEstimate);
    hide TooYoung, BlockLaw.AmongLast, LawMatches.StandsFor, TemplateChecks, BlockLaw.LawfulInput, CheckTransaction;
    SpendAllMeaning(ix, tx.vin, POOL_POS);
    assert LawMatches.Accepts(c, disk, ix, tx, POOL_POS) <==> TestConnect(c, disk, ix, tx).Some?;
    if TestConnect(c, disk, ix, tx).Some? {
      LawMatches.AcceptedIsLawful(c, env, t, prev, disk, ix, tx, POOL_POS, 1_333_238_400, env.checkpointEstimate);
    }
    if BlockLaw.LawfulSpender(env, t, prev, disk, ix, tx, 1_333_238_400, env.checkpointEstimate) {
      LawMatches.LawfulIsAccepted(c, env, t, prev, disk, ix, tx, POOL_POS, 1_333_238_400, env.checkpointEstimate);
      LawfulOps(c, env, t, prev, disk, ix, tx);
    }
  }

  lemma LawfulOps(c: Checks, env: Env, t: Tree, prev: Hash, disk: Disk, ix: Index, tx: Tx)
    requires WellFormed(t) && prev in t && c.p2shSigOps == env.p2shSigOps
    requires BlockLaw.LawfulSpender(env, t, prev, disk, ix, tx, 1_333_238_400, env.checkpointEstimate)
    ensures AllFetchable(disk, ix, tx.vin) && ValueIn(disk, ix, tx.vin) == BlockLaw.WorthAll(disk, ix, tx.vin)
    ensures P2SHSigOps(c, disk, ix, tx, |tx.vin|) == BlockLaw.ScriptOps(env, disk, ix, tx, |tx.vin|)
  {
    forall i | 0 <= i < |tx.vin| ensures BlockLaw.Spendable(disk, ix, tx.vin[i]) {
      assert BlockLaw.LawfulInput(env, t, prev, disk, ix, tx, i, 1_333_238_400, env.checkpointEstimate);
    }
    LawMatches.WorthIs(disk, ix, tx.vin);
    LawMatches.OpsAre(c, env, disk, ix, tx, |tx.vin|);
  }

  lemma ChecksAgree(env: Env, t: Tree, prev: Hash, h: Hash, e: BlockIndex, time: nat, bestHeight: int, ix0: Index)
    requires WellFormed(t) && prev in t && h !in t && WellFormed(t[h := e]) && e.prev == Some(prev)
    requires time >= BIP16_SWITCH_TIME
    requires forall x :: x in ix0 ==> ix0[x].pos.Pos? && (ix0[x].pos.file, ix0[x].pos.blockPos) != (e.file, e.blockPos)
    ensures NoStricter(TemplateChecks(env, t, prev), ChecksFor(env, t[h := e], h, time, bestHeight), ix0)
  {
    hide TooYoung, WellFormed;
    var c, d := TemplateChecks(env, t, prev), ChecksFor(env, t[h := e], h, time, bestHeight);
    forall x | x in ix0 && d.immature(ix0[x].pos) ensures c.immature(ix0[x].pos) {
      MaturityRelaxed(t, prev, h, e, ix0[x].pos, env.baseMaturity);
    }
  }

  /** So the template for the tip, stored anywhere as the next block, is accepted by the rules of ConnectBlock if and only if
      it is connectable. */
  lemma NextBlockConnects(env: Env, t: Tree, prev: Hash, m: MemPool, disk: Disk, disk': Disk, ix0: Index, ids: seq<Hash>, b: Block,
                          e: BlockIndex, bestHeight: int)
    requires WellFormed(t) && prev in t && b.hash !in t && WellFormed(t[b.hash := e]) && e.prev == Some(prev)
    requires b.time >= BIP16_SWITCH_TIME && SignsHash(env) && !Bip30Exempt(e.height, b.hash)
    requires PoolOk(m) && Unmarked(m, disk, ix0) && ChainSpec.Grows(disk, disk')
    requires forall h :: h in ix0 ==> ix0[h].pos.Pos? && (ix0[h].pos.file, ix0[h].pos.blockPos) != (e.file, e.blockPos)
    requires Filled(m, Tester(TemplateChecks(env, t, prev), disk), ix0, ids).Some? && InOrder(m, ids) && Holds(m, ids, b)
    requires SumOut(b.vtx[0].vout)
          == Reward(e.height, Filled(m, Tester(TemplateChecks(env, t, prev), disk), ix0, ids).value.nFees)
    ensures ConnectsTo(env, t[b.hash := e], b.hash, disk', ix0, b, bestHeight).Some?
       <==> Connectable(m, TemplateChecks(env, t, prev), disk, ix0, ids, b)
  {
    hide TooYoung, ConnectSpec.ConnectBlock, Filled, Tester, Connectable, InOrder, Holds, PoolOk, Unmarked, ChainSpec.Grows,
         NoStricter, HashChecked, SignsHash, WellFormed, TemplateChecks, ChecksFor, SumOut, Reward, Bip30Exempt;
    var c, d := TemplateChecks(env, t, prev), ChecksFor(env, t[b.hash := e], b.hash, b.time, bestHeight);
    TemplateChecksHash(env, t, prev);
    ChecksAgree(env, t, prev, b.hash, e, b.time, bestHeight, ix0);
    TemplateConnects(m, c, d, disk, disk', ix0, ids, b, e.file, e.blockPos, e.height);
  }

  /** The index of a chain has no entry at the position of transactions in no block. */
  lemma {:induction false} ReplayUnmarked(t: Tree, disk: Disk, h: Hash)
    requires WellFormed(t) && h in t && ChainSpec.Stored(t, disk) && ChainSpec.Replay(t, disk, h).Some?
    ensures forall x :: x in ChainSpec.Replay(t, disk, h).value ==>
              ChainSpec.Replay(t, disk, h).value[x].pos.Pos? && ChainSpec.Replay(t, disk, h).value[x].pos != POOL_POS
    decreases t[h].height
  {
    if t[h].prev.Some? {
      var p, b := t[h].prev.value, ChainSpec.BlockOf(t, disk, h);
      ReplayUnmarked(t, disk, p);
      var ix := ChainSpec.Replay(t, disk, p).value;
      ChainSpec.ConnectBlockIsApply(Bare(), disk, ix, b, t[h].file, t[h].blockPos, t[h].height);
      ApplyUnmarked(ix, b, t[h].file, t[h].blockPos, |b.vtx|);
    }
  }

  lemma {:induction false} ApplyUnmarked(ix: Index, b: Block, file: nat, blockPos: nat, k: nat)
    requires k <= |b.vtx| && ApplyTxs(ix, b, file, blockPos, k).Some?
    requires forall x :: x in ix ==> ix[x].pos.Pos? && ix[x].pos != POOL_POS
    ensures var r := ApplyTxs(ix, b, file, blockPos, k).value; forall x :: x in r ==> r[x].pos.Pos? && r[x].pos != POOL_POS
  {
    if k > 0 {
      ApplyUnmarked(ix, b, file, blockPos, k - 1);
      var before, tx, at := ApplyTxs(ix, b, file, blockPos, k - 1).value, b.vtx[k - 1], TxPosAt(b, file, blockPos, k - 1);
      PastHeader(b, blockPos, k - 1);
      SpendAllMeaning(before, tx.Inputs(), at);
      hide SpendAll;
    }
  }
}
