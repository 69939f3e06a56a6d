/** The rules of ConnectSpec accept exactly the lawful blocks. */
module LawMatches {
  import opened Basics
  import opened ChainTypes
  import opened TxIndexSpec
  import opened ConnectSpec
  import opened BlockTree
  import BlockLaw

  /** The checks stand for the law of block `h` at `time`. */
  ghost predicate StandsFor(c: Checks, env: Env, t: Tree, h: Hash, time: nat, bestHeight: int)
    requires WellFormed(t) && h in t
  {
    && (forall pos :: c.immature(pos) <==> BlockLaw.AmongLast(t, h, pos, env.baseMaturity))
    && (forall p, tx, i :: c.verify(p, tx, i) <==> bestHeight < env.checkpointEstimate || env.verify(p, tx, i, time >= 1_333_238_400))
    && (c.strictP2SH <==> time >= 1_333_238_400) && c.p2shSigOps == env.p2shSigOps
  }

  lemma RewardIs(tx: Tx)
    ensures BlockLaw.IsReward(tx) <==> tx.IsCoinBase()
  {
  }

  lemma {:induction false} SumRises(vout: seq<TxOut>, k: nat)
    requires k <= |vout| && forall n :: 0 <= n < |vout| ==> vout[n].value >= 0
    ensures 0 <= SumOut(vout[..k]) <= SumOut(vout)
    decreases |vout|
  {
    if |vout| > 0 {
      var front := vout[..|vout| - 1];
      if k < |vout| {
        SumRises(front, k);
        assert front[..k] == vout[..k];
      } else {
        SumRises(front, k - 1);
        assert vout[..k] == vout;
      }
    }
  }

  lemma SoundTxIs(tx: Tx)
    ensures BlockLaw.SoundTx(tx) <==> CheckTransaction(tx)
  {
    if BlockLaw.SoundTx(tx) { SoundPasses(tx); }
    if CheckTransaction(tx) { PassedIsSound(tx); }
  }

  lemma SoundPasses(tx: Tx)
    requires BlockLaw.SoundTx(tx)
    ensures CheckTransaction(tx)
  {
    forall k | 0 <= k <= |tx.vout| ensures MoneyRange(SumOut(tx.vout[..k])) { SumRises(tx.vout, k); }
    forall n | 0 <= n < |tx.vout| ensures MoneyRange(tx.vout[n].value) {
      SumRises(tx.vout, n);
      SumRises(tx.vout, n + 1);
      assert tx.vout[..n + 1][..n] == tx.vout[..n];
    }
  }

  lemma PassedIsSound(tx: Tx)
    requires CheckTransaction(tx)
    ensures BlockLaw.SoundTx(tx)
  {
    assert tx.vout[..|tx.vout|] == tx.vout;
    if |tx.vin| != 1 {
      forall i | 0 <= i < |tx.vin| ensures tx.vin[i] != OutPoint(0, 0xFFFF_FFFF) {
        assert tx.vin[i] in tx.vin;
      }
    }
  }

  lemma SoundBlockIs(b: Block)
    ensures BlockLaw.SoundBlock(b) <==> CheckBlock(b)
  {
    forall k | 0 <= k < |b.vtx|
      ensures (BlockLaw.IsReward(b.vtx[k]) <==> b.vtx[k].IsCoinBase())
           && (BlockLaw.SoundTx(b.vtx[k]) <==> CheckTransaction(b.vtx[k])) && b.vtx[k] in b.vtx {
      SoundTxIs(b.vtx[k]);
    }
    hide CheckTransaction, BlockLaw.SoundTx, BlockLaw.IsReward;
  }

  lemma NoneOverwrittenIs(ix: Index, b: Block, height: nat)
    ensures BlockLaw.NoneOverwritten(ix, b, height) <==> Bip30Exempt(height, b.hash) || Bip30(ix, b)
  {
    if !Bip30Exempt(height, b.hash) && BlockLaw.NoneOverwritten(ix, b, height) {
      forall t | t in b.vtx ensures FullySpentOrAbsent(ix, t.hash) {
        var k :| 0 <= k < |b.vtx| && b.vtx[k] == t;
      }
    }
    if Bip30(ix, b) {
      forall k, n | 0 <= k < |b.vtx| && b.vtx[k].hash in ix && 0 <= n < |ix[b.vtx[k].hash].vSpent|
        ensures ix[b.vtx[k].hash].vSpent[n] != NullPos {
        assert FullySpentOrAbsent(ix, b.vtx[k].hash) && ix[b.vtx[k].hash].vSpent[n] in ix[b.vtx[k].hash].vSpent;
      }
    }
  }

  // ---------------------------------------------------------------- one spender

  lemma SpendableIs(disk: Disk, ix: Index, o: OutPoint)
    ensures BlockLaw.Spendable(disk, ix, o) <==> Fetchable(disk, ix, o) && Unspent(ix, o)
    ensures BlockLaw.Spendable(disk, ix, o) ==> BlockLaw.Worth(disk, ix, o) == OutputFor(disk, ix, o).value
  {
  }

  lemma {:induction false} WorthIs(disk: Disk, ix: Index, vin: seq<OutPoint>)
    requires forall i :: 0 <= i < |vin| ==> BlockLaw.Spendable(disk, ix, vin[i])
    ensures AllFetchable(disk, ix, vin) && ValueIn(disk, ix, vin) == BlockLaw.WorthAll(disk, ix, vin)
  {
    forall i | 0 <= i < |vin| ensures Fetchable(disk, ix, vin[i]) { SpendableIs(disk, ix, vin[i]); }
    if vin != [] {
      WorthIs(disk, ix, vin[..|vin| - 1]);
      SpendableIs(disk, ix, vin[|vin| - 1]);
    }
  }

  lemma {:induction false} WorthRises(disk: Disk, ix: Index, vin: seq<OutPoint>, k: nat)
    requires k <= |vin| && forall i :: 0 <= i < |vin| ==> BlockLaw.Worth(disk, ix, vin[i]) >= 0
    ensures 0 <= BlockLaw.WorthAll(disk, ix, vin[..k]) <= BlockLaw.WorthAll(disk, ix, vin)
    decreases |vin|
  {
    hide BlockLaw.Worth;
    if |vin| > 0 {
      var front := vin[..|vin| - 1];
      if k < |vin| {
        WorthRises(disk, ix, front, k);
        assert front[..k] == vin[..k];
      } else {
        WorthRises(disk, ix, front, k - 1);
        assert vin[..k] == vin;
      }
    }
  }

  lemma {:induction false} OpsAre(c: Checks, env: Env, disk: Disk, ix: Index, tx: Tx, k: nat)
    requires k <= |tx.vin| && c.p2shSigOps == env.p2shSigOps
    requires forall i :: 0 <= i < |tx.vin| ==> BlockLaw.Spendable(disk, ix, tx.vin[i])
    ensures AllFetchable(disk, ix, tx.vin) && P2SHSigOps(c, disk, ix, tx, k) == BlockLaw.ScriptOps(env, disk, ix, tx, k)
  {
    WorthIs(disk, ix, tx.vin);
    if k > 0 {
      OpsAre(c, env, disk, ix, tx, k - 1);
    }
  }

  /** A spender that the rules accept, but for the count of operations. */
  predicate Accepts(c: Checks, disk: Disk, ix: Index, tx: Tx, p: DiskTxPos) {
    AllFetchable(disk, ix, tx.vin) && InputsAllowed(c, disk, ix, tx) && ApplyTx(ix, tx, p).Some?
  }

  lemma LawfulInputIs(c: Checks, env: Env, t: Tree, h: Hash, disk: Disk, ix: Index, tx: Tx, i: nat, time: nat, bestHeight: int)
    requires WellFormed(t) && h in t && StandsFor(c, env, t, h, time, bestHeight) && i < |tx.vin|
    requires Fetchable(disk, ix, tx.vin[i]) && Unspent(ix, tx.vin[i])
    ensures var p := Prev(disk, ix, tx.vin[i]).value;
            BlockLaw.LawfulInput(env, t, h, disk, ix, tx, i, time, bestHeight)
            <==> && (p.IsCoinBase() ==> !c.immature(ix[tx.vin[i].hash].pos))
                 && MoneyRange(OutputFor(disk, ix, tx.vin[i]).value) && c.verify(p, tx, i)
  {
    hide BlockLaw.AmongLast;
    RewardIs(Prev(disk, ix, tx.vin[i]).value);
  }

  lemma AcceptedIsLawful(c: Checks, env: Env, t: Tree, h: Hash, disk: Disk, ix: Index, tx: Tx, p: DiskTxPos, time: nat,
                         bestHeight: int)
    requires WellFormed(t) && h in t && StandsFor(c, env, t, h, time, bestHeight) && p.Pos?
    requires !tx.IsCoinBase() && CheckTransaction(tx) && Accepts(c, disk, ix, tx, p)
    ensures BlockLaw.LawfulSpender(env, t, h, disk, ix, tx, time, bestHeight)
  {
    SpendAllMeaning(ix, tx.vin, p);
    hide StandsFor, SpendAll, CheckTransaction, BlockLaw.LawfulInput;
    forall i | 0 <= i < |tx.vin| ensures BlockLaw.LawfulInput(env, t, h, disk, ix, tx, i, time, bestHeight) {
      assert tx.vin[i] in tx.vin && InputAllowed(c, disk, ix, tx, i);
      LawfulInputIs(c, env, t, h, disk, ix, tx, i, time, bestHeight);
    }
    forall i | 0 <= i < |tx.vin| ensures BlockLaw.Spendable(disk, ix, tx.vin[i]) {
      assert tx.vin[i] in tx.vin;
      SpendableIs(disk, ix, tx.vin[i]);
    }
    WorthIs(disk, ix, tx.vin);
    NotEmpty(tx);
    var last := |tx.vin| - 1;
    assert InputAllowed(c, disk, ix, tx, last) && tx.vin[..last + 1] == tx.vin;
  }

  lemma NotEmpty(tx: Tx)
    requires CheckTransaction(tx)
    ensures tx.vin != [] && SumOut(tx.vout) >= 0 && NoDuplicates(tx.vin)
  {
    assert tx.vout[..|tx.vout|] == tx.vout;
  }

  lemma LawfulIsAccepted(c: Checks, env: Env, t: Tree, h: Hash, disk: Disk, ix: Index, tx: Tx, p: DiskTxPos, time: nat,
                         bestHeight: int)
    requires WellFormed(t) && h in t && StandsFor(c, env, t, h, time, bestHeight) && p.Pos?
    requires !tx.IsCoinBase() && CheckTransaction(tx) && BlockLaw.LawfulSpender(env, t, h, disk, ix, tx, time, bestHeight)
    ensures Accepts(c, disk, ix, tx, p)
  {
    NotEmpty(tx);
    SpendAllMeaning(ix, tx.vin, p);
    forall i | 0 <= i < |tx.vin| ensures BlockLaw.Spendable(disk, ix, tx.vin[i]) && BlockLaw.Worth(disk, ix, tx.vin[i]) >= 0 {
      assert BlockLaw.LawfulInput(env, t, h, disk, ix, tx, i, time, bestHeight);
    }
    WorthIs(disk, ix, tx.vin);
    hide StandsFor, SpendAll, CheckTransaction, BlockLaw.Worth, BlockLaw.Spendable, InputAllowed, BlockLaw.LawfulInput, ValueIn, Unspent;
    forall i | 0 <= i < |tx.vin| ensures InputAllowed(c, disk, ix, tx, i) && Unspent(ix, tx.vin[i]) {
      LawfulAllowed(c, env, t, h, disk, ix, tx, i, time, bestHeight);
    }
    forall o | o in tx.vin ensures Unspent(ix, o) {
      var i :| 0 <= i < |tx.vin| && tx.vin[i] == o;
    }
  }

  lemma LawfulAllowed(c: Checks, env: Env, t: Tree, h: Hash, disk: Disk, ix: Index, tx: Tx, i: nat, time: nat, bestHeight: int)
    requires WellFormed(t) && h in t && StandsFor(c, env, t, h, time, bestHeight) && i < |tx.vin|
    requires forall j :: 0 <= j < |tx.vin| ==> BlockLaw.LawfulInput(env, t, h, disk, ix, tx, j, time, bestHeight)
    requires forall j :: 0 <= j < |tx.vin| ==> BlockLaw.Spendable(disk, ix, tx.vin[j]) && BlockLaw.Worth(disk, ix, tx.vin[j]) >= 0
    requires BlockLaw.WorthAll(disk, ix, tx.vin) <= 1_000_000_000_000_000 && AllFetchable(disk, ix, tx.vin)
    ensures InputAllowed(c, disk, ix, tx, i) && Unspent(ix, tx.vin[i])
  {
    hide StandsFor, BlockLaw.Worth, BlockLaw.Spendable, BlockLaw.LawfulInput;
    SpendableIs(disk, ix, tx.vin[i]);
    LawfulInputIs(c, env, t, h, disk, ix, tx, i, time, bestHeight);
    WorthIs(disk, ix, tx.vin[..i + 1]);
    WorthRises(disk, ix, tx.vin, i + 1);
  }

  // ---------------------------------------------------------------- the block

  /** After `k` transactions the rules have accepted exactly if each was lawful and the operations are within the limit. */
  ghost predicate InLaw(c: Checks, env: Env, t: Tree, h: Hash, disk: Disk, ix: Index, b: Block, bestHeight: int, k: nat)
    requires WellFormed(t) && h in t && k <= |b.vtx|
  {
    var f, p := t[h].file, t[h].blockPos;
    var r := ConnectTxs(c, disk, ix, b, f, p, k);
    && (r.Some? <==> (forall j :: 0 <= j < k ==> BlockLaw.LawfulAt(env, t, h, disk, ix, b, bestHeight, j))
                     && BlockLaw.Operations(env, disk, ix, b, f, p, k) <= 15625)
    && (r.Some? ==> ApplyTxs(ix, b, f, p, k) == Some(r.value.ix) && r.value.fees == BlockLaw.Fees(disk, ix, b, f, p, k)
                    && r.value.sigOps == BlockLaw.Operations(env, disk, ix, b, f, p, k))
  }

  lemma OperationsRise(env: Env, disk: Disk, ix: Index, b: Block, file: nat, blockPos: nat, k: nat)
    requires k < |b.vtx|
    ensures BlockLaw.Operations(env, disk, ix, b, file, blockPos, k)
         <= BlockLaw.Operations(env, disk, ix, b, file, blockPos, k + 1)
  {
  }

  lemma {:induction false} BlockInLaw(c: Checks, env: Env, t: Tree, h: Hash, disk: Disk, ix: Index, b: Block, bestHeight: int, k: nat)
    requires WellFormed(t) && h in t && StandsFor(c, env, t, h, b.time, bestHeight) && CheckBlock(b) && k <= |b.vtx|
    ensures InLaw(c, env, t, h, disk, ix, b, bestHeight, k)
  {
    if k > 0 {
      BlockInLaw(c, env, t, h, disk, ix, b, bestHeight, k - 1);
      OneMoreInLaw(c, env, t, h, disk, ix, b, bestHeight, k - 1);
    }
  }

  lemma OneMoreInLaw(c: Checks, env: Env, t: Tree, h: Hash, disk: Disk, ix: Index, b: Block, bestHeight: int, k: nat)
    requires WellFormed(t) && h in t && StandsFor(c, env, t, h, b.time, bestHeight) && CheckBlock(b) && k < |b.vtx|
    requires InLaw(c, env, t, h, disk, ix, b, bestHeight, k)
    ensures InLaw(c, env, t, h, disk, ix, b, bestHeight, k + 1)
  {
    hide CheckBlock, StandsFor, CheckTransaction, ConnectTx, BlockLaw.LawfulSpender, ApplyTx, BlockLaw.ScriptOps, BlockLaw.WorthAll,
         TxOffset, SumOut, BlockLaw.LawfulAt;
    var f, bp := t[h].file, t[h].blockPos;
    var r := ConnectTxs(c, disk, ix, b, f, bp, k);
    var tx, p := b.vtx[k], TxPosAt(b, f, bp, k);
    TxChecked(b, k);
    OperationsRise(env, disk, ix, b, f, bp, k);
    RewardIs(tx);
    if r.Some? {
      StepInLaw(c, env, t, h, disk, r.value, tx, p, b.time, bestHeight);
      assert BlockLaw.Met(ix, b, f, bp, k) == r.value.ix;
      LawfulHere(env, t, h, disk, ix, b, bestHeight, k);
    }
  }

  lemma TxChecked(b: Block, k: nat)
    requires CheckBlock(b) && k < |b.vtx|
    ensures CheckTransaction(b.vtx[k])
  {
    assert b.vtx[k] in b.vtx;
  }

  lemma LawfulHere(env: Env, t: Tree, h: Hash, disk: Disk, ix: Index, b: Block, bestHeight: int, k: nat)
    requires WellFormed(t) && h in t && k < |b.vtx|
    ensures BlockLaw.LawfulAt(env, t, h, disk, ix, b, bestHeight, k)
       <==> b.vtx[k].IsCoinBase()
            || BlockLaw.LawfulSpender(env, t, h, disk, BlockLaw.Met(ix, b, t[h].file, t[h].blockPos, k), b.vtx[k], b.time, bestHeight)
  {
    RewardIs(b.vtx[k]);
  }

  /** One transaction. */
  lemma StepInLaw(c: Checks, env: Env, t: Tree, h: Hash, disk: Disk, s: Tally, tx: Tx, p: DiskTxPos, time: nat, bestHeight: int)
    requires WellFormed(t) && h in t && StandsFor(c, env, t, h, time, bestHeight) && p.Pos? && CheckTransaction(tx)
    ensures var ops := s.sigOps + tx.sigOps
                       + (if tx.IsCoinBase() || time < 1_333_238_400 then 0 else BlockLaw.ScriptOps(env, disk, s.ix, tx, |tx.vin|));
            var r := ConnectTx(c, disk, s, tx, p);
            && (r.Some? <==> (tx.IsCoinBase() || BlockLaw.LawfulSpender(env, t, h, disk, s.ix, tx, time, bestHeight)) && ops <= 15625)
            && (r.Some? ==> && r.value.sigOps == ops && ApplyTx(s.ix, tx, p) == Some(r.value.ix)
                            && r.value.fees == s.fees + (if tx.IsCoinBase() then 0 else BlockLaw.WorthAll(disk, s.ix, tx.vin) - SumOut(tx.vout)))
  {
    if tx.IsCoinBase() {
      assert SpendAll(s.ix, [], p) == Some(s.ix);
    } else {
      if Accepts(c, disk, s.ix, tx, p) {
        AcceptedIsLawful(c, env, t, h, disk, s.ix, tx, p, time, bestHeight);
      }
      if BlockLaw.LawfulSpender(env, t, h, disk, s.ix, tx, time, bestHeight) {
        LawfulIsAccepted(c, env, t, h, disk, s.ix, tx, p, time, bestHeight);
        forall i | 0 <= i < |tx.vin| ensures BlockLaw.Spendable(disk, s.ix, tx.vin[i]) {
          assert BlockLaw.LawfulInput(env, t, h, disk, s.ix, tx, i, time, bestHeight);
        }
        WorthIs(disk, s.ix, tx.vin);
        OpsAre(c, env, disk, s.ix, tx, |tx.vin|);
      }
      hide CheckTransaction, InputsAllowed, BlockLaw.LawfulSpender, ApplyTx, BlockLaw.ScriptOps, AllFetchable;
    }
  }

  lemma NewMoneyIs(height: nat)
    ensures BlockLaw.NewMoney(height) == Subsidy(height)
  {
  }

  /** The rules accept exactly the lawful blocks. */
  lemma RulesAreLaw(c: Checks, env: Env, t: Tree, h: Hash, disk: Disk, ix: Index, b: Block, bestHeight: int)
    requires WellFormed(t) && h in t && StandsFor(c, env, t, h, b.time, bestHeight)
    ensures var r := ConnectSpec.ConnectBlock(c, disk, ix, b, t[h].file, t[h].blockPos, t[h].height);
            && (r.Some? <==> BlockLaw.Lawful(env, t, h, disk, ix, b, bestHeight))
            && (r.Some? ==> r == ApplyBlock(ix, b, t[h].file, t[h].blockPos))
  {
    SoundBlockIs(b);
    NoneOverwrittenIs(ix, b, t[h].height);
    NewMoneyIs(t[h].height);
    if CheckBlock(b) {
      BlockInLaw(c, env, t, h, disk, ix, b, bestHeight, |b.vtx|);
    }
    hide StandsFor, BlockLaw.SoundBlock, BlockLaw.NoneOverwritten, BlockLaw.LawfulAt, Subsidy, Bip30Exempt, Bip30, ConnectTxs,
         BlockLaw.Operations, BlockLaw.Fees, BlockLaw.NewMoney;
  }
}
