/** What makes a block lawful on top of its parent, said outright: on the fields of its transactions, the index they meet, and
    the node's parameters. */
module BlockLaw {
  import opened Basics
  import opened ChainTypes
  import opened TxIndexSpec
  import opened BlockTree

  /** Ten million coins of 100,000,000 units each. */
  ghost predicate InMoney(v: int) { 0 <= v <= 1_000_000_000_000_000 }

  /** A transaction by itself. */
  ghost predicate SoundTx(tx: Tx) {
    && tx.vin != [] && tx.vout != []
    && (forall n :: 0 <= n < |tx.vout| ==> tx.vout[n].value >= 0) && SumOut(tx.vout) <= 1_000_000_000_000_000
    && (forall i, j :: 0 <= i < j < |tx.vin| ==> tx.vin[i] != tx.vin[j])
    && (|tx.vin| == 1 || forall i :: 0 <= i < |tx.vin| ==> tx.vin[i] != OutPoint(0, 0xFFFF_FFFF))
  }

  ghost predicate IsReward(tx: Tx) { tx.vin == [OutPoint(0, 0xFFFF_FFFF)] }

  /** A block by itself: one coinbase, at the front, and transactions of their own. */
  ghost predicate SoundBlock(b: Block) {
    && b.vtx != []
    && (forall k :: 0 <= k < |b.vtx| ==> (IsReward(b.vtx[k]) <==> k == 0) && SoundTx(b.vtx[k]) && b.vtx[k].size > 0)
    && (forall j, k :: 0 <= j < k < |b.vtx| ==> b.vtx[j].hash != b.vtx[k].hash)
  }

  /** No transaction takes the txid of one that still has an unspent output; two blocks of another chain may. */
  ghost predicate NoneOverwritten(ix: Index, b: Block, height: nat) {
    || (height == 91842 && b.hash == 0x00000000000a4d0a398161ffc163c503763b1f4360639393e0e4c8e300e0caec)
    || (height == 91880 && b.hash == 0x00000000000743f190a18c5577a3c2d2a1f610ae9601ac046a38084ccb7cd721)
    || forall k, n :: 0 <= k < |b.vtx| && b.vtx[k].hash in ix && 0 <= n < |ix[b.vtx[k].hash].vSpent| ==>
         ix[b.vtx[k].hash].vSpent[n] != NullPos
  }

  /** `o` is an output that exists and is not spent. */
  ghost predicate Spendable(disk: Disk, ix: Index, o: OutPoint) {
    && o.hash in ix && o.n < |ix[o.hash].vSpent| && ix[o.hash].vSpent[o.n] == NullPos
    && ReadTx(disk, ix[o.hash].pos).Some? && o.n < |ReadTx(disk, ix[o.hash].pos).value.vout|
  }

  ghost function Worth(disk: Disk, ix: Index, o: OutPoint): int {
    if Spendable(disk, ix, o) then ReadTx(disk, ix[o.hash].pos).value.vout[o.n].value else 0
  }

  ghost function WorthAll(disk: Disk, ix: Index, vin: seq<OutPoint>): int {
    if vin == [] then 0 else WorthAll(disk, ix, vin[..|vin| - 1]) + Worth(disk, ix, vin[|vin| - 1])
  }

  /** Among the last `maturity` blocks up to `h`, the one stored at `pos`. */
  ghost predicate AmongLast(t: Tree, h: Hash, pos: DiskTxPos, maturity: nat)
    requires WellFormed(t) && h in t
  {
    pos.Pos? && exists x :: x in Branch(t, h) && x in t && t[h].height - t[x].height < maturity
                            && t[x].file == pos.file && t[x].blockPos == pos.blockPos
  }

  /** An input of a transaction of block `h`: its output is there, mature if newly created money, and signed for, although below
      the checkpoints' estimate no signature is looked at. */
  ghost predicate LawfulInput(env: Env, t: Tree, h: Hash, disk: Disk, ix: Index, tx: Tx, i: nat, time: nat, bestHeight: int)
    requires WellFormed(t) && h in t && i < |tx.vin|
  {
    var o := tx.vin[i];
    && Spendable(disk, ix, o)
    && var p := ReadTx(disk, ix[o.hash].pos).value;
    && (IsReward(p) ==> !AmongLast(t, h, ix[o.hash].pos, env.baseMaturity))
    && InMoney(p.vout[o.n].value)
    && (bestHeight >= env.checkpointEstimate ==> env.verify(p, tx, i, time >= 1_333_238_400))
  }

  /** A transaction that spends: every input lawful, and no more paid out than put in. */
  ghost predicate LawfulSpender(env: Env, t: Tree, h: Hash, disk: Disk, ix: Index, tx: Tx, time: nat, bestHeight: int)
    requires WellFormed(t) && h in t
  {
    && (forall i :: 0 <= i < |tx.vin| ==> LawfulInput(env, t, h, disk, ix, tx, i, time, bestHeight))
    && SumOut(tx.vout) <= WorthAll(disk, ix, tx.vin) <= 1_000_000_000_000_000
  }

  /** What the scripts of the outputs spent add to the count, since pay-to-script-hash is counted at all. */
  ghost function ScriptOps(env: Env, disk: Disk, ix: Index, tx: Tx, k: nat): nat
    requires k <= |tx.vin|
  {
    if k == 0 then 0
    else
      var o := tx.vin[k - 1];
      ScriptOps(env, disk, ix, tx, k - 1)
      + (if Spendable(disk, ix, o) then env.p2shSigOps(tx, k - 1, ReadTx(disk, ix[o.hash].pos).value.vout[o.n]) else 0)
  }

  /** The index that transaction `k` of the block meets. */
  ghost function Met(ix: Index, b: Block, file: nat, blockPos: nat, k: nat): Index
    requires k <= |b.vtx|
  {
    if ApplyTxs(ix, b, file, blockPos, k).Some? then ApplyTxs(ix, b, file, blockPos, k).value else map[]
  }

  /** Operations of the first `k` transactions: a coinbase spends nothing, so only its own scripts count. */
  ghost function Operations(env: Env, disk: Disk, ix: Index, b: Block, file: nat, blockPos: nat, k: nat): nat
    requires k <= |b.vtx|
  {
    if k == 0 then 0
    else
      var tx := b.vtx[k - 1];
      Operations(env, disk, ix, b, file, blockPos, k - 1) + tx.sigOps
      + (if IsReward(tx) || b.time < 1_333_238_400 then 0
         else ScriptOps(env, disk, Met(ix, b, file, blockPos, k - 1), tx, |tx.vin|))
  }

  /** What the first `k` transactions leave to the miner. */
  ghost function Fees(disk: Disk, ix: Index, b: Block, file: nat, blockPos: nat, k: nat): int
    requires k <= |b.vtx|
  {
    if k == 0 then 0
    else
      var tx := b.vtx[k - 1];
      Fees(disk, ix, b, file, blockPos, k - 1)
      + (if IsReward(tx) then 0 else WorthAll(disk, Met(ix, b, file, blockPos, k - 1), tx.vin) - SumOut(tx.vout))
  }

  /** Transaction `k` is lawful where it stands. */
  ghost predicate LawfulAt(env: Env, t: Tree, h: Hash, disk: Disk, ix: Index, b: Block, bestHeight: int, k: nat)
    requires WellFormed(t) && h in t && k < |b.vtx|
  {
    IsReward(b.vtx[k])
    || LawfulSpender(env, t, h, disk, Met(ix, b, t[h].file, t[h].blockPos, k), b.vtx[k], b.time, bestHeight)
  }

  /** Block `b`, as `h` of the tree, on the index of its parent. */
  ghost predicate Lawful(env: Env, t: Tree, h: Hash, disk: Disk, ix: Index, b: Block, bestHeight: int)
    requires WellFormed(t) && h in t
  {
    && SoundBlock(b) && NoneOverwritten(ix, b, t[h].height)
    && (forall k :: 0 <= k < |b.vtx| ==> LawfulAt(env, t, h, disk, ix, b, bestHeight, k))
    && Operations(env, disk, ix, b, t[h].file, t[h].blockPos, |b.vtx|) <= 15625
    && SumOut(b.vtx[0].vout) <= NewMoney(t[h].height) + Fees(disk, ix, b, t[h].file, t[h].blockPos, |b.vtx|)
  }

  /** Below the checkpoints' estimate, what signatures say makes no difference. */
  lemma SignaturesUnseen(env: Env, env': Env, t: Tree, h: Hash, disk: Disk, ix: Index, b: Block, bestHeight: int)
    requires WellFormed(t) && h in t && bestHeight < env.checkpointEstimate && env' == env.(verify := env'.verify)
    ensures Lawful(env, t, h, disk, ix, b, bestHeight) <==> Lawful(env', t, h, disk, ix, b, bestHeight)
  {
    hide AmongLast;
    OperationsUnseen(env, env', disk, ix, b, t[h].file, t[h].blockPos, |b.vtx|);
    forall k | 0 <= k < |b.vtx|
      ensures LawfulAt(env, t, h, disk, ix, b, bestHeight, k) <==> LawfulAt(env', t, h, disk, ix, b, bestHeight, k) {
      var at := Met(ix, b, t[h].file, t[h].blockPos, k);
      forall i | 0 <= i < |b.vtx[k].vin|
        ensures LawfulInput(env, t, h, disk, at, b.vtx[k], i, b.time, bestHeight)
           <==> LawfulInput(env', t, h, disk, at, b.vtx[k], i, b.time, bestHeight) {
      }
      hide LawfulInput;
    }
  }

  lemma {:induction false} OperationsUnseen(env: Env, env': Env, disk: Disk, ix: Index, b: Block, file: nat, blockPos: nat, k: nat)
    requires k <= |b.vtx| && env'.p2shSigOps == env.p2shSigOps
    ensures Operations(env, disk, ix, b, file, blockPos, k) == Operations(env', disk, ix, b, file, blockPos, k)
  {
    if k > 0 {
      OperationsUnseen(env, env', disk, ix, b, file, blockPos, k - 1);
      ScriptOpsUnseen(env, env', disk, Met(ix, b, file, blockPos, k - 1), b.vtx[k - 1], |b.vtx[k - 1].vin|);
    }
  }

  lemma {:induction false} ScriptOpsUnseen(env: Env, env': Env, disk: Disk, ix: Index, tx: Tx, k: nat)
    requires k <= |tx.vin| && env'.p2shSigOps == env.p2shSigOps
    ensures ScriptOps(env, disk, ix, tx, k) == ScriptOps(env', disk, ix, tx, k)
  {
    if k > 0 {
      ScriptOpsUnseen(env, env', disk, ix, tx, k - 1);
    }
  }

  /** Fifty coins, twenty-five between heights 74,100 and 154,000, halved every million blocks and rounded down. */
  ghost function NewMoney(height: nat): int {
    (if height < 74_100 || height >= 154_000 then 5_000_000_000 else 2_500_000_000) / Pow2(height / 1_000_000)
  }

  // ---------------------------------------------------------------- the index it leaves

  /** Where the spender of `o` is, if one of the transactions `from` to `k - 1` of the block spends it. */
  ghost function SpenderPlace(b: Block, file: nat, blockPos: nat, o: OutPoint, from: nat, k: nat): DiskTxPos
    requires k <= |b.vtx|
    decreases k
  {
    if k <= from then NullPos
    else if !IsReward(b.vtx[k - 1]) && o in b.vtx[k - 1].vin then TxPosAt(b, file, blockPos, k - 1)
    else SpenderPlace(b, file, blockPos, o, from, k - 1)
  }

  /** Record `e` under the id of transaction `j`: its own place, and for each output the place of its spender. */
  ghost predicate Entered(b: Block, file: nat, blockPos: nat, j: nat, k: nat, e: TxIndex)
    requires j < k <= |b.vtx|
  {
    && e.pos == TxPosAt(b, file, blockPos, j) && |e.vSpent| == |b.vtx[j].vout|
    && forall n :: 0 <= n < |e.vSpent| ==> e.vSpent[n] == SpenderPlace(b, file, blockPos, OutPoint(b.vtx[j].hash, n), j + 1, k)
  }

  /** Record `e` under an older id, which was `was`: the same but for outputs spent now. */
  ghost predicate SpentFrom(b: Block, file: nat, blockPos: nat, h: Hash, k: nat, was: TxIndex, e: TxIndex)
    requires k <= |b.vtx|
  {
    && e.pos == was.pos && |e.vSpent| == |was.vSpent|
    && forall n :: 0 <= n < |e.vSpent| ==>
         var s := SpenderPlace(b, file, blockPos, OutPoint(h, n), 0, k);
         e.vSpent[n] == if s == NullPos then was.vSpent[n] else s
  }

  /** The index once the first `k` transactions of a block are in. */
  ghost predicate IndexOf(ix: Index, b: Block, file: nat, blockPos: nat, k: nat, r: Index)
    requires k <= |b.vtx|
  {
    && r.Keys == ix.Keys + Ids(b.vtx[..k])
    && (forall j :: 0 <= j < k ==> b.vtx[j].hash in r && Entered(b, file, blockPos, j, k, r[b.vtx[j].hash]))
    && (forall h :: h in ix && h !in Ids(b.vtx[..k]) ==> h in r && SpentFrom(b, file, blockPos, h, k, ix[h], r[h]))
  }

  lemma {:induction false} ApplyMeaning(ix: Index, b: Block, file: nat, blockPos: nat, k: nat)
    requires k <= |b.vtx| && DistinctIds(b.vtx) && ApplyTxs(ix, b, file, blockPos, k).Some?
    ensures IndexOf(ix, b, file, blockPos, k, ApplyTxs(ix, b, file, blockPos, k).value)
  {
    hide IndexOf, SpendAll, Stamp, Points, NewEntry, DistinctIds;
    if k == 0 {
      NothingEntered(ix, b, file, blockPos);
    } else {
      var s := ApplyTxs(ix, b, file, blockPos, k - 1).value;
      var tx, p := b.vtx[k - 1], TxPosAt(b, file, blockPos, k - 1);
      SpendAllMeaning(s, tx.Inputs(), p);
      ApplyMeaning(ix, b, file, blockPos, k - 1);
      OneMoreEntered(ix, b, file, blockPos, k - 1, s, Stamp(s, Points(tx.Inputs()), p)[tx.hash := NewEntry(tx, p)]);
    }
  }

  lemma NothingEntered(ix: Index, b: Block, file: nat, blockPos: nat)
    ensures IndexOf(ix, b, file, blockPos, 0, ix)
  {
    forall h | h in ix ensures SpentFrom(b, file, blockPos, h, 0, ix[h], ix[h]) {
      assert forall n :: SpenderPlace(b, file, blockPos, OutPoint(h, n), 0, 0) == NullPos;
    }
  }

  /** A record with what transaction `k` spends of it. */
  ghost function Stamped(b: Block, file: nat, blockPos: nat, h: Hash, k: nat, e: TxIndex): TxIndex
    requires k < |b.vtx|
  {
    TxIndex(e.pos, seq(|e.vSpent|, n requires 0 <= n < |e.vSpent| =>
                     if OutPoint(h, n) in Points(b.vtx[k].Inputs()) then TxPosAt(b, file, blockPos, k) else e.vSpent[n]))
  }

  lemma PlaceStep(b: Block, file: nat, blockPos: nat, o: OutPoint, from: nat, k: nat)
    requires from <= k < |b.vtx|
    ensures SpenderPlace(b, file, blockPos, o, from, k + 1)
         == if o in Points(b.vtx[k].Inputs()) then TxPosAt(b, file, blockPos, k) else SpenderPlace(b, file, blockPos, o, from, k)
  {
    assert IsReward(b.vtx[k]) <==> b.vtx[k].IsCoinBase();
  }

  lemma EnteredStep(b: Block, file: nat, blockPos: nat, j: nat, k: nat, e: TxIndex)
    requires j < k < |b.vtx| && Entered(b, file, blockPos, j, k, e)
    ensures Entered(b, file, blockPos, j, k + 1, Stamped(b, file, blockPos, b.vtx[j].hash, k, e))
  {
    hide SpenderPlace, TxPosAt;
    forall n | 0 <= n < |e.vSpent|
      ensures Stamped(b, file, blockPos, b.vtx[j].hash, k, e).vSpent[n]
           == SpenderPlace(b, file, blockPos, OutPoint(b.vtx[j].hash, n), j + 1, k + 1) {
      PlaceStep(b, file, blockPos, OutPoint(b.vtx[j].hash, n), j + 1, k);
    }
  }

  lemma SpentStep(b: Block, file: nat, blockPos: nat, h: Hash, k: nat, was: TxIndex, e: TxIndex)
    requires k < |b.vtx| && SpentFrom(b, file, blockPos, h, k, was, e)
    ensures SpentFrom(b, file, blockPos, h, k + 1, was, Stamped(b, file, blockPos, h, k, e))
  {
    assert TxPosAt(b, file, blockPos, k).Pos?;
    hide SpenderPlace, TxPosAt;
    forall n | 0 <= n < |e.vSpent|
      ensures var s := SpenderPlace(b, file, blockPos, OutPoint(h, n), 0, k + 1);
              Stamped(b, file, blockPos, h, k, e).vSpent[n] == if s == NullPos then was.vSpent[n] else s {
      PlaceStep(b, file, blockPos, OutPoint(h, n), 0, k);
    }
  }

  lemma EnteredNow(b: Block, file: nat, blockPos: nat, k: nat)
    requires k < |b.vtx|
    ensures Entered(b, file, blockPos, k, k + 1, NewEntry(b.vtx[k], TxPosAt(b, file, blockPos, k)))
  {
  }

  lemma StampedIs(b: Block, file: nat, blockPos: nat, k: nat, s: Index, h: Hash)
    requires k < |b.vtx| && h in s
    ensures Stamp(s, Points(b.vtx[k].Inputs()), TxPosAt(b, file, blockPos, k))[h] == Stamped(b, file, blockPos, h, k, s[h])
  {
    assert Stamp(s, Points(b.vtx[k].Inputs()), TxPosAt(b, file, blockPos, k))[h].vSpent == Stamped(b, file, blockPos, h, k, s[h]).vSpent;
  }

  lemma OneMoreId(b: Block, k: nat)
    requires k < |b.vtx|
    ensures Ids(b.vtx[..k + 1]) == Ids(b.vtx[..k]) + {b.vtx[k].hash}
    ensures forall j :: 0 <= j < k ==> b.vtx[j].hash in Ids(b.vtx[..k])
  {
    assert b.vtx[..k + 1] == b.vtx[..k] + [b.vtx[k]];
    forall j | 0 <= j < k ensures b.vtx[j].hash in Ids(b.vtx[..k]) {
      assert b.vtx[..k][j] == b.vtx[j];
    }
  }

  lemma OneMoreEntered(ix: Index, b: Block, file: nat, blockPos: nat, k: nat, s: Index, r: Index)
    requires k < |b.vtx| && DistinctIds(b.vtx) && IndexOf(ix, b, file, blockPos, k, s)
    requires var tx, p := b.vtx[k], TxPosAt(b, file, blockPos, k);
             r == Stamp(s, Points(tx.Inputs()), p)[tx.hash := NewEntry(tx, p)]
    ensures IndexOf(ix, b, file, blockPos, k + 1, r)
  {
    hide Entered, SpentFrom, Stamped, Stamp, TxPosAt, NewEntry, Ids, Points, DistinctIds;
    StampedRest(b, file, blockPos, k, s, r);
    EnteredNow(b, file, blockPos, k);
    OneMoreId(b, k);
    RestEntered(ix, b, file, blockPos, k, s, r);
    RestSpent(ix, b, file, blockPos, k, s, r);
  }

  lemma StampedRest(b: Block, file: nat, blockPos: nat, k: nat, s: Index, r: Index)
    requires k < |b.vtx|
    requires var tx, p := b.vtx[k], TxPosAt(b, file, blockPos, k);
             r == Stamp(s, Points(tx.Inputs()), p)[tx.hash := NewEntry(tx, p)]
    ensures forall h :: h in s && h != b.vtx[k].hash ==> h in r && r[h] == Stamped(b, file, blockPos, h, k, s[h])
    ensures r.Keys == s.Keys + {b.vtx[k].hash} && r[b.vtx[k].hash] == NewEntry(b.vtx[k], TxPosAt(b, file, blockPos, k))
  {
    forall h | h in s && h != b.vtx[k].hash ensures h in r && r[h] == Stamped(b, file, blockPos, h, k, s[h]) {
      StampedIs(b, file, blockPos, k, s, h);
    }
  }

  lemma RestEntered(ix: Index, b: Block, file: nat, blockPos: nat, k: nat, s: Index, r: Index)
    requires k < |b.vtx| && DistinctIds(b.vtx) && IndexOf(ix, b, file, blockPos, k, s)
    requires forall h :: h in s && h != b.vtx[k].hash ==> h in r && r[h] == Stamped(b, file, blockPos, h, k, s[h])
    ensures forall j :: 0 <= j < k ==> b.vtx[j].hash in r && Entered(b, file, blockPos, j, k + 1, r[b.vtx[j].hash])
  {
    hide Entered, SpentFrom, Stamped, Ids;
    forall j | 0 <= j < k ensures b.vtx[j].hash in r && Entered(b, file, blockPos, j, k + 1, r[b.vtx[j].hash]) {
      EnteredStep(b, file, blockPos, j, k, s[b.vtx[j].hash]);
    }
  }

  lemma RestSpent(ix: Index, b: Block, file: nat, blockPos: nat, k: nat, s: Index, r: Index)
    requires k < |b.vtx| && IndexOf(ix, b, file, blockPos, k, s)
    requires forall h :: h in s && h != b.vtx[k].hash ==> h in r && r[h] == Stamped(b, file, blockPos, h, k, s[h])
    ensures forall h :: h in ix && h !in Ids(b.vtx[..k + 1]) ==> h in r && SpentFrom(b, file, blockPos, h, k + 1, ix[h], r[h])
  {
    OneMoreId(b, k);
    hide Entered, SpentFrom, Stamped, Ids;
    forall h | h in ix && h !in Ids(b.vtx[..k + 1]) ensures h in r && SpentFrom(b, file, blockPos, h, k + 1, ix[h], r[h]) {
      SpentStep(b, file, blockPos, h, k, ix[h], s[h]);
    }
  }
}
