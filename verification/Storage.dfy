/** The chain database with its one transaction, and the block files. */
module Storage {
  import opened Basics
  import opened ChainTypes
  import opened TxIndexSpec
  import opened BlockTree

  /** CDiskBlockIndex: an index entry with the hash of its successor on the main chain, if any. */
  datatype DiskBlockIndex = DiskBlockIndex(entry: BlockIndex, hashNext: Option<Hash>)

  /** The source returns false both when the rules refuse and when storage fails; the model tells them apart. */
  datatype Verdict = Accepted | Refused | Faulted

  datatype ChainDb = ChainDb(tx: Index, blockIndex: map<Hash, DiskBlockIndex>, best: Hash)

  /** CTxDB over a key-value store. Any write, read from disk or commit may fail, unless the store is
      `reliable`. A failed write leaves the transaction `broken`: it can no longer commit. */
  class TxDb {
    var reliable: bool                        // whether the store is free of failures now
    var disk: Disk
    var committed: ChainDb
    var txn: Option<ChainDb>
    var broken: bool

    constructor (db: ChainDb, reliable: bool)
      ensures disk == map[] && committed == db && txn == None && !broken && this.reliable == reliable
    {
      disk, committed, txn, broken := map[], db, None, false;
      this.reliable := reliable;
    }

    method TxnBegin() returns (ok: bool)
      modifies `txn, `broken
      ensures ok ==> old(txn).None? && txn == Some(committed) && !broken
      ensures !ok ==> txn == old(txn) && broken == old(broken)
      ensures reliable && old(txn).None? ==> ok
    {
      var storeOk: bool :| reliable ==> storeOk;
      ok := txn.None? && storeOk;
      if ok {
        txn, broken := Some(committed), false;
      }
    }

    /** All or nothing: a transaction that had a failed write cannot commit. */
    method TxnCommit() returns (ok: bool)
      modifies `committed, `txn, `broken
      ensures txn == None && !broken
      ensures ok ==> old(txn).Some? && !old(broken) && committed == old(txn).value
      ensures !ok ==> committed == old(committed)
      ensures reliable && old(txn).Some? && !old(broken) ==> ok
    {
      var storeOk: bool :| reliable ==> storeOk;
      ok := txn.Some? && !broken && storeOk;
      if ok {
        committed := txn.value;
      }
      txn, broken := None, false;
    }

    method TxnAbort()
      modifies `txn, `broken
      ensures txn == None && !broken
    {
      txn, broken := None, false;
    }

    /** The open transaction holds exactly these records. */
    ghost predicate Now(tx: Index, blockIndex: map<Hash, DiskBlockIndex>, best: Hash)
      reads this
    {
      txn.Some? && txn.value.tx == tx && txn.value.blockIndex == blockIndex && txn.value.best == best
    }

    /** What index reads see inside the transaction; nothing can be read from a broken one. */
    ghost function View(): Index
      reads this
      requires txn.Some?
    {
      if broken then map[] else txn.value.tx
    }

    method ReadTxIndex(h: Hash) returns (r: Option<TxIndex>)
      requires txn.Some?
      ensures r == if h in View() then Some(View()[h]) else None
    {
      r := if !broken && h in txn.value.tx then Some(txn.value.tx[h]) else None;
    }

    method UpdateTxIndex(h: Hash, e: TxIndex) returns (ok: bool)
      requires txn.Some?
      modifies `txn, `broken
      ensures txn.Some? && (old(broken) ==> broken)
      ensures ok ==> Now(old(txn).value.tx[h := e], old(txn).value.blockIndex, old(txn).value.best) && broken == old(broken)
      ensures !ok ==> broken
      ensures reliable ==> ok
    {
      ok :| reliable ==> ok;
      if ok {
        txn := Some(txn.value.(tx := txn.value.tx[h := e]));
      } else {
        broken := true;
      }
    }

    method EraseTxIndex(h: Hash)
      requires txn.Some?
      modifies `txn, `broken
      ensures txn.Some? && (old(broken) ==> broken)
      ensures !broken ==> Now(old(txn).value.tx - {h}, old(txn).value.blockIndex, old(txn).value.best)
      ensures reliable ==> broken == old(broken)
    {
      var storeOk: bool :| reliable ==> storeOk;
      if storeOk {
        txn := Some(txn.value.(tx := txn.value.tx - {h}));
      } else {
        broken := true;
      }
    }

    method WriteBlockIndex(h: Hash, e: DiskBlockIndex) returns (ok: bool)
      requires txn.Some?
      modifies `txn, `broken
      ensures txn.Some? && (old(broken) ==> broken)
      ensures ok ==> Now(old(txn).value.tx, old(txn).value.blockIndex[h := e], old(txn).value.best) && broken == old(broken)
      ensures !ok ==> broken
      ensures reliable ==> ok
    {
      ok :| reliable ==> ok;
      if ok {
        txn := Some(txn.value.(blockIndex := txn.value.blockIndex[h := e]));
      } else {
        broken := true;
      }
    }

    method WriteHashBestChain(h: Hash) returns (ok: bool)
      requires txn.Some?
      modifies `txn, `broken
      ensures txn.Some? && (old(broken) ==> broken)
      ensures ok ==> Now(old(txn).value.tx, old(txn).value.blockIndex, h) && broken == old(broken)
      ensures !ok ==> broken
      ensures reliable ==> ok
    {
      ok :| reliable ==> ok;
      if ok {
        txn := Some(txn.value.(best := h));
      } else {
        broken := true;
      }
    }

    /** Reading may fail, but never yields a transaction other than the one stored there. */
    method ReadTxFromDisk(pos: DiskTxPos) returns (fault: bool, r: Option<Tx>)
      ensures r == if fault then None else ReadTx(disk, pos)
      ensures reliable ==> !fault
    {
      fault :| reliable ==> !fault;
      r := if fault then None else ReadTx(disk, pos);
    }

    /** CBlock::ReadFromDisk for an index entry: the stored block must hash to the entry's key. */
    method ReadBlockFromDisk(h: Hash, e: BlockIndex) returns (fault: bool, r: Option<Block>)
      ensures r.Some? ==> (e.file, e.blockPos) in disk && r.value == disk[(e.file, e.blockPos)] && r.value.hash == h
      ensures r.None? && !fault ==> !((e.file, e.blockPos) in disk && disk[(e.file, e.blockPos)].hash == h)
      ensures reliable ==> !fault
    {
      fault :| reliable ==> !fault;
      r := None;
      if !fault && (e.file, e.blockPos) in disk && disk[(e.file, e.blockPos)].hash == h {
        r := Some(disk[(e.file, e.blockPos)]);
      }
    }
  }
}
