/** CLMDBTransaction: a write transaction logs its mutations; when the map is full it is aborted, the map grown, and
    the log replayed. Callers see a plain all-or-nothing transaction. */
module LmdbTransactions {
  import opened Basics
  import opened Lmdb

  // ---------------------------------------------------------------- the log and its meaning

  datatype Mutation = WRITE(key: Bytes, value: Bytes, fOverwrite: bool) | ERASE(key: Bytes)

  function Apply(m: Mutation, db: Records): Records {
    match m
    case WRITE(k, v, _) => db[k := v]
    case ERASE(k) => db - {k}
  }

  function Replay(log: seq<Mutation>, base: Records): Records {
    if log == [] then base else Apply(log[|log| - 1], Replay(log[..|log| - 1], base))
  }

  /** Every write of the log that must not overwrite found its key absent. */
  ghost predicate Replayable(log: seq<Mutation>, base: Records) {
    forall i :: 0 <= i < |log| && log[i].WRITE? && !log[i].fOverwrite ==> log[i].key !in Replay(log[..i], base)
  }

  lemma Logged(log: seq<Mutation>, m: Mutation, base: Records)
    ensures Replay(log + [m], base) == Apply(m, Replay(log, base))
    ensures Replayable(log, base) && (m.WRITE? && !m.fOverwrite ==> m.key !in Replay(log, base)) ==>
              Replayable(log + [m], base)
  {
    var l := log + [m];
    assert l[..|log|] == log;
    if Replayable(log, base) && (m.WRITE? && !m.fOverwrite ==> m.key !in Replay(log, base)) {
      forall i | 0 <= i < |l| && l[i].WRITE? && !l[i].fOverwrite ensures l[i].key !in Replay(l[..i], base) {
        if i < |log| { assert l[..i] == log[..i]; }
      }
    }
  }

  /** What a key holds after a log: what the last mutation of it says, or what it held before. */
  lemma {:induction false} ReplayAt(log: seq<Mutation>, base: Records, k: Bytes, i: nat)
    requires i <= |log| && forall j :: i <= j < |log| ==> log[j].key != k
    ensures k in Replay(log, base) <==> if i == 0 then k in base else k in Replay(log[..i], base)
    ensures k in Replay(log, base) ==>
              Replay(log, base)[k] == if i == 0 then base[k] else Replay(log[..i], base)[k]
  {
    if i == |log| {
      assert log[..i] == log;
    } else {
      var init := log[..|log| - 1];
      ReplayAt(init, base, k, i);
      assert init[..i] == log[..i];
    }
  }

  // ---------------------------------------------------------------- LMDB itself

  /** An LMDB transaction: what it sees, and whether an error forbids it to commit. */
  datatype MdbTxn = MdbTxn(view: Records, bad: bool)

  datatype Code = Success | KeyExist | NotFound | MapFull | OtherError

  method MdbPut(t: MdbTxn, key: Bytes, value: Bytes, fOverwrite: bool, healthy: bool) returns (ret: Code, t': MdbTxn)
    ensures ret == Success ==> !t.bad && (fOverwrite || key !in t.view) && t' == t.(view := t.view[key := value])
    ensures ret == KeyExist ==> !fOverwrite && key in t.view && t' == t
    ensures ret == MapFull ==> t' == t.(bad := true)
    ensures ret == OtherError ==> t'.view == t.view && (t.bad ==> t'.bad)
    ensures ret != NotFound
    ensures healthy && !t.bad ==> ret != OtherError
  {
    var full: bool, failed: bool, spoiled: bool := *, *, *;
    if t.bad || (failed && !healthy) {
      return OtherError, t.(bad := t.bad || spoiled);
    }
    if !fOverwrite && key in t.view {
      return KeyExist, t;
    }
    if full {
      return MapFull, t.(bad := true);
    }
    return Success, t.(view := t.view[key := value]);
  }

  method MdbDel(t: MdbTxn, key: Bytes, healthy: bool) returns (ret: Code, t': MdbTxn)
    ensures ret == Success ==> !t.bad && key in t.view && t' == t.(view := t.view - {key})
    ensures ret == NotFound ==> !t.bad && key !in t.view && t' == t
    ensures ret == MapFull ==> t' == t.(bad := true)
    ensures ret == OtherError ==> t'.view == t.view && (t.bad ==> t'.bad)
    ensures ret != KeyExist
    ensures healthy && !t.bad ==> ret != OtherError
  {
    var full: bool, failed: bool, spoiled: bool := *, *, *;
    if t.bad || (failed && !healthy) {
      return OtherError, t.(bad := t.bad || spoiled);
    }
    if key !in t.view {
      return NotFound, t;
    }
    if full {
      return MapFull, t.(bad := true);
    }
    return Success, t.(view := t.view - {key});
  }

  /** Committing frees the transaction, whatever the answer; only success publishes its view. */
  method MdbCommit(t: MdbTxn, healthy: bool) returns (ret: Code)
    ensures ret == Success || ret == MapFull || ret == OtherError
    ensures t.bad ==> ret != Success
    ensures healthy && !t.bad ==> ret != OtherError
  {
    var full: bool, failed: bool := *, *;
    ret := if t.bad || (failed && !healthy) then OtherError else if full then MapFull else Success;
  }

  // ---------------------------------------------------------------- the environment

  /** CLMDBEnv, with what the process and its other threads do to it folded in. */
  class CLMDBEnv {
    var committed: Records
    var nMapSize: nat
    const nMaxMapSize: nat
    const nPageSize: nat
    const fReadOnly: bool
    const fAutoGrow: bool
    var nActiveTxns: nat
    var fWriterActive: bool
    var healthy: bool                         // no error but a full map occurs now
    ghost var others: nat

    constructor (nMapSize: nat, nMaxMapSize: nat, nPageSize: nat, fReadOnly: bool, fAutoGrow: bool)
      ensures committed == map[] && Leases(0) && !fWriterActive
      ensures this.nMapSize == nMapSize && this.nMaxMapSize == nMaxMapSize && this.nPageSize == nPageSize
    {
      committed, fWriterActive, healthy, nActiveTxns, others := map[], false, false, 0, 0;
      this.nMapSize, this.nMaxMapSize, this.nPageSize := nMapSize, nMaxMapSize, nPageSize;
      this.fReadOnly, this.fAutoGrow := fReadOnly, fAutoGrow;
    }

    /** Leases are counted: `mine` by this transaction, the rest by others. */
    ghost predicate Leases(mine: nat)
      reads this`nActiveTxns, this`others
    {
      nActiveTxns == others + mine
    }

    /** How far the map may still grow. */
    ghost function Room(): nat
      reads this`nMapSize
    {
      if nMapSize < nMaxMapSize then nMaxMapSize - nMapSize else 0
    }

    /** The map is below its ceiling and may be enlarged. */
    predicate Growable()
      reads this`nMapSize
    {
      !fReadOnly && fAutoGrow && nPageSize > 0 && GrowTarget(nMapSize, nMaxMapSize, nPageSize).Some?
    }

    method AcquireTransactionLease()
      requires Leases(0)
      modifies this`nActiveTxns
      ensures Leases(1)
    {
      nActiveTxns := nActiveTxns + 1;
    }

    method ReleaseTransactionLease()
      requires Leases(1)
      modifies this`nActiveTxns
      ensures Leases(0)
    {
      if nActiveTxns > 0 {
        nActiveTxns := nActiveTxns - 1;
      }
    }

    method TryAcquireWriter() returns (ok: bool)
      modifies this`fWriterActive
      ensures fWriterActive && ok == !old(fWriterActive)
    {
      ok := !fWriterActive;
      fWriterActive := true;
    }

    method ReleaseWriter()
      modifies this`fWriterActive
      ensures !fWriterActive
    {
      fWriterActive := false;
    }

    /** Wait for every transaction to end, then enlarge the map. The caller holds the writer lock and no lease. */
    method GrowMap() returns (fGrown: bool)
      requires Leases(0) && fWriterActive
      modifies this`nMapSize, this`nActiveTxns, this`others
      ensures Leases(0)
      ensures fGrown ==> nActiveTxns == 0 && !fReadOnly && fAutoGrow && nPageSize > 0
                         && GrowTarget(old(nMapSize), nMaxMapSize, nPageSize) == Some(nMapSize)
      ensures fGrown ==> Room() < old(Room())
      ensures !fGrown ==> nMapSize == old(nMapSize)
      ensures nMapSize >= old(nMapSize)
      ensures healthy ==> (fGrown <==> old(Growable()))
    {
      if fReadOnly || !fAutoGrow {
        return false;
      }
      // The other transactions end while this thread waits.
      nActiveTxns, others := 0, 0;
      if nPageSize == 0 {
        return false;
      }
      var target := GrowTarget(nMapSize, nMaxMapSize, nPageSize);
      var refused: bool := *;
      if target.None? || (refused && !healthy) {
        return false;
      }
      nMapSize := target.value;
      return true;
    }
  }

  // ---------------------------------------------------------------- a transaction

  class CLMDBTransaction {
    const env: CLMDBEnv
    const fReadOnly: bool
    var txn: Option<MdbTxn>
    var fAborted: bool
    var fCommitted: bool
    var fWriterHeld: bool
    var fLeaseHeld: bool
    var nActiveIterators: nat
    var mutations: seq<Mutation>

    /** What a plain transaction would have staged: the log on top of the committed records. */
    ghost function Staged(): Records
      reads this`mutations, env`committed
    {
      Replay(mutations, env.committed)
    }

    /** Locks held are counted once; a usable transaction sees exactly what is staged. */
    ghost predicate Valid()
      reads this, env
    {
      && Replayable(mutations, env.committed)
      && env.Leases(if fLeaseHeld then 1 else 0)
      && (fWriterHeld ==> env.fWriterActive && !fReadOnly)
      && (fReadOnly ==> mutations == [])
      && (txn.Some? ==> fLeaseHeld && (fReadOnly || fWriterHeld))
      && (txn.Some? && !fReadOnly && !txn.value.bad ==> txn.value.view == Staged())
    }

    /** A write transaction that no error has spoiled, and no open cursor pins. */
    predicate Usable()
      reads this
    {
      !fReadOnly && txn.Some? && !txn.value.bad && nActiveIterators == 0
    }

    /** BeginTransaction, once the lease and, for a writer, the writer lock are held. */
    constructor (env: CLMDBEnv, fReadOnly: bool)
      requires env.Leases(1) && (!fReadOnly ==> env.fWriterActive)
      ensures Valid() && this.env == env && this.fReadOnly == fReadOnly
      ensures mutations == [] && txn == Some(MdbTxn(env.committed, false)) && nActiveIterators == 0
      ensures fLeaseHeld && fWriterHeld == !fReadOnly
    {
      this.env, this.fReadOnly := env, fReadOnly;
      txn := Some(MdbTxn(env.committed, false));
      fAborted, fCommitted, fWriterHeld, fLeaseHeld := false, false, !fReadOnly, true;
      nActiveIterators, mutations := 0, [];
    }

    method ReleaseWriter()
      modifies this`fWriterHeld, env`fWriterActive
      ensures !fWriterHeld
      ensures env.fWriterActive == (old(env.fWriterActive) && !old(fWriterHeld))
    {
      if fWriterHeld {
        env.ReleaseWriter();
        fWriterHeld := false;
      }
    }

    method ReleaseLease()
      requires env.Leases(if fLeaseHeld then 1 else 0)
      modifies this`fLeaseHeld, env`nActiveTxns
      ensures !fLeaseHeld && env.Leases(0)
    {
      if fLeaseHeld {
        env.ReleaseTransactionLease();
        fLeaseHeld := false;
      }
    }

    /** Redo the log in a new transaction. It fails for lack of room or for errors only: a write that must not
        overwrite succeeds again. */
    method ReplayMutations() returns (ret: Code)
      requires Replayable(mutations, env.committed)
      requires txn.Some? && txn.value == MdbTxn(env.committed, false)
      modifies this`txn
      ensures txn.Some?
      ensures ret == Success || ret == MapFull || ret == OtherError
      ensures ret == Success ==> txn.value == MdbTxn(Staged(), false)
      ensures env.healthy ==> ret != OtherError
    {
      var t := txn.value;
      var i := 0;
      while i < |mutations|
        invariant 0 <= i <= |mutations| && txn.Some?
        invariant t == MdbTxn(Replay(mutations[..i], env.committed), false)
      {
        var m := mutations[i];
        assert mutations[..i + 1][..i] == mutations[..i];
        match m {
          case WRITE(key, value, fOverwrite) =>
            ret, t := MdbPut(t, key, value, fOverwrite, env.healthy);
            if ret != Success {
              txn := Some(t);
              return;
            }
          case ERASE(key) =>
            ret, t := MdbDel(t, key, env.healthy);
            if ret != Success && ret != NotFound {
              txn := Some(t);
              return;
            }
            assert ret == NotFound ==> t.view - {key} == t.view;
        }
        i := i + 1;
      }
      assert mutations[..|mutations|] == mutations;
      txn := Some(t);
      ret := Success;
    }

    /** Make room after a full map: abort, grow, begin again and replay, as often as it takes. On success the
        transaction is as good as before the failure. */
    method RecoverFromMapFull() returns (ok: bool)
      requires Valid()
      modifies this`txn, this`fLeaseHeld, env`nMapSize, env`nActiveTxns, env`others
      ensures Valid() && env.Room() <= old(env.Room())
      ensures ok ==> txn.Some? && !txn.value.bad && !fReadOnly && fWriterHeld && fLeaseHeld
      ensures ok ==> env.Room() < old(env.Room()) && nActiveIterators == 0
      ensures !ok ==> txn.None? || txn == old(txn)
      ensures fReadOnly ==> !ok && txn == old(txn)
      ensures nActiveIterators > 0 ==> !ok && txn == old(txn) && env.nMapSize == old(env.nMapSize)
      ensures env.nMapSize >= old(env.nMapSize)
      ensures env.healthy && !ok && !fReadOnly && fWriterHeld && nActiveIterators == 0 ==> !env.Growable()
    {
      hide Replay, Replayable, GrowTarget, CLMDBEnv.Room;
      if fReadOnly || !fWriterHeld {
        return false;
      }
      if nActiveIterators > 0 {
        return false;
      }
      while true
        invariant Valid() && fWriterHeld && !fReadOnly
        invariant env.Room() <= old(env.Room()) && env.nMapSize >= old(env.nMapSize)
        decreases env.Room()
      {
        txn := None;
        ReleaseLease();
        var fGrown := env.GrowMap();
        if !fGrown {
          return false;
        }
        env.AcquireTransactionLease();
        fLeaseHeld := true;
        var begun: bool := *;
        if !begun && !env.healthy {
          ReleaseLease();
          return false;
        }
        txn := Some(MdbTxn(env.committed, false));
        var ret := ReplayMutations();
        if ret == Success {
          return true;
        }
        if ret == MapFull {
          txn := None;
          continue;
        }
        txn := None;
        ReleaseLease();
        return false;
      }
    }

    /** Read through the transaction. A failing transaction, or LMDB itself, may answer nothing. */
    method Read(key: Bytes) returns (value: Option<Bytes>)
      requires Valid()
      ensures value.Some? ==> txn.Some? && key in txn.value.view && value.value == txn.value.view[key]
      ensures value.Some? && !fReadOnly ==> key in Staged() && value.value == Staged()[key]
    {
      var failed: bool := *;
      if txn.None? || txn.value.bad || failed || key !in txn.value.view {
        return None;
      }
      return Some(txn.value.view[key]);
    }

    /** Stage one record. However often the map is full, either the write joins everything staged before, or
        nothing is staged and the log is as it was. */
    method Write(key: Bytes, value: Bytes, fOverwrite: bool) returns (ok: bool)
      requires Valid()
      modifies this`txn, this`fLeaseHeld, this`mutations, env`nMapSize, env`nActiveTxns, env`others
      ensures Valid()
      ensures ok ==> !fReadOnly && txn.Some? && (fOverwrite || key !in old(Staged()))
      ensures ok ==> mutations == old(mutations) + [WRITE(key, value, fOverwrite)]
                     && Staged() == old(Staged())[key := value]
      ensures !ok ==> mutations == old(mutations) && Staged() == old(Staged())
      ensures old(txn).None? || fReadOnly ==> !ok && txn == old(txn)
      ensures env.nMapSize >= old(env.nMapSize)
      ensures nActiveIterators > 0 ==> (txn.Some? <==> old(txn).Some?) && env.nMapSize == old(env.nMapSize)
      ensures env.healthy && old(Usable()) && env.Growable() ==> Usable() && (ok <==> fOverwrite || key !in old(Staged()))
    {
      if txn.None? || fReadOnly {
        return false;
      }
      while true
        invariant Valid() && txn.Some? && mutations == old(mutations)
        invariant env.nMapSize >= old(env.nMapSize) && (old(Usable()) ==> !txn.value.bad)
        invariant nActiveIterators > 0 ==> env.nMapSize == old(env.nMapSize)
        decreases env.Room()
      {
        var ret, t := MdbPut(txn.value, key, value, fOverwrite, env.healthy);
        txn := Some(t);
        if ret == Success {
          Logged(mutations, WRITE(key, value, fOverwrite), env.committed);
          mutations := mutations + [WRITE(key, value, fOverwrite)];
          return true;
        }
        if ret != MapFull {
          return false;
        }
        var recovered := RecoverFromMapFull();
        if !recovered {
          return false;
        }
      }
    }

    /** Stage the absence of a record. */
    method Erase(key: Bytes) returns (ok: bool)
      requires Valid()
      modifies this`txn, this`fLeaseHeld, this`mutations, env`nMapSize, env`nActiveTxns, env`others
      ensures Valid()
      ensures ok ==> !fReadOnly && txn.Some?
      ensures ok ==> mutations == old(mutations) + [ERASE(key)] && Staged() == old(Staged()) - {key}
      ensures !ok ==> mutations == old(mutations) && Staged() == old(Staged())
      ensures old(txn).None? || fReadOnly ==> !ok && txn == old(txn)
      ensures env.nMapSize >= old(env.nMapSize)
      ensures nActiveIterators > 0 ==> (txn.Some? <==> old(txn).Some?) && env.nMapSize == old(env.nMapSize)
      ensures env.healthy && old(Usable()) && env.Growable() ==> Usable() && ok
    {
      if txn.None? || fReadOnly {
        return false;
      }
      while true
        invariant Valid() && txn.Some? && mutations == old(mutations)
        invariant env.nMapSize >= old(env.nMapSize) && (old(Usable()) ==> !txn.value.bad)
        invariant nActiveIterators > 0 ==> env.nMapSize == old(env.nMapSize)
        decreases env.Room()
      {
        var ret, t := MdbDel(txn.value, key, env.healthy);
        txn := Some(t);
        if ret == Success || ret == NotFound {
          Logged(mutations, ERASE(key), env.committed);
          assert ret == NotFound ==> t.view - {key} == t.view;
          mutations := mutations + [ERASE(key)];
          return true;
        }
        if ret != MapFull {
          return false;
        }
        var recovered := RecoverFromMapFull();
        if !recovered {
          return false;
        }
      }
    }

    /** Publish everything staged, or nothing; either way the transaction is over and its locks are free. */
    method Commit() returns (ok: bool)
      requires Valid()
      modifies this, env`committed, env`nMapSize, env`nActiveTxns, env`others, env`fWriterActive
      ensures Valid() && Over()
      ensures ok ==> old(txn).Some? && (if fReadOnly then env.committed == old(env.committed) else env.committed == old(Staged()))
      ensures !ok ==> env.committed == old(env.committed)
      ensures fCommitted == (if old(txn).None? then old(fCommitted) else ok)
      ensures env.nMapSize >= old(env.nMapSize)
      ensures env.healthy && old(Usable()) && env.Growable() ==> ok
      ensures env.fWriterActive == (old(env.fWriterActive) && !old(fWriterHeld))
    {
      if txn.None? {
        mutations := [];
        ReleaseWriter();
        ReleaseLease();
        return false;
      }
      var ret := CommitOrGrow();
      fCommitted := ret == Success;
      ok := fCommitted;
      mutations := [];
      ReleaseWriter();
      ReleaseLease();
    }

    /** The retry loop of Commit: grow and replay until the commit does not find the map full. */
    method CommitOrGrow() returns (ret: Code)
      requires Valid() && txn.Some?
      modifies this`txn, this`fLeaseHeld, this`mutations,
               env`committed, env`nMapSize, env`nActiveTxns, env`others
      ensures Valid() && txn.None?
      ensures ret == Success ==> env.committed == (if fReadOnly then old(env.committed) else old(Staged())) && mutations == []
      ensures ret != Success ==> env.committed == old(env.committed)
      ensures env.nMapSize >= old(env.nMapSize)
      ensures env.healthy && old(Usable()) && env.Growable() ==> ret == Success
    {
      hide Replay, Replayable;
      ret := TryCommit();
      while ret == MapFull && !fReadOnly
        invariant Valid() && txn.None?
        invariant ret == Success ==> env.committed == (if fReadOnly then old(env.committed) else old(Staged()))
        invariant ret == Success ==> mutations == []
        invariant ret != Success ==> env.committed == old(env.committed) && mutations == old(mutations)
        invariant ret == Success || ret == MapFull || ret == OtherError
        invariant env.nMapSize >= old(env.nMapSize) && (env.healthy && old(Usable()) ==> ret != OtherError)
        decreases env.Room(), ret == MapFull
      {
        var recovered := RecoverFromMapFull();
        if !recovered {
          break;
        }
        ret := TryCommit();
      }
    }

    /** mdb_txn_commit and its effect. */
    method TryCommit() returns (ret: Code)
      requires Valid() && txn.Some?
      modifies this`txn, this`mutations, env`committed
      ensures Valid() && txn.None?
      ensures ret == Success || ret == MapFull || ret == OtherError
      ensures ret == Success ==> env.committed == (if fReadOnly then old(env.committed) else old(Staged())) && mutations == []
      ensures ret != Success ==> env.committed == old(env.committed) && mutations == old(mutations)
      ensures env.healthy && !old(txn.value.bad) ==> ret != OtherError
    {
      ret := MdbCommit(txn.value, env.healthy);
      if ret == Success {
        if !fReadOnly {
          env.committed := txn.value.view;
        }
        mutations := [];
      }
      txn := None;
    }

    /** Nothing staged, nothing held: this transaction's lease is given back exactly once. */
    ghost predicate Over()
      reads this, env
    {
      txn.None? && mutations == [] && !fWriterHeld && !fLeaseHeld && env.Leases(0)
    }

    /** Drop everything staged. */
    method Abort()
      requires Valid()
      modifies this`txn, this`fAborted, this`mutations, this`fWriterHeld, this`fLeaseHeld, env`fWriterActive, env`nActiveTxns
      ensures Valid() && Over() && fAborted
      ensures env.fWriterActive == (old(env.fWriterActive) && !old(fWriterHeld))
    {
      txn := None;
      fAborted := true;
      mutations := [];
      ReleaseWriter();
      ReleaseLease();
    }

    method IteratorOpened()
      modifies this`nActiveIterators
      ensures nActiveIterators == old(nActiveIterators) + 1
    {
      nActiveIterators := nActiveIterators + 1;
    }

    method IteratorClosed()
      modifies this`nActiveIterators
      ensures nActiveIterators == if old(nActiveIterators) > 0 then old(nActiveIterators) - 1 else 0
    {
      if nActiveIterators > 0 {
        nActiveIterators := nActiveIterators - 1;
      }
    }
  }

  /** CLMDBDatabase.BeginTransaction: lease, then writer lock, then LMDB; whatever fails gives back what was taken. */
  method BeginTransaction(env: CLMDBEnv, fReadOnly: bool) returns (t: CLMDBTransaction?)
    requires env.Leases(0)
    modifies env`nActiveTxns, env`fWriterActive
    ensures t == null ==> env.Leases(0) && env.fWriterActive == old(env.fWriterActive)
    ensures t != null ==>
              && fresh(t) && t.Valid() && t.env == env && t.fReadOnly == fReadOnly && t.txn.Some? && t.mutations == []
              && t.fLeaseHeld && t.fWriterHeld == !fReadOnly && (!fReadOnly ==> !old(env.fWriterActive))
              && (!fReadOnly ==> t.Usable())
    ensures env.healthy ==> (t == null <==> !fReadOnly && old(env.fWriterActive))
  {
    env.AcquireTransactionLease();
    if !fReadOnly {
      var acquired := env.TryAcquireWriter();
      if !acquired {
        env.ReleaseTransactionLease();
        return null;
      }
    }
    var begun: bool := *;
    if !begun && !env.healthy {
      if !fReadOnly {
        env.ReleaseWriter();
      }
      env.ReleaseTransactionLease();
      return null;
    }
    t := new CLMDBTransaction(env, fReadOnly);
  }

  /** The operations that reported success. */
  function Done(ops: seq<Mutation>, oks: seq<bool>): seq<Mutation>
    requires |oks| == |ops|
  {
    if ops == [] then []
    else Done(ops[..|ops| - 1], oks[..|ops| - 1]) + (if oks[|ops| - 1] then [ops[|ops| - 1]] else [])
  }

  /** The same operations on a plain map without limits: what each reports, and the records left. */
  function Plain(ops: seq<Mutation>, base: Records): (r: (seq<bool>, Records))
    ensures |r.0| == |ops|
  {
    if ops == [] then ([], base)
    else
      var p := Plain(ops[..|ops| - 1], base);
      var m := ops[|ops| - 1];
      var ok := !(m.WRITE? && !m.fOverwrite && m.key in p.1);
      (p.0 + [ok], if ok then Apply(m, p.1) else p.1)
  }

  lemma {:induction false} PlainIsDone(ops: seq<Mutation>, base: Records)
    ensures Plain(ops, base).1 == Replay(Done(ops, Plain(ops, base).0), base)
  {
    if ops != [] {
      var front := ops[..|ops| - 1];
      PlainIsDone(front, base);
      var p := Plain(front, base);
      assert Plain(ops, base).0[..|ops| - 1] == p.0;
      Logged(Done(front, p.0), ops[|ops| - 1], base);
      assert Done(front, p.0) + [] == Done(front, p.0);
    }
  }

  /** One operation of a client's transaction. */
  method RunOne(t: CLMDBTransaction, op: Mutation) returns (ok: bool)
    requires t.Valid()
    modifies t`txn, t`fLeaseHeld, t`mutations, t.env`nMapSize, t.env`nActiveTxns, t.env`others
    ensures t.Valid() && t.mutations == old(t.mutations) + (if ok then [op] else [])
    ensures t.env.nMapSize >= old(t.env.nMapSize)
    ensures t.nActiveIterators > 0 ==> (t.txn.Some? <==> old(t.txn).Some?) && t.env.nMapSize == old(t.env.nMapSize)
    ensures t.env.healthy && old(t.Usable()) && t.env.Growable() ==>
              t.Usable() && (ok <==> !(op.WRITE? && !op.fOverwrite && op.key in old(t.Staged())))
  {
    match op {
      case WRITE(key, value, fOverwrite) => ok := t.Write(key, value, fOverwrite);
      case ERASE(key) => ok := t.Erase(key);
    }
  }

  /** An operation while a cursor is open: neither the transaction nor the map moves beneath it, so one that finds the map
      full fails, and what was staged stays. */
  method RunUnderCursor(t: CLMDBTransaction, op: Mutation) returns (ok: bool)
    requires t.Valid()
    modifies t`txn, t`fLeaseHeld, t`mutations, t`nActiveIterators, t.env`nMapSize, t.env`nActiveTxns, t.env`others
    ensures t.Valid() && t.mutations == old(t.mutations) + (if ok then [op] else [])
    ensures (t.txn.Some? <==> old(t.txn).Some?) && t.env.nMapSize == old(t.env.nMapSize)
    ensures t.nActiveIterators == old(t.nActiveIterators)
  {
    t.IteratorOpened();
    ok := RunOne(t, op);
    t.IteratorClosed();
  }

  lemma RanOneMore(ops: seq<Mutation>, oks: seq<bool>, i: nat, ok: bool, base: Records)
    requires |oks| == i < |ops|
    ensures Done(ops[..i + 1], oks + [ok]) == Done(ops[..i], oks) + (if ok then [ops[i]] else [])
    ensures var p := Plain(ops[..i], base);
            Plain(ops[..i + 1], base).0 == p.0 + [!(ops[i].WRITE? && !ops[i].fOverwrite && ops[i].key in p.1)]
  {
    assert ops[..i + 1][..i] == ops[..i] && (oks + [ok])[..i] == oks;
  }

  /** A whole write transaction, as a client runs it: the committed records change by all the operations that
      reported success, or not at all, and no lock is left behind. As long as the map has not reached its ceiling,
      full maps go unnoticed: each operation reports, and the commit leaves, what a plain map would. */
  method RunTransaction(env: CLMDBEnv, ops: seq<Mutation>) returns (committed: bool, oks: seq<bool>)
    requires env.Leases(0)
    modifies env`committed, env`nMapSize, env`nActiveTxns, env`others, env`fWriterActive
    ensures env.Leases(0) && env.fWriterActive == old(env.fWriterActive) && |oks| == |ops|
    ensures committed ==> env.committed == Replay(Done(ops, oks), old(env.committed))
                          && Replayable(Done(ops, oks), old(env.committed))
    ensures !committed ==> env.committed == old(env.committed)
    ensures env.healthy && env.Growable() && !old(env.fWriterActive) ==>
              committed && (oks, env.committed) == Plain(ops, old(env.committed))
  {
    hide Replay, Replayable, Plain;
    oks := seq(|ops|, _ => false);
    var t := BeginTransaction(env, false);
    if t == null {
      return false, oks;
    }
    oks := [];
    for i := 0 to |ops|
      invariant t.Valid() && |oks| == i && t.mutations == Done(ops[..i], oks)
      invariant env.committed == old(env.committed) && t.fWriterHeld && env.fWriterActive && !old(env.fWriterActive)
      invariant env.healthy && env.Growable() ==> t.Usable() && oks == Plain(ops[..i], env.committed).0
    {
      PlainIsDone(ops[..i], env.committed);
      var ok := RunOne(t, ops[i]);
      RanOneMore(ops, oks, i, ok, env.committed);
      oks := oks + [ok];
    }
    assert ops[..|ops|] == ops;
    PlainIsDone(ops, env.committed);
    committed := t.Commit();
  }
}
