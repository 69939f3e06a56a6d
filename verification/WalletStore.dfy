/** The wallet on disk: directories renamed by a rewrite, recovery after a crash, migration from wallet.dat, and the
    marker that says which backend owns the wallet. Unless the times are `calm`, any step may fail, and the process
    may die before, inside or after it. */
module WalletStore {
  import opened Basics

  type Record = int
  type Records = map<Record, int>

  /** A directory: missing, unusable (half copied or half removed), or a complete environment. */
  datatype Dir = Absent | Partial | Complete(records: Records)

  datatype Name = Wallet | Rewrite | Old

  /** wallet, wallet.rewrite and wallet.old. */
  datatype Dirs = Dirs(wallet: Dir, rewrite: Dir, old_: Dir) {
    function Get(n: Name): Dir {
      match n case Wallet => wallet case Rewrite => rewrite case Old => old_
    }

    function Set(n: Name, d: Dir): Dirs {
      match n case Wallet => this.(wallet := d) case Rewrite => this.(rewrite := d) case Old => this.(old_ := d)
    }
  }

  datatype Marker = NoMarker | MarkerLMDB | MarkerBDB | MarkerUnknown

  datatype Backend = LMDB | BDB

  /** The LMDB wallet is there, or it was moved aside by a rewrite and every copy that recovery may pick is it. */
  predicate Recoverable(d: Dirs, committed: Records) {
    || d.wallet == Complete(committed)
    || (d.wallet == Absent && d.old_ == Complete(committed) && (d.rewrite == Complete(committed) || d.rewrite == Absent))
  }

  /** wallet.dat is the wallet still, or there is none yet. */
  predicate OwnedByBDB(d: Dirs, bdb: Option<Records>, committed: Records) {
    && (match bdb case Some(r) => r == committed case None => committed == map[])
    && (d.wallet == Absent || d.wallet == Partial || d.wallet == Complete(map[]))
    && d.rewrite == Absent && d.old_ == Absent
  }

  /** What holds on disk at every moment, crashes included. */
  predicate OnDisk(d: Dirs, marker: Marker, bdb: Option<Records>, committed: Records) {
    match marker
    case MarkerLMDB => Recoverable(d, committed)
    case MarkerBDB => bdb == Some(committed) || (bdb == None && committed == map[])
    case MarkerUnknown => true
    case NoMarker => (d.wallet == Complete(committed) && committed != map[]) || OwnedByBDB(d, bdb, committed)
  }

  datatype StartupAction = USE_EXISTING | INIT_NEW | MIGRATE_BDB | FAIL_MISSING

  function GetWalletStartupAction(fMarkerLMDB: bool, fLMDBEmpty: bool, fBDBWalletExists: bool): StartupAction {
    if !fLMDBEmpty then USE_EXISTING
    else if fMarkerLMDB then FAIL_MISSING
    else if fBDBWalletExists then MIGRATE_BDB
    else INIT_NEW
  }

  /** CheckWalletBackendCompatibility. */
  predicate Compatible(marker: Marker, wallet: Dir, configured: Backend) {
    match marker
    case MarkerUnknown => false
    case MarkerLMDB => configured == LMDB
    case MarkerBDB => configured == BDB
    case NoMarker => wallet == Absent || (wallet.Complete? && configured == LMDB)
  }

  /** Whether a start without failures opens the wallet. */
  ghost predicate StartsInCalm(marker: Marker, wallet: Dir, bdb: Option<Records>, committed: Records, configured: Backend) {
    match (marker, configured)
    case (MarkerUnknown, _) => false
    case (MarkerLMDB, LMDB) => committed != map[]
    case (MarkerLMDB, BDB) => false
    case (MarkerBDB, LMDB) => false
    case (MarkerBDB, BDB) => true
    case (NoMarker, BDB) => wallet == Absent
    case (NoMarker, LMDB) => wallet != Partial && (committed != map[] || bdb == None)
  }

  /** The staged copy of wallet.dat, each record read back as it is written, and their number compared. */
  method CopyRecords(source: Records, calm: bool) returns (fSuccess: bool, nRecords: nat, staged: Records)
    ensures fSuccess && nRecords > 0 ==> staged == source
    ensures fSuccess ==> (nRecords == 0 <==> source == map[])
    ensures calm ==> fSuccess
  {
    staged, nRecords, fSuccess := map[], 0, true;
    var rest := source.Keys;
    assert Copied(source, rest, staged);
    hide Copied;
    while rest != {}
      invariant rest <= source.Keys && Copied(source, rest, staged)
      invariant fSuccess && (nRecords == 0 ==> rest == source.Keys) && (nRecords > 0 ==> source.Keys != {})
      decreases |rest|
    {
      var key := AnyOf(rest);
      var cursorFails: bool, fWritten: bool, stored: int := *, *, *;
      if cursorFails && !calm {
        return false, nRecords, staged;
      }
      if calm {
        fWritten, stored := true, source[key];
      }
      if !fWritten || stored != source[key] {
        return false, nRecords, staged;
      }
      CopiedOneMore(source, rest, staged, key);
      staged := staged[key := stored];
      nRecords := nRecords + 1;
      rest := rest - {key};
    }
    var miscounted: bool := *;
    if nRecords > 0 && miscounted && !calm {
      fSuccess := false;
    }
    CopiedAll(source, staged);
  }

  /** All records but those in `rest` are staged. */
  ghost predicate Copied(source: Records, rest: set<Record>, staged: Records) {
    && (forall k :: k in staged <==> k in source && k !in rest)
    && (forall k :: k in staged ==> staged[k] == source[k])
  }

  lemma CopiedOneMore(source: Records, rest: set<Record>, staged: Records, key: Record)
    requires Copied(source, rest, staged) && key in source
    ensures Copied(source, rest - {key}, staged[key := source[key]])
  {
  }

  lemma CopiedAll(source: Records, staged: Records)
    requires Copied(source, {}, staged)
    ensures staged == source && (source.Keys == {} ==> source == map[])
  {
    assert forall k :: k in staged.Keys <==> k in source.Keys;
    assert staged.Keys == source.Keys;
    forall k | k in source.Keys ensures k in staged && staged[k] == source[k] {
      assert k in source && k in staged;
    }
    assert staged == source;
  }

  /** The data directory and the process using it. `committed` is what the wallet's owner last committed. */
  class WalletDir {
    var dirs: Dirs
    var marker: Marker
    var bdb: Option<Records>
    var alive: bool
    var calm: bool
    var fLMDBOpen: bool
    var fBDBOpen: bool
    ghost var committed: Records

    /** A running process with the wallet open sees exactly what was committed. */
    ghost predicate Valid()
      reads this
    {
      && OnDisk(dirs, marker, bdb, committed)
      && (alive && fLMDBOpen ==> dirs.wallet == Complete(committed) && marker == MarkerLMDB)
      && (alive && fBDBOpen ==> !fLMDBOpen && marker != MarkerLMDB && marker != MarkerUnknown
                                && (marker == NoMarker ==> dirs.wallet == Absent && OwnedByBDB(dirs, bdb, committed)))
    }

    /** A data directory as found: new, with a wallet.dat, or with an LMDB wallet of an older version. */
    constructor (bdb: Option<Records>, lmdb: Option<Records>)
      requires lmdb.Some? ==> lmdb.value != map[]
      ensures Valid() && !alive && this.bdb == bdb && marker == NoMarker
      ensures dirs == Dirs(if lmdb.Some? then Complete(lmdb.value) else Absent, Absent, Absent)
      ensures committed == if lmdb.Some? then lmdb.value else if bdb.Some? then bdb.value else map[]
    {
      dirs := Dirs(if lmdb.Some? then Complete(lmdb.value) else Absent, Absent, Absent);
      marker, this.bdb, alive, fLMDBOpen, fBDBOpen := NoMarker, bdb, false, false, false;
      committed := if lmdb.Some? then lmdb.value else if bdb.Some? then bdb.value else map[];
    }

    // ---------------------------------------------------------------- steps that may fail, or be the last

    /** The process may die here; then nothing it would still do has any effect. */
    method MayCrash()
      modifies this`alive
      ensures alive ==> old(alive)
      ensures calm ==> alive == old(alive)
    {
      var dies: bool := *;
      alive := alive && (calm || !dies);
    }

    /** rename: all or nothing. A complete directory is never replaced. */
    method Rename(from: Name, to: Name) returns (ok: bool)
      requires from != to
      modifies this`dirs, this`alive
      ensures alive ==> old(alive)
      ensures ok ==>
                && old(alive) && old(dirs).Get(from) != Absent && !old(dirs).Get(to).Complete?
                && dirs == old(dirs).Set(to, old(dirs).Get(from)).Set(from, Absent)
      ensures !ok ==> dirs == old(dirs)
      ensures calm ==> alive == old(alive)
      ensures calm && alive && old(dirs).Get(from) != Absent && !old(dirs).Get(to).Complete? ==> ok
    {
      MayCrash();
      var refused: bool := *;
      if !alive || (refused && !calm) || dirs.Get(from) == Absent || dirs.Get(to).Complete? {
        return false;
      }
      dirs := dirs.Set(to, dirs.Get(from)).Set(from, Absent);
      ok := true;
      MayCrash();
    }

    /** remove_all: may stop half way. */
    method RemoveAll(n: Name) returns (ok: bool)
      modifies this`dirs, this`alive
      ensures alive ==> old(alive)
      ensures dirs == old(dirs) || (old(alive) && (dirs == old(dirs).Set(n, Partial) || dirs == old(dirs).Set(n, Absent)))
      ensures old(dirs).Get(n) == Absent ==> dirs == old(dirs)
      ensures ok && alive ==> dirs == old(dirs).Set(n, Absent)
      ensures calm ==> alive == old(alive) && (alive ==> ok)
    {
      MayCrash();
      if !alive || dirs.Get(n) == Absent {
        return true;
      }
      var started: bool, finished: bool := *, *;
      if started {
        dirs := dirs.Set(n, Partial);
      }
      MayCrash();
      if !alive || !(finished || calm) {
        return false;
      }
      dirs := dirs.Set(n, Absent);
      ok := true;
      MayCrash();
    }

    /** create_directories and mdb_env_copy2: only into a directory without a data file. */
    method CopyTo(n: Name, r: Records) returns (ok: bool)
      modifies this`dirs, this`alive
      ensures alive ==> old(alive)
      ensures dirs == old(dirs)
              || (old(alive) && !old(dirs).Get(n).Complete? && (dirs == old(dirs).Set(n, Partial) || dirs == old(dirs).Set(n, Complete(r))))
      ensures ok && alive ==> dirs == old(dirs).Set(n, Complete(r))
      ensures calm ==> alive == old(alive) && (alive && !old(dirs).Get(n).Complete? ==> ok)
    {
      MayCrash();
      var created: bool, copied: bool := *, *;
      if !alive || dirs.Get(n).Complete? || !(created || calm) {
        return false;
      }
      dirs := dirs.Set(n, Partial);
      MayCrash();
      if !alive || !(copied || calm) {
        return false;
      }
      dirs := dirs.Set(n, Complete(r));
      ok := true;
      MayCrash();
    }

    /** Opening the wallet environment, creating an empty one if there is none. */
    method OpenEnv() returns (ok: bool)
      modifies this`dirs, this`alive
      ensures alive ==> old(alive)
      ensures dirs == old(dirs)
              || (old(alive) && !old(dirs).wallet.Complete? && (dirs.wallet == Partial || dirs.wallet == Complete(map[]))
                  && dirs == old(dirs).(wallet := dirs.wallet))
      ensures ok && alive ==> dirs.wallet.Complete?
      ensures calm ==> alive == old(alive) && (alive ==> ok) && (alive && !old(dirs).wallet.Complete? ==> dirs.wallet == Complete(map[]))
    {
      MayCrash();
      var created: bool, opens: bool := *, *;
      if !alive {
        return false;
      }
      if !dirs.wallet.Complete? {
        dirs := dirs.(wallet := Partial);
        MayCrash();
        if !alive || !(created || calm) {
          return false;
        }
        dirs := dirs.(wallet := Complete(map[]));
      }
      MayCrash();
      ok := (opens || calm) && alive;
    }

    // ---------------------------------------------------------------- rewriting

    /** Client writes while the wallet is open. */
    method CommitRecords(r: Records)
      requires Valid()
      modifies this`dirs, this`bdb, this`committed
      ensures Valid()
      ensures committed == if alive && (fLMDBOpen || fBDBOpen) then r else old(committed)
      ensures dirs == if alive && fLMDBOpen then old(dirs).(wallet := Complete(r)) else old(dirs)
      ensures bdb == if alive && fBDBOpen && !fLMDBOpen then Some(r) else old(bdb)
    {
      if alive && fLMDBOpen {
        dirs := dirs.(wallet := Complete(r));
        committed := r;
      } else if alive && fBDBOpen {
        bdb := Some(r);
        committed := r;
      }
    }

    /** Reopening after a rewrite step has closed the environment. */
    method ReopenLMDBWallet() returns (ok: bool)
      modifies this`dirs, this`alive, this`fLMDBOpen
      ensures alive ==> old(alive)
      ensures old(dirs).wallet.Complete? ==> dirs == old(dirs)
      ensures dirs == old(dirs) || (old(alive) && !old(dirs).wallet.Complete? && dirs == old(dirs).(wallet := dirs.wallet))
      ensures fLMDBOpen <==> ok
      ensures calm ==> alive == old(alive) && (alive ==> ok)
    {
      ok := OpenEnv();
      fLMDBOpen := ok;
    }

    /** No usable environment is left: stop rather than fall back to wallet.dat. */
    method FatalWalletRewrite()
      modifies this`alive
      ensures !alive
    {
      alive := false;
    }

    /** Compact the wallet into a new environment and put that in place. Whatever fails and whenever the process
        dies, nothing committed is lost; the caller never gets control back without an open wallet; and success
        leaves no old copy behind. */
    method RewriteWalletLMDB() returns (ok: bool)
      requires Valid() && alive && fLMDBOpen
      modifies this`dirs, this`alive, this`fLMDBOpen
      ensures Valid()
      ensures alive ==> fLMDBOpen
      ensures ok && alive ==> dirs == Dirs(Complete(committed), Absent, Absent)
      ensures calm && old(alive) ==> ok && alive
    {
      var done := RemoveAll(Rewrite);
      done := RemoveAll(Old);
      var copied := CopyTo(Rewrite, dirs.wallet.records);
      if !copied {
        done := RemoveAll(Rewrite);
        return false;
      }
      fLMDBOpen := false;
      var moved := Rename(Wallet, Old);
      if !moved {
        done := RemoveAll(Rewrite);
        var reopened := ReopenLMDBWallet();
        if !reopened {
          FatalWalletRewrite();
        }
        return false;
      }
      ok := InstallRewritten();
    }

    /** The second half of RewriteWalletLMDB: the old wallet is aside, nothing is in its place. */
    method InstallRewritten() returns (ok: bool)
      requires marker == MarkerLMDB && !fLMDBOpen && !fBDBOpen
      requires Recoverable(dirs, committed)
      requires alive ==> dirs == Dirs(Absent, Complete(committed), Complete(committed))
      modifies this`dirs, this`alive, this`fLMDBOpen
      ensures Valid()
      ensures alive ==> fLMDBOpen
      ensures ok && alive ==> dirs == Dirs(Complete(committed), Absent, Absent)
      ensures calm && old(alive) ==> ok && alive
    {
      var installed := Rename(Rewrite, Wallet);
      if !installed {
        var restored := Rename(Old, Wallet);
        if restored {
          var reopened := ReopenLMDBWallet();
          if reopened {
            var done := RemoveAll(Rewrite);
            return false;
          }
        }
        FatalWalletRewrite();
        return false;
      }
      var reopened := ReopenLMDBWallet();
      if !reopened {
        var parked := Rename(Wallet, Rewrite);
        var restored := parked;
        if parked {
          restored := Rename(Old, Wallet);
        }
        if restored {
          reopened := ReopenLMDBWallet();
          if reopened {
            var done := RemoveAll(Rewrite);
            return false;
          }
        }
        FatalWalletRewrite();
        return false;
      }
      ok := RemoveAll(Old);
    }

    /** Finish or undo a rewrite that a crash interrupted. */
    method RecoverInterruptedWalletRewrite()
      requires Valid() && !fLMDBOpen && !fBDBOpen
      modifies this`dirs, this`alive
      ensures Valid() && (alive ==> old(alive))
      ensures alive && dirs.wallet == Absent ==> dirs == old(dirs)
      ensures marker == NoMarker && OwnedByBDB(old(dirs), bdb, committed) ==> dirs == old(dirs)
      ensures calm ==> alive == old(alive)
      ensures calm && alive && Recoverable(old(dirs), committed) ==> dirs == Dirs(Complete(committed), Absent, Absent)
    {
      if dirs.wallet == Absent && (dirs.rewrite != Absent || dirs.old_ != Absent) {
        var from := if dirs.rewrite != Absent then Rewrite else Old;
        var restored := Rename(from, Wallet);
      }
      if dirs.wallet != Absent {
        var done := RemoveAll(Rewrite);
        done := RemoveAll(Old);
      }
    }

    // ---------------------------------------------------------------- starting

    /** MigrateWalletToLMDB, into an empty environment: all of wallet.dat or nothing. */
    method MigrateWalletToLMDB() returns (ok: bool)
      requires Valid() && !fLMDBOpen && !fBDBOpen && marker == NoMarker && bdb.Some?
      requires alive ==> dirs.wallet == Complete(map[]) && OwnedByBDB(dirs, bdb, committed)
      modifies this`dirs, this`alive
      ensures Valid() && (alive ==> old(alive))
      ensures ok && alive ==> dirs.wallet == Complete(committed) && committed != map[]
      ensures !ok && alive ==> dirs == old(dirs)
      ensures calm ==> alive == old(alive) && (alive ==> (ok <==> committed != map[]))
    {
      var fSuccess, nRecords, staged := CopyRecords(bdb.value, calm);
      MayCrash();
      if nRecords == 0 || !fSuccess || !alive {
        return false;
      }
      var commits: bool := *;
      if !commits && !calm {
        return false;
      }
      dirs := dirs.(wallet := Complete(staged));
      ok := true;
      MayCrash();
    }

    /** WriteWalletBackendMarker: a temporary file renamed over the marker, or, where that fails, put in its place. */
    method WriteMarkerLMDB() returns (ok: bool)
      requires OnDisk(dirs, marker, bdb, committed) && (marker == MarkerLMDB || marker == NoMarker)
      requires alive ==> dirs.wallet == Complete(committed)
      requires alive && marker == MarkerLMDB ==> committed != map[]
      modifies this`marker, this`alive
      ensures OnDisk(dirs, marker, bdb, committed) && (alive ==> old(alive))
      ensures ok && alive ==> marker == MarkerLMDB
      ensures calm ==> alive == old(alive) && (alive ==> ok)
    {
      MayCrash();
      var written: bool, renamed: bool, removed: bool, again: bool := *, *, *, *;
      if !alive || !(written || calm) {
        return false;
      }
      if !renamed {
        if removed {
          marker := NoMarker;
        }
        MayCrash();
        if !alive || !(again || calm) {
          return false;
        }
      }
      marker := MarkerLMDB;
      ok := true;
      MayCrash();
    }

    /** A new process takes over the data directory. A start that succeeds has the last committed wallet, whatever
        happened before; a directory it cannot be sure of is refused. In calm times the start succeeds exactly when
        the marker allows the backend and, for LMDB, there is a record or there was never a wallet: a wallet that
        is marked as LMDB's, or to be migrated, without a single record is refused. */
    method Start(configured: Backend) returns (ok: bool)
      requires Valid()
      modifies this`dirs, this`marker, this`alive, this`fLMDBOpen, this`fBDBOpen
      ensures Valid()
      ensures ok && alive ==> (fLMDBOpen <==> configured == LMDB) && (fBDBOpen <==> configured == BDB)
      ensures ok && alive && configured == LMDB ==> dirs.wallet == Complete(committed)
      ensures ok && alive && configured == BDB ==>
                if bdb.Some? then bdb.value == committed else committed == map[]
      ensures old(marker) == MarkerLMDB && (committed == map[] || configured == BDB) ==> !ok || !alive
      ensures !ok ==> !fLMDBOpen && !fBDBOpen
      ensures calm ==>
        alive && (ok <==> old(Compatible(marker, dirs.wallet, configured)) && (configured == LMDB ==> old(Startable())))
      ensures calm ==> alive && (ok <==> old(StartsInCalm(marker, dirs.wallet, bdb, committed, configured)))
    {
      alive, fLMDBOpen, fBDBOpen := true, false, false;
      if !Compatible(marker, dirs.wallet, configured) {
        return false;
      }
      if configured == BDB {
        fBDBOpen := true;
        return true;
      }
      ok := InitLMDBWalletDBInternal();
    }

    /** There are records, or nothing says there should be. */
    ghost predicate Startable()
      reads this
    {
      committed != map[] || (marker == NoMarker && bdb == None)
    }

    /** InitLMDBWalletDBInternal. */
    method InitLMDBWalletDBInternal() returns (ok: bool)
      requires Valid() && !fLMDBOpen && !fBDBOpen && Compatible(marker, dirs.wallet, LMDB)
      modifies this`dirs, this`marker, this`alive, this`fLMDBOpen
      ensures Valid() && (ok && alive ==> fLMDBOpen)
      ensures old(marker) == MarkerLMDB && committed == map[] ==> !ok || !alive
      ensures !ok ==> !fLMDBOpen
      ensures calm && old(alive) ==> alive && (ok <==> old(Startable()))
    {
      RecoverInterruptedWalletRewrite();
      var fMarkerLMDB := marker == MarkerLMDB;
      var fBDBWalletExists := bdb.Some?;
      if fMarkerLMDB && !dirs.wallet.Complete? {
        return false;
      }
      var open := OpenEnv();
      var inspected: bool := *;
      if !open || !(inspected || calm) || !alive {
        return false;
      }
      var fLMDBEmpty := dirs.wallet.records == map[];
      match GetWalletStartupAction(fMarkerLMDB, fLMDBEmpty, fBDBWalletExists) {
        case FAIL_MISSING =>
          return false;
        case MIGRATE_BDB =>
          var migrated := MigrateWalletToLMDB();
          if !migrated {
            var removed := RemoveAll(Wallet);
            return false;
          }
        case INIT_NEW =>
        case USE_EXISTING =>
      }
      var marked := WriteMarkerLMDB();
      if !marked {
        return false;
      }
      fLMDBOpen := true;
      ok := true;
    }

    ghost function Seen(): WalletView
      reads this
    {
      WalletView(dirs, marker, bdb, committed, alive, fLMDBOpen, fBDBOpen, calm)
    }

    /** Any history of starts, commits, rewrites and crashes goes step by step as its events say, and keeps what holds on
        disk at every moment. */
    method Live(events: seq<Event>) returns (ghost views: seq<WalletView>)
      requires Valid()
      modifies this
      ensures Valid()
      ensures |views| == |events| + 1 && views[0] == old(Seen()) && views[|events|] == Seen()
      ensures forall i :: 0 <= i < |events| ==> Step(views[i], events[i], views[i + 1])
    {
      views := [Seen()];
      for i := 0 to |events|
        invariant Valid() && |views| == i + 1 && views[0] == old(Seen()) && views[i] == Seen()
        invariant forall k :: 0 <= k < i ==> Step(views[k], events[k], views[k + 1])
      {
        Happen(events[i]);
        views := views + [Seen()];
      }
    }

    /** One event. */
    method Happen(e: Event)
      requires Valid()
      modifies this
      ensures Valid() && Step(old(Seen()), e, Seen())
    {
      match e {
        case Launch(configured) => var ok := Start(configured);
        case Commit(r) => CommitRecords(r);
        case Compact => if alive && fLMDBOpen { var ok := RewriteWalletLMDB(); }
        case Die => alive := false;
        case Turn(calmer) => calm := calmer;
      }
    }
  }

  /** In calm times a new LMDB wallet starts; without a record written, the next start refuses it. */
  method EmptyWalletRefused() returns (w: WalletDir, first: bool, second: bool)
    ensures fresh(w) && first && !second && w.calm && w.committed == map[]
  {
    w := new WalletDir(None, None);
    w.calm := true;
    first := w.Start(LMDB);
    w.alive := false;
    assert w.marker == MarkerLMDB;
    second := w.Start(LMDB);
  }

  /** Nor is a wallet.dat without a record migrated. */
  method EmptyWalletDatRefused() returns (w: WalletDir, ok: bool)
    ensures fresh(w) && !ok && w.calm && w.bdb == Some(map[])
  {
    w := new WalletDir(Some(map[]), None);
    w.calm := true;
    ok := w.Start(LMDB);
  }

  datatype Event = Launch(configured: Backend) | Commit(r: Records) | Compact | Die | Turn(calmer: bool)

  datatype WalletView = WalletView(dirs: Dirs, marker: Marker, bdb: Option<Records>, committed: Records, alive: bool,
                                   fLMDBOpen: bool, fBDBOpen: bool, calm: bool)
  {
    predicate Open() { alive && (fLMDBOpen || fBDBOpen) }
  }

  /** What each event may make of a wallet. A start leaves what is committed, and opens it or nothing, in calm times exactly
      if the marker allows the backend and there is a wallet or none is expected; a commit to an open wallet counts; a
      rewrite changes nothing that is committed, and in calm times leaves one directory. */
  ghost predicate Step(u: WalletView, e: Event, v: WalletView) {
    match e
    case Launch(c) =>
      && v.committed == u.committed && v.bdb == u.bdb && v.calm == u.calm
      && (v.Open() ==> v.fLMDBOpen == (c == LMDB) && v.fBDBOpen == (c == BDB))
      && (v.Open() && c == LMDB ==> v.dirs.wallet == Complete(v.committed))
      && (v.Open() && c == BDB ==> if v.bdb.Some? then v.bdb.value == v.committed else v.committed == map[])
      && (u.calm ==>
            && v.alive
            && (v.Open() <==> StartsInCalm(u.marker, u.dirs.wallet, u.bdb, u.committed, c)))
    case Commit(r) =>
      && v == u.(dirs := v.dirs, bdb := v.bdb, committed := if u.Open() then r else u.committed)
      && v.dirs == (if u.alive && u.fLMDBOpen then u.dirs.(wallet := Complete(r)) else u.dirs)
      && v.bdb == (if u.Open() && !u.fLMDBOpen then Some(r) else u.bdb)
    case Compact =>
      && v == u.(dirs := v.dirs, alive := v.alive, fLMDBOpen := v.fLMDBOpen)
      && (if u.alive && u.fLMDBOpen then
            && (v.alive ==> v.fLMDBOpen && v.dirs.wallet == Complete(u.committed))
            && (u.calm ==> v.alive && v.dirs == Dirs(Complete(u.committed), Absent, Absent))
          else v == u)
    case Die => v == u.(alive := false)
    case Turn(calmer) => v == u.(calm := calmer)
  }
}
