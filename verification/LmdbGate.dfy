/** The locking protocol around LMDB, as the steps of any number of threads in any order: leases, the writer lock,
    the environment mutex, and growing the map. */
module LmdbGate {
  import opened Basics
  import opened Lmdb

  type Thread = int

  /** Where a thread is. `rw` tells a writer from a reader.
      Begin: has its lease, wants the writer lock if rw. Ready: may start its LMDB transaction. Live: it runs.
      Ending, Leaving: giving back the writer lock, then the lease. Full: the map was full, transaction aborted.
      Grow: lease given back. Waiting: in GrowMap, draining. Grown: map enlarged, lease to be taken again.
      Again: lease taken, may start the replaying transaction. Lost: that failed, lease still to be given back.
      Stuck: recovery failed, the dead transaction still has the writer lock.
      EnvLocked, EnvLive: GetDbStats (reading) or OpenDbi (writing) inside the environment mutex. */
  datatype Phase =
    | Idle | Begin(rw: bool) | Ready(rw: bool) | Live(rw: bool) | Ending(rw: bool) | Leaving
    | Full | Grow | Waiting | Grown | Again | Lost | Stuck
    | EnvLocked(wr: bool) | EnvLive(wr: bool)

  predicate HasLease(p: Phase) {
    p.Begin? || p.Ready? || p.Live? || p.Ending? || p.Leaving? || p.Full? || p.Again? || p.Lost?
  }

  predicate HasWriter(p: Phase) {
    || (p.Ready? && p.rw) || (p.Live? && p.rw) || (p.Ending? && p.rw)
    || p.Full? || p.Grow? || p.Waiting? || p.Grown? || p.Again? || p.Lost? || p.Stuck?
  }

  predicate HasEnvMutex(p: Phase) { p.EnvLocked? || p.EnvLive? }

  /** An LMDB transaction of this thread is open; `OpenWriting` if it may write. */
  predicate Open(p: Phase) { p.Live? || p.EnvLive? }

  predicate OpenWriting(p: Phase) { (p.Live? && p.rw) || (p.EnvLive? && p.wr) }

  datatype State = State(pc: map<Thread, Phase>, nActiveTxns: nat, fResizePending: bool, fWriterActive: bool,
                         nMapSize: nat, nMaxMapSize: nat, nPageSize: nat)

  ghost predicate NobodyWriting(s: State) {
    forall u :: u in s.pc ==> !OpenWriting(s.pc[u])
  }

  ghost predicate MutexFree(s: State) {
    forall u :: u in s.pc ==> !HasEnvMutex(s.pc[u])
  }

  /** What a thread may do next. */
  datatype Action =
    | AcquireLease(rw: bool) | TryWriter | TxnBegin(ok: bool) | Finish | ReleaseWriter | ReleaseLease
    | HitFull | GiveUp | AskGrow(allowed: bool) | Resize(ok: bool) | LockEnv(wr: bool) | EnvTxn | UnlockEnv

  ghost predicate Enabled(s: State, t: Thread, a: Action) {
    t in s.pc && s.nPageSize > 0 &&
    var p := s.pc[t];
    match a
    case AcquireLease(rw) => !s.fResizePending && (p == Idle || (p == Grown && rw))
    case TryWriter => p.Begin?
    case TxnBegin(_) => (p.Ready? || p == Again) && (p == Ready(false) || NobodyWriting(s))
    case Finish => p.Live?
    case ReleaseWriter => p.Ending? || p == Stuck
    case ReleaseLease => p == Leaving || p == Full || p == Lost
    case HitFull => p == Live(true)
    case GiveUp => p == Live(true)
    case AskGrow(_) => p == Grow
    case Resize(ok) =>
      && p == Waiting && s.nActiveTxns == 0 && MutexFree(s)
      && (ok ==> GrowTarget(s.nMapSize, s.nMaxMapSize, s.nPageSize).Some?)
    case LockEnv(_) => p == Idle && MutexFree(s)
    case EnvTxn => p.EnvLocked? && (p.wr ==> NobodyWriting(s))
    case UnlockEnv => p.EnvLive?
  }

  function To(s: State, t: Thread, p: Phase): State { s.(pc := s.pc[t := p]) }

  /** The state after an enabled action. Each is atomic under the lock or atomic variable the code uses for it. */
  ghost function Take(s: State, t: Thread, a: Action): State
    requires Enabled(s, t, a)
  {
    var p := s.pc[t];
    match a
    case AcquireLease(rw) =>
      To(s, t, if p == Grown then Again else Begin(rw)).(nActiveTxns := s.nActiveTxns + 1)
    case TryWriter =>
      if !p.rw then To(s, t, Ready(false))
      else if s.fWriterActive then To(s, t, Leaving)
      else To(s, t, Ready(true)).(fWriterActive := true)
    case TxnBegin(ok) =>
      if p == Again then To(s, t, if ok then Live(true) else Lost)
      else To(s, t, if ok then Live(p.rw) else Ending(p.rw))
    case Finish => To(s, t, Ending(p.rw))
    case ReleaseWriter =>
      var next := To(s, t, if p == Stuck then Idle else Leaving);
      if p == Stuck || p.rw then next.(fWriterActive := false) else next
    case ReleaseLease =>
      To(s, t, if p == Full then Grow else if p == Lost then Stuck else Idle)
        .(nActiveTxns := if s.nActiveTxns > 0 then s.nActiveTxns - 1 else 0)
    case HitFull => To(s, t, Full)
    case GiveUp => To(s, t, Lost)
    case AskGrow(allowed) => if allowed then To(s, t, Waiting).(fResizePending := true) else To(s, t, Stuck)
    case Resize(ok) =>
      if ok then
        To(s, t, Grown).(fResizePending := false,
                         nMapSize := GrowTarget(s.nMapSize, s.nMaxMapSize, s.nPageSize).value)
      else To(s, t, Stuck).(fResizePending := false)
    case LockEnv(wr) => To(s, t, EnvLocked(wr))
    case EnvTxn => To(s, t, EnvLive(p.wr))
    case UnlockEnv => To(s, t, Idle)
  }

  // ---------------------------------------------------------------- what every step keeps

  ghost function Leases(pc: map<Thread, Phase>): set<Thread> { set t | t in pc && HasLease(pc[t]) }

  ghost predicate Inv(s: State) {
    && s.nPageSize > 0
    && s.nActiveTxns == |Leases(s.pc)|
    && WriterOk(s) && ResizeOk(s) && MutexOk(s)
  }

  /** The writer lock is taken exactly when one thread, and only one, has it. */
  ghost predicate WriterOk(s: State) {
    && (forall t, u :: t in s.pc && u in s.pc && HasWriter(s.pc[t]) && HasWriter(s.pc[u]) ==> t == u)
    && (forall t :: t in s.pc && HasWriter(s.pc[t]) ==> s.fWriterActive)
    && (s.fWriterActive ==> exists t :: t in s.pc && HasWriter(s.pc[t]))
  }

  ghost predicate ResizeOk(s: State) {
    s.fResizePending <==> exists t :: t in s.pc && s.pc[t] == Waiting
  }

  ghost predicate MutexOk(s: State) {
    && (forall t, u :: t in s.pc && u in s.pc && HasEnvMutex(s.pc[t]) && HasEnvMutex(s.pc[u]) ==> t == u)
    && (forall t, u :: t in s.pc && u in s.pc && OpenWriting(s.pc[t]) && OpenWriting(s.pc[u]) ==> t == u)
  }

  lemma LeasesChange(pc: map<Thread, Phase>, t: Thread, p: Phase)
    requires t in pc
    ensures |Leases(pc[t := p])| == |Leases(pc)| + (if HasLease(p) then 1 else 0) - (if HasLease(pc[t]) then 1 else 0)
  {
    var rest := Leases(pc) - {t};
    assert Leases(pc) == if HasLease(pc[t]) then rest + {t} else rest;
    assert Leases(pc[t := p]) == if HasLease(p) then rest + {t} else rest;
  }

  /** One thread moves; the writer lock, the mutex and the right to write pass only when free. */
  lemma StepShape(s: State, t: Thread, a: Action)
    requires Enabled(s, t, a)
    ensures var s' := Take(s, t, a);
            var p, p' := s.pc[t], s'.pc[t];
            && s'.pc == s.pc[t := p']
            && ((HasWriter(p') == HasWriter(p) && s'.fWriterActive == s.fWriterActive)
                || (!HasWriter(p) && HasWriter(p') && !s.fWriterActive && s'.fWriterActive)
                || (HasWriter(p) && !HasWriter(p') && !s'.fWriterActive))
            && (HasEnvMutex(p') ==> HasEnvMutex(p) || MutexFree(s))
            && (OpenWriting(p') ==> OpenWriting(p) || NobodyWriting(s))
  {
    hide MutexFree, NobodyWriting;
  }

  lemma StepKeepsWriter(s: State, t: Thread, a: Action)
    requires WriterOk(s) && Enabled(s, t, a)
    ensures WriterOk(Take(s, t, a))
  {
    StepShape(s, t, a);
    assert t in s.pc;
    hide Take, Enabled, HasWriter, MutexFree, NobodyWriting;
    var s' := Take(s, t, a);
    assert forall u :: u in s'.pc && u != t ==> u in s.pc && s'.pc[u] == s.pc[u];
    if s'.fWriterActive {
      if HasWriter(s'.pc[t]) {
        assert t in s'.pc;
      } else {
        var u :| u in s.pc && HasWriter(s.pc[u]);
        assert u in s'.pc && HasWriter(s'.pc[u]);
      }
    }
  }

  lemma StepKeepsResize(s: State, t: Thread, a: Action)
    requires WriterOk(s) && ResizeOk(s) && Enabled(s, t, a)
    ensures ResizeOk(Take(s, t, a))
  {
    var s' := Take(s, t, a);
    assert forall u :: u in s'.pc && u != t ==> u in s.pc && s'.pc[u] == s.pc[u];
    if s'.fResizePending {
      if s'.pc[t] == Waiting {
        assert t in s'.pc;
      } else {
        var u :| u in s.pc && s.pc[u] == Waiting;
        assert u in s'.pc && s'.pc[u] == Waiting;
      }
    } else if s.fResizePending {
      forall u | u in s'.pc ensures s'.pc[u] != Waiting {
        assert u in s.pc && HasWriter(s.pc[t]);
        assert HasWriter(s.pc[u]) ==> u == t;
      }
    }
  }

  lemma StepKeeps(s: State, t: Thread, a: Action)
    requires Inv(s) && Enabled(s, t, a)
    ensures Inv(Take(s, t, a))
  {
    var s' := Take(s, t, a);
    LeasesChange(s.pc, t, s'.pc[t]);
    assert t in Leases(s.pc) ==> |Leases(s.pc)| > 0 by {
      if t in Leases(s.pc) { assert Leases(s.pc) != {}; }
    }
    StepKeepsWriter(s, t, a);
    StepKeepsResize(s, t, a);
    StepKeepsMutex(s, t, a);
  }

  lemma StepKeepsMutex(s: State, t: Thread, a: Action)
    requires MutexOk(s) && Enabled(s, t, a)
    ensures MutexOk(Take(s, t, a))
  {
    StepShape(s, t, a);
    assert t in s.pc;
    hide Take, Enabled, HasWriter, HasEnvMutex, OpenWriting;
    var s' := Take(s, t, a);
    assert forall u :: u in s'.pc && u != t ==> u in s.pc && s'.pc[u] == s.pc[u];
  }

  /** The map is resized only while no LMDB transaction is open at all, leased or not. */
  lemma ResizeAlone(s: State, t: Thread, ok: bool)
    requires Inv(s) && Enabled(s, t, Resize(ok))
    ensures forall u :: u in s.pc ==> !s.pc[u].Live? && !s.pc[u].EnvLive?
  {
    forall u | u in s.pc ensures !s.pc[u].Live? && !s.pc[u].EnvLive? {
      assert u !in Leases(s.pc);
    }
  }

  /** While a resize is pending no lease is added: the count it waits on can only fall. */
  lemma DrainOnly(s: State, t: Thread, a: Action)
    requires Inv(s) && Enabled(s, t, a) && s.fResizePending
    ensures Take(s, t, a).nActiveTxns <= s.nActiveTxns
  {
  }

  /** The map only ever grows, within its ceiling, and only by the one thread that has the writer lock. */
  lemma MapOnlyGrows(s: State, t: Thread, a: Action)
    requires Inv(s) && Enabled(s, t, a)
    ensures Take(s, t, a).nMapSize >= s.nMapSize
    ensures Take(s, t, a).nMapSize != s.nMapSize ==>
              a == Resize(true) && HasWriter(s.pc[t]) && s.nMapSize < Take(s, t, a).nMapSize <= s.nMaxMapSize
  {
  }

  /** An action a thread can take on its own, whatever the client asks for next. */
  ghost predicate CanMove(s: State, t: Thread) {
    exists a :: Enabled(s, t, a)
  }

  /** No deadlock: while any thread is on its way, some thread on its way can move. */
  lemma NoDeadlock(s: State, t: Thread)
    requires Inv(s) && t in s.pc && s.pc[t] != Idle
    ensures exists u :: u in s.pc && s.pc[u] != Idle && CanMove(s, u)
  {
    var p := s.pc[t];
    match p {
      case Begin(_) => assert Enabled(s, t, TryWriter);
      case Ready(rw) => TxnCanBegin(s, t);
      case Again => TxnCanBegin(s, t);
      case Live(_) => assert Enabled(s, t, Finish);
      case Ending(_) => assert Enabled(s, t, ReleaseWriter);
      case Stuck => assert Enabled(s, t, ReleaseWriter);
      case Leaving => assert Enabled(s, t, ReleaseLease);
      case Full => assert Enabled(s, t, ReleaseLease);
      case Lost => assert Enabled(s, t, ReleaseLease);
      case Grow => assert Enabled(s, t, AskGrow(true));
      case Waiting => WaitingMoves(s, t);
      case Grown =>
        forall u | u in s.pc ensures s.pc[u] != Waiting {
          assert HasWriter(s.pc[u]) ==> u == t;
        }
        assert Enabled(s, t, AcquireLease(true));
      case EnvLocked(wr) => EnvMoves(s, t);
      case EnvLive(_) => assert Enabled(s, t, UnlockEnv);
    }
  }

  lemma OpenMoves(s: State, u: Thread)
    requires Inv(s) && u in s.pc && Open(s.pc[u])
    ensures s.pc[u] != Idle && CanMove(s, u)
  {
    if s.pc[u].Live? {
      assert Enabled(s, u, Finish);
    } else {
      assert Enabled(s, u, UnlockEnv);
    }
  }

  lemma TxnCanBegin(s: State, t: Thread)
    requires Inv(s) && t in s.pc && (s.pc[t].Ready? || s.pc[t] == Again)
    ensures exists u :: u in s.pc && s.pc[u] != Idle && CanMove(s, u)
  {
    if NobodyWriting(s) {
      assert Enabled(s, t, TxnBegin(true));
    } else {
      var u :| u in s.pc && OpenWriting(s.pc[u]);
      OpenMoves(s, u);
    }
  }

  lemma EnvMoves(s: State, t: Thread)
    requires Inv(s) && t in s.pc && s.pc[t].EnvLocked?
    ensures exists u :: u in s.pc && s.pc[u] != Idle && CanMove(s, u)
  {
    if NobodyWriting(s) {
      assert Enabled(s, t, EnvTxn);
    } else {
      var u :| u in s.pc && OpenWriting(s.pc[u]);
      OpenMoves(s, u);
    }
  }

  lemma LeaseMoves(s: State, u: Thread)
    requires Inv(s) && u in s.pc && HasLease(s.pc[u])
    ensures exists v :: v in s.pc && s.pc[v] != Idle && CanMove(s, v)
  {
    var p := s.pc[u];
    if p.Begin? {
      assert Enabled(s, u, TryWriter);
    } else if p.Ready? || p == Again {
      TxnCanBegin(s, u);
    } else if p.Live? {
      OpenMoves(s, u);
    } else if p.Ending? {
      assert Enabled(s, u, ReleaseWriter);
    } else {
      assert Enabled(s, u, ReleaseLease);
    }
  }

  lemma WaitingMoves(s: State, t: Thread)
    requires Inv(s) && t in s.pc && s.pc[t] == Waiting
    ensures exists u :: u in s.pc && s.pc[u] != Idle && CanMove(s, u)
  {
    if s.nActiveTxns > 0 {
      var u := AnyLease(s);
      LeaseMoves(s, u);
    } else if MutexFree(s) {
      assert Enabled(s, t, Resize(false));
    } else {
      var u :| u in s.pc && HasEnvMutex(s.pc[u]);
      if s.pc[u].EnvLocked? { EnvMoves(s, u); } else { OpenMoves(s, u); }
    }
  }

  lemma AnyLease(s: State) returns (u: Thread)
    requires Inv(s) && s.nActiveTxns > 0
    ensures u in s.pc && HasLease(s.pc[u])
  {
    assert Leases(s.pc) != {};
    u := Some1(Leases(s.pc));
  }

  // ---------------------------------------------------------------- whole runs

  datatype Move = Move(t: Thread, a: Action)

  /** A run: each move enabled where it is made. */
  ghost predicate IsRun(s: State, moves: seq<Move>)
    decreases |moves|
  {
    moves == [] || (Enabled(s, moves[0].t, moves[0].a) && IsRun(Take(s, moves[0].t, moves[0].a), moves[1..]))
  }

  ghost function After(s: State, moves: seq<Move>): State
    requires IsRun(s, moves)
    decreases |moves|
  {
    if moves == [] then s else After(Take(s, moves[0].t, moves[0].a), moves[1..])
  }

  /** The environment as opened, nobody at work. */
  ghost predicate Opened(s: State) {
    && (forall t :: t in s.pc ==> s.pc[t] == Idle)
    && s.nActiveTxns == 0 && !s.fResizePending && !s.fWriterActive && s.nPageSize > 0
  }

  lemma NobodyLeases(pc: map<Thread, Phase>)
    requires forall t :: t in pc ==> pc[t] == Idle
    ensures Leases(pc) == {}
  {
    forall t ensures t !in Leases(pc) {
      if t in pc { assert pc[t] == Idle; }
    }
  }

  lemma OpenedIsSafe(s: State)
    requires Opened(s)
    ensures Inv(s)
  {
    NobodyLeases(s.pc);
  }

  /** An LMDB transaction that may write is open. */
  ghost predicate WritesNow(p: Phase) { p == Live(true) || p == EnvLive(true) }

  /** After any interleaving: leases are counted exactly, the writer lock has at most one holder, no two LMDB transactions that
      may write are open, and once every thread is done both are free again. */
  lemma {:induction false} RunsAreSafe(s: State, moves: seq<Move>)
    requires (Opened(s) || Inv(s)) && IsRun(s, moves)
    ensures Inv(After(s, moves))
    ensures (forall t :: t in After(s, moves).pc ==> After(s, moves).pc[t] == Idle) ==> Opened(After(s, moves))
    ensures After(s, moves).nMapSize >= s.nMapSize
    ensures var pc := After(s, moves).pc; forall t, u :: t in pc && u in pc && WritesNow(pc[t]) && WritesNow(pc[u]) ==> t == u
    decreases |moves|
  {
    if Opened(s) {
      OpenedIsSafe(s);
    }
    if moves == [] {
      if forall t :: t in s.pc ==> s.pc[t] == Idle { NobodyLeases(s.pc); }
    } else {
      StepKeeps(s, moves[0].t, moves[0].a);
      MapOnlyGrows(s, moves[0].t, moves[0].a);
      RunsAreSafe(Take(s, moves[0].t, moves[0].a), moves[1..]);
    }
  }
}
