/** The writer lock of an adapter root: a registry per process, reserved before a non-blocking OS
    lock that belongs to one open file description. Threads of any number of processes
    interleave step by step, and a process may die between any two of its steps. */
module WriterLock {
  datatype Thread = Thread(pid: nat, tid: nat)

  datatype Phase =
    | Idle
    | Reserved(root: nat)
    | Opened(root: nat, fd: nat)
    | Locked(root: nat, fd: nat)
    | Guard(root: nat, fd: nat)
    | Failing(root: nat)
    | Unlocked(root: nat, fd: nat)
    | Closing(root: nat, fd: nat)

  /** `registry` holds (pid, root) pairs; `locks` maps a root to the descriptor that has its OS lock. */
  datatype World = World(registry: set<(nat, nat)>, locks: map<nat, nat>, threads: map<Thread, Phase>, nextFd: nat)

  const INITIAL := World({}, map[], map[], 0)

  function PhaseOf(w: World, t: Thread): Phase {
    if t in w.threads then w.threads[t] else Idle
  }

  datatype Action =
    | Reserve(t: Thread, root: nat)
    | Open(t: Thread)
    | OpenFails(t: Thread)
    | TryLock(t: Thread)
    | TryLockFails(t: Thread)
    | WriteStamp(t: Thread)
    | StampFails(t: Thread)
    | RollBack(t: Thread)
    | Unlock(t: Thread, released: bool)
    | Unregister(t: Thread)
    | Close(t: Thread)
    | Crash(pid: nat)

  predicate Enabled(w: World, a: Action) {
    match a
    case Reserve(t, root) => PhaseOf(w, t).Idle?
    case Open(t) => PhaseOf(w, t).Reserved?
    case OpenFails(t) => PhaseOf(w, t).Reserved?
    case TryLock(t) => PhaseOf(w, t).Opened?
    case TryLockFails(t) => PhaseOf(w, t).Opened?
    case WriteStamp(t) => PhaseOf(w, t).Locked?
    case StampFails(t) => PhaseOf(w, t).Locked?
    case RollBack(t) => PhaseOf(w, t).Failing?
    case Unlock(t, released) => PhaseOf(w, t).Guard?
    case Unregister(t) => PhaseOf(w, t).Unlocked?
    case Close(t) => PhaseOf(w, t).Closing?
    case Crash(pid) => true
  }

  function Move(w: World, t: Thread, p: Phase): World {
    w.(threads := w.threads[t := p])
  }

  /** Closing a descriptor drops the OS lock if it is the one that has it. */
  function CloseFd(locks: map<nat, nat>, root: nat, fd: nat): map<nat, nat> {
    if root in locks && locks[root] == fd then locks - {root} else locks
  }

  function Step(w: World, a: Action): World
    requires Enabled(w, a)
  {
    match a
    case Reserve(t, root) =>
      // A registered key is refused on the spot; nothing was reserved, so nothing is undone.
      if (t.pid, root) in w.registry then w
      else Move(w, t, Reserved(root)).(registry := w.registry + {(t.pid, root)})
    case Open(t) => Move(w, t, Opened(PhaseOf(w, t).root, w.nextFd)).(nextFd := w.nextFd + 1)
    case OpenFails(t) => Move(w, t, Failing(PhaseOf(w, t).root))
    case TryLock(t) =>
      var p := PhaseOf(w, t);
      if p.root in w.locks then Move(w, t, Failing(p.root))
      else Move(w, t, Locked(p.root, p.fd)).(locks := w.locks[p.root := p.fd])
    case TryLockFails(t) => Move(w, t, Failing(PhaseOf(w, t).root))
    case WriteStamp(t) => Move(w, t, Guard(PhaseOf(w, t).root, PhaseOf(w, t).fd))
    case StampFails(t) =>
      var p := PhaseOf(w, t);
      Move(w, t, Failing(p.root)).(locks := CloseFd(w.locks, p.root, p.fd))
    case RollBack(t) => Move(w, t, Idle).(registry := w.registry - {(t.pid, PhaseOf(w, t).root)})
    case Unlock(t, released) =>
      var p := PhaseOf(w, t);
      Move(w, t, Unlocked(p.root, p.fd)).(locks := if released then CloseFd(w.locks, p.root, p.fd) else w.locks)
    case Unregister(t) =>
      var p := PhaseOf(w, t);
      Move(w, t, Closing(p.root, p.fd)).(registry := w.registry - {(t.pid, p.root)})
    case Close(t) =>
      var p := PhaseOf(w, t);
      Move(w, t, Idle).(locks := CloseFd(w.locks, p.root, p.fd))
    case Crash(pid) => CrashOf(w, pid)
  }

  predicate HasFd(p: Phase) {
    p.Opened? || p.Locked? || p.Guard? || p.Unlocked? || p.Closing?
  }

  /** A dead process loses its registry, its threads and every descriptor, with their locks. */
  function CrashOf(w: World, pid: nat): World {
    World(set k | k in w.registry && k.0 != pid,
          map r | r in w.locks && !OwnedBy(w, pid, w.locks[r]) :: w.locks[r],
          map t | t in w.threads && t.pid != pid :: w.threads[t],
          w.nextFd)
  }

  predicate OwnedBy(w: World, pid: nat, fd: nat) {
    exists t :: t in w.threads && t.pid == pid && HasFd(w.threads[t]) && w.threads[t].fd == fd
  }

  // ----- The invariant -----

  /** Phases between reserving the key and giving it back. */
  predicate Reserves(p: Phase) {
    !p.Idle? && !p.Closing?
  }

  predicate Holds(p: Phase) {
    p.Locked? || p.Guard?
  }

  ghost predicate FdsOk(w: World) {
    forall t :: HasFd(PhaseOf(w, t)) ==> PhaseOf(w, t).fd < w.nextFd
  }

  ghost predicate FdsDistinct(w: World) {
    forall t, u :: t != u && HasFd(PhaseOf(w, t)) && HasFd(PhaseOf(w, u)) ==> PhaseOf(w, t).fd != PhaseOf(w, u).fd
  }

  predicate LockHeld(w: World, t: Thread) {
    var p := PhaseOf(w, t);
    Holds(p) ==> p.root in w.locks && w.locks[p.root] == p.fd
  }

  ghost predicate LocksOk(w: World) {
    forall t :: LockHeld(w, t)
  }

  ghost predicate RegistryHas(w: World) {
    forall t :: Reserves(PhaseOf(w, t)) ==> (t.pid, PhaseOf(w, t).root) in w.registry
  }

  ghost predicate ReservationsDistinct(w: World) {
    forall t: Thread, u: Thread :: t != u && t.pid == u.pid && Reserves(PhaseOf(w, t)) && Reserves(PhaseOf(w, u)) ==>
      PhaseOf(w, t).root != PhaseOf(w, u).root
  }

  ghost predicate RegistryOwned(w: World) {
    forall k :: k in w.registry ==> exists t: Thread :: t.pid == k.0 && ReservesRoot(w, t, k.1)
  }

  predicate ReservesRoot(w: World, t: Thread, root: nat) {
    Reserves(PhaseOf(w, t)) && PhaseOf(w, t).root == root
  }

  ghost predicate Inv(w: World) {
    && FdsOk(w) && FdsDistinct(w) && LocksOk(w)
    && RegistryHas(w) && ReservationsDistinct(w) && RegistryOwned(w)
  }

  predicate Acts(a: Action, t: Thread) {
    if a.Crash? then t.pid == a.pid else t == a.t
  }

  lemma OthersKeep(w: World, a: Action, t: Thread)
    requires Enabled(w, a) && !Acts(a, t)
    ensures PhaseOf(Step(w, a), t) == PhaseOf(w, t)
  {
  }

  /** A step gives its thread an old descriptor of its own or, when it opens one, a new one. */
  lemma FdOrigin(w: World, a: Action, t: Thread)
    requires Enabled(w, a) && HasFd(PhaseOf(Step(w, a), t))
    ensures if a.Open? && a.t == t then PhaseOf(Step(w, a), t).fd == w.nextFd
            else HasFd(PhaseOf(w, t)) && PhaseOf(Step(w, a), t).fd == PhaseOf(w, t).fd
    ensures w.nextFd <= Step(w, a).nextFd && (a.Open? ==> Step(w, a).nextFd == w.nextFd + 1)
  {
  }

  lemma StepKeepsFds(w: World, a: Action)
    requires Inv(w) && Enabled(w, a)
    ensures FdsOk(Step(w, a)) && FdsDistinct(Step(w, a))
  {
    forall t | HasFd(PhaseOf(Step(w, a), t)) ensures PhaseOf(Step(w, a), t).fd < Step(w, a).nextFd {
      FdOrigin(w, a, t);
    }
    forall t, u | t != u && HasFd(PhaseOf(Step(w, a), t)) && HasFd(PhaseOf(Step(w, a), u))
      ensures PhaseOf(Step(w, a), t).fd != PhaseOf(Step(w, a), u).fd
    {
      FdOrigin(w, a, t);
      FdOrigin(w, a, u);
    }
  }

  lemma CrashKeepsLock(w: World, pid: nat, t: Thread)
    requires Inv(w) && t.pid != pid
    ensures LockHeld(CrashOf(w, pid), t)
  {
    var p := PhaseOf(w, t);
    assert LockHeld(w, t);
    assert Holds(p) ==> !OwnedBy(w, pid, p.fd);
  }

  lemma StepKeepsLock(w: World, a: Action, t: Thread)
    requires Inv(w) && Enabled(w, a)
    ensures LockHeld(Step(w, a), t)
  {
    assert LockHeld(w, t);
    if a.Crash? {
      if t.pid != a.pid {
        CrashKeepsLock(w, a.pid, t);
      }
    } else if t != a.t {
      OthersKeep(w, a, t);
      assert HasFd(PhaseOf(w, t)) && HasFd(PhaseOf(w, a.t)) ==> PhaseOf(w, t).fd != PhaseOf(w, a.t).fd;
    }
  }

  lemma StepKeepsLocks(w: World, a: Action)
    requires Inv(w) && Enabled(w, a)
    ensures LocksOk(Step(w, a))
  {
    forall t ensures LockHeld(Step(w, a), t) {
      StepKeepsLock(w, a, t);
    }
  }

  lemma StepKeepsReservation(w: World, a: Action, t: Thread)
    requires Inv(w) && Enabled(w, a) && Reserves(PhaseOf(Step(w, a), t))
    ensures (t.pid, PhaseOf(Step(w, a), t).root) in Step(w, a).registry
    ensures Reserves(PhaseOf(w, t)) ==> PhaseOf(Step(w, a), t).root == PhaseOf(w, t).root
    ensures !Reserves(PhaseOf(w, t)) ==>
      a.Reserve? && a.t == t && (t.pid, a.root) !in w.registry && PhaseOf(Step(w, a), t).root == a.root
  {
    if !Acts(a, t) {
      OthersKeep(w, a, t);
    }
  }

  lemma StepKeepsReservations(w: World, a: Action)
    requires Inv(w) && Enabled(w, a)
    ensures RegistryHas(Step(w, a)) && ReservationsDistinct(Step(w, a))
  {
    forall t | Reserves(PhaseOf(Step(w, a), t)) ensures (t.pid, PhaseOf(Step(w, a), t).root) in Step(w, a).registry {
      StepKeepsReservation(w, a, t);
    }
    forall t: Thread, u: Thread | t != u && t.pid == u.pid
      && Reserves(PhaseOf(Step(w, a), t)) && Reserves(PhaseOf(Step(w, a), u))
      ensures PhaseOf(Step(w, a), t).root != PhaseOf(Step(w, a), u).root
    {
      StepKeepsReservation(w, a, t);
      StepKeepsReservation(w, a, u);
    }
  }

  lemma StepKeepsOwners(w: World, a: Action)
    requires Inv(w) && Enabled(w, a)
    ensures RegistryOwned(Step(w, a))
  {
    var after := Step(w, a);
    forall k | k in after.registry ensures exists t: Thread :: t.pid == k.0 && ReservesRoot(after, t, k.1) {
      if a.Reserve? && k !in w.registry {
        assert ReservesRoot(after, a.t, k.1);
      } else {
        var t: Thread :| t.pid == k.0 && ReservesRoot(w, t, k.1);
        assert ReservesRoot(after, t, k.1);
      }
    }
  }

  lemma StepKeepsInv(w: World, a: Action)
    requires Inv(w) && Enabled(w, a)
    ensures Inv(Step(w, a))
  {
    StepKeepsFds(w, a);
    StepKeepsLocks(w, a);
    StepKeepsReservations(w, a);
    StepKeepsOwners(w, a);
  }

  // ----- Whole runs -----

  ghost predicate IsRun(worlds: seq<World>, actions: seq<Action>) {
    && |worlds| == |actions| + 1 && worlds[0] == INITIAL
    && forall i :: 0 <= i < |actions| ==> Enabled(worlds[i], actions[i]) && worlds[i + 1] == Step(worlds[i], actions[i])
  }

  lemma {:induction false} RunKeepsInv(worlds: seq<World>, actions: seq<Action>, n: nat)
    requires IsRun(worlds, actions) && n < |worlds|
    ensures Inv(worlds[n])
  {
    if n > 0 {
      RunKeepsInv(worlds, actions, n - 1);
      StepKeepsInv(worlds[n - 1], actions[n - 1]);
    }
  }

  /** At most one live guard per root, over every interleaving. */
  lemma GuardsExclude(worlds: seq<World>, actions: seq<Action>, n: nat, t: Thread, u: Thread)
    requires IsRun(worlds, actions) && n < |worlds|
    requires PhaseOf(worlds[n], t).Guard? && PhaseOf(worlds[n], u).Guard?
    requires PhaseOf(worlds[n], t).root == PhaseOf(worlds[n], u).root
    ensures t == u
  {
    RunKeepsInv(worlds, actions, n);
    assert LockHeld(worlds[n], t) && LockHeld(worlds[n], u);
  }

  lemma GuardPhase(w: World, a: Action, t: Thread)
    requires Enabled(w, a) && PhaseOf(w, t).Guard? && PhaseOf(Step(w, a), t).Guard?
    ensures PhaseOf(Step(w, a), t) == PhaseOf(w, t)
  {
  }

  lemma GuardHolds(w: World, t: Thread)
    requires Inv(w) && PhaseOf(w, t).Guard?
    ensures var p := PhaseOf(w, t);
            (t.pid, p.root) in w.registry && p.root in w.locks && w.locks[p.root] == p.fd
  {
    assert LockHeld(w, t);
  }

  /** A live guard keeps its registration and its OS lock through every step of every other
      thread, in particular through a failed acquire that rolls back. */
  lemma GuardUndisturbed(worlds: seq<World>, actions: seq<Action>, n: nat, t: Thread)
    requires IsRun(worlds, actions) && n < |actions|
    requires PhaseOf(worlds[n], t).Guard? && PhaseOf(worlds[n + 1], t).Guard?
    ensures var p := PhaseOf(worlds[n + 1], t);
            && p == PhaseOf(worlds[n], t) && (t.pid, p.root) in worlds[n + 1].registry
            && p.root in worlds[n + 1].locks && worlds[n + 1].locks[p.root] == p.fd
  {
    GuardPhase(worlds[n], actions[n], t);
    RunKeepsInv(worlds, actions, n + 1);
    GuardHolds(worlds[n + 1], t);
  }

  /** A roll-back removes one reservation, and no other thread has it. */
  lemma RollBackIsOwn(worlds: seq<World>, actions: seq<Action>, n: nat, u: Thread)
    requires IsRun(worlds, actions) && n < |actions| && actions[n].RollBack? && u != actions[n].t
    requires Reserves(PhaseOf(worlds[n], u))
    ensures PhaseOf(worlds[n + 1], u) == PhaseOf(worlds[n], u)
    ensures (u.pid, PhaseOf(worlds[n], u).root) in worlds[n + 1].registry
    ensures worlds[n + 1].registry == worlds[n].registry - {(actions[n].t.pid, PhaseOf(worlds[n], actions[n].t).root)}
  {
    RunKeepsInv(worlds, actions, n);
  }
}
