/** The adapter store under concurrent processes: publishers, patchers, callers that record GC
    events directly and GC drivers interleave, every check and every transaction is its own step,
    and any process may die between two steps. A step is enabled exactly when the source lets it
    happen: nothing is asked of a writer beyond the lock and the checks of its transactions. */
module StoreProtocol {
  import opened Wrappers
  import opened AdapterStore

  // ----- The machine -----

  /** A checked transaction that has not reached the database yet. */
  datatype Pending = Pending(expected: Option<Revision>, next: Db)

  /** How far a GC driver is: recovering, about to log `reclaimable`, about to log `deleting`,
      deleting, done. */
  datatype Stage = Recovering | Ready | Queued | Marked | Finished

  /** A driver's variables: the revision it expects, the active path it read before it took the
      lock, the paths it selected and those it recovered. */
  datatype Job = Job(known: Revision, active: Option<GenPath>, reclaim: set<GcPath>, recovered: set<GcPath>,
                     stage: Stage)

  datatype Local =
    | Idle
    | Writer(pending: Option<Pending>)
    | GcRead(known: Revision)
    | GcPlanned(known: Revision, reclaim: set<GcPath>)
    | Gc(job: Job, pending: Option<Pending>)

  datatype Commit = Commit(expected: Option<Revision>, before: Option<Db>, after: Db)

  datatype Sys = Sys(db: Option<Db>, dirs: Dirs, debris: set<string>, lock: Option<nat>, locals: map<nat, Local>,
                     log: seq<Commit>)

  function LocalOf(s: Sys, i: nat): Local {
    if i in s.locals then s.locals[i] else Idle
  }

  predicate IsActive(db: Db, x: GcPath) {
    x.Bundle? && Some(x.path) == db.manifest.activePath
  }

  predicate IsRow(db: Db, k: nat, x: GcPath) {
    k in db.gcQueue && db.gcQueue[k].path == x
  }

  /** `latest_gc_states_by_path`: the state of the highest row of a path. */
  ghost predicate LatestIs(db: Db, x: GcPath, state: GcState) {
    exists k :: IsRow(db, k, x) && db.gcQueue[k].state == state && forall j :: IsRow(db, j, x) ==> j <= k
  }

  /** `generation_directory_summary`: every directory with a generation's name except the active
      one, and the debris. */
  predicate Listed(s: Sys, active: Option<GenPath>, x: GcPath) {
    match x
    case Bundle(g) => g.Generation? && g in s.dirs && Some(g) != active
    case Debris(name) => name in s.debris
  }

  predicate Locks(l: Local) {
    l.Writer? || l.Gc?
  }

  predicate Avoids(paths: set<GcPath>, active: Option<GenPath>) {
    forall x :: x in paths ==> !(x.Bundle? && Some(x.path) == active)
  }

  datatype Action =
    | Acquire(i: nat)
    | Release(i: nat)
    | Crash(i: nat)
    | Litter(i: nat, name: string)
    | Sweep(i: nat, name: string)
    | Prepare(i: nat, path: GenPath, info: Option<GenInfo>)
    | CheckSnapshot(i: nat, expected: Option<Revision>, p: Payloads, uuid: nat, origin: Origin, next: Db)
    | CheckPatch(i: nat, revision: Revision, patches: seq<Patch>, next: Db)
    | CheckRecord(i: nat, expected: Option<Revision>, updates: seq<GcUpdate>, next: Db)
    | CommitWrite(i: nat)
    | ReadStore(i: nat)
    | Plan(i: nat, reclaim: set<GcPath>)
    | AcquireGc(i: nat)
    | RecoverDelete(i: nat, x: GcPath, done: bool)
    | SkipRecovery(i: nat)
    | CheckGc(i: nat, updates: seq<GcUpdate>, next: Db)
    | CommitGc(i: nat)
    | Delete(i: nat, x: GcPath, done: bool)

  ghost predicate Records(updates: seq<GcUpdate>, paths: set<GcPath>, state: GcState) {
    updates != [] && (forall u :: u in updates ==> u.path in paths && u.state == state)
    && forall x :: x in paths ==> exists i :: 0 <= i < |updates| && updates[i].path == x
  }

  /** What a driver records at each stage. */
  ghost predicate StageRecords(job: Job, updates: seq<GcUpdate>) {
    match job.stage
    case Recovering => Records(updates, job.recovered, Deleted)
    case Ready => Records(updates, job.reclaim, Reclaimable)
    case Queued => Records(updates, job.reclaim, Deleting)
    case Marked => Records(updates, job.recovered + job.reclaim, Deleted)
    case Finished => false
  }

  /** After a commit the driver expects the revision it has just made. */
  function Advance(job: Job, next: Db): Job {
    job.(known := RevisionOf(next.manifest),
         stage := match job.stage
                  case Recovering => Ready
                  case Ready => Queued
                  case Queued => Marked
                  case _ => Finished)
  }

  ghost predicate Enabled(s: Sys, a: Action) {
    match a
    case Acquire(i) => LocalOf(s, i).Idle? && s.lock.None?
    case Release(i) => (LocalOf(s, i).Writer? || LocalOf(s, i).Gc?) && LocalOf(s, i).pending.None?
    case Crash(i) => true
    case Litter(i, name) => LocalOf(s, i) == Writer(None)
    case Sweep(i, name) => LocalOf(s, i) == Writer(None)
    case Prepare(i, path, info) => LocalOf(s, i) == Writer(None)
    case CheckSnapshot(i, expected, p, uuid, origin, next) =>
      && LocalOf(s, i) == Writer(None) && SnapshotChecks(s.db, s.dirs, expected, p)
      && IsSnapshot(s.db, p, CheckpointOf(s.dirs, p, None).value, uuid, origin, next)
    case CheckPatch(i, revision, patches, next) =>
      && LocalOf(s, i) == Writer(None) && PatchChecks(s.db, s.dirs, revision, patches)
      && IsPatched(s.db.value, patches, next)
    case CheckRecord(i, expected, updates, next) =>
      && LocalOf(s, i) == Writer(None) && updates != [] && GcChecks(s.db, s.dirs, expected, updates)
      && IsGcRecorded(s.db.value, updates, next)
    case CommitWrite(i) => LocalOf(s, i).Writer? && LocalOf(s, i).pending.Some?
    case ReadStore(i) => LocalOf(s, i).Idle? && s.db.Some? && OpenOk(s.db.value, s.dirs, None)
    case Plan(i, reclaim) =>
      LocalOf(s, i).GcRead? && forall x :: x in reclaim ==> Listed(s, LocalOf(s, i).known.activePath, x)
    case AcquireGc(i) => LocalOf(s, i).GcPlanned? && s.lock.None?
    case RecoverDelete(i, x, done) =>
      && LocalOf(s, i).Gc? && LocalOf(s, i).pending.None? && LocalOf(s, i).job.stage == Recovering
      && s.db.Some? && LatestIs(s.db.value, x, Deleting) && !(x.Bundle? && Some(x.path) == LocalOf(s, i).job.active)
    case SkipRecovery(i) =>
      && LocalOf(s, i).Gc? && LocalOf(s, i).pending.None? && LocalOf(s, i).job.stage == Recovering
      && LocalOf(s, i).job.recovered == {}
    case CheckGc(i, updates, next) =>
      && LocalOf(s, i).Gc? && LocalOf(s, i).pending.None? && StageRecords(LocalOf(s, i).job, updates)
      && GcChecks(s.db, s.dirs, Some(LocalOf(s, i).job.known), updates) && IsGcRecorded(s.db.value, updates, next)
    case CommitGc(i) => LocalOf(s, i).Gc? && LocalOf(s, i).pending.Some?
    case Delete(i, x, done) =>
      && LocalOf(s, i).Gc? && LocalOf(s, i).pending.None? && LocalOf(s, i).job.stage == Marked
      && x in LocalOf(s, i).job.reclaim
  }

  /** A removal that is interrupted leaves a directory that no longer verifies. */
  function RemoveDir(dirs: Dirs, x: GcPath, done: bool): Dirs {
    if !x.Bundle? || x.path !in dirs then dirs
    else if done then dirs - {x.path} else dirs[x.path := None]
  }

  function RemoveDebris(debris: set<string>, x: GcPath, done: bool): set<string> {
    if x.Debris? && done then debris - {x.name} else debris
  }

  function Move(s: Sys, i: nat, l: Local): Sys {
    s.(locals := s.locals[i := l])
  }

  function Committed(s: Sys, q: Pending): Sys {
    s.(db := Some(q.next), log := s.log + [Commit(q.expected, s.db, q.next)])
  }

  ghost function Step(s: Sys, a: Action): Sys
    requires Enabled(s, a)
  {
    match a
    case Acquire(i) => Move(s, i, Writer(None)).(lock := Some(i))
    case Release(i) => Move(s, i, Idle).(lock := None)
    case Crash(i) => Move(s, i, Idle).(lock := if s.lock == Some(i) then None else s.lock)
    case Litter(i, name) => s.(debris := s.debris + {name})
    case Sweep(i, name) => s.(debris := s.debris - {name})
    case Prepare(i, path, info) => s.(dirs := s.dirs[path := info])
    case CheckSnapshot(i, expected, p, uuid, origin, next) => Move(s, i, Writer(Some(Pending(expected, next))))
    case CheckPatch(i, revision, patches, next) => Move(s, i, Writer(Some(Pending(Some(revision), next))))
    case CheckRecord(i, expected, updates, next) => Move(s, i, Writer(Some(Pending(expected, next))))
    case CommitWrite(i) => Move(Committed(s, LocalOf(s, i).pending.value), i, Writer(None))
    case ReadStore(i) => Move(s, i, GcRead(RevisionOf(s.db.value.manifest)))
    case Plan(i, reclaim) => Move(s, i, GcPlanned(LocalOf(s, i).known, reclaim))
    case AcquireGc(i) =>
      var l := LocalOf(s, i);
      Move(s, i, Gc(Job(l.known, l.known.activePath, l.reclaim, {}, Recovering), None)).(lock := Some(i))
    case RecoverDelete(i, x, done) =>
      var l := LocalOf(s, i);
      Move(s, i, if done then Gc(l.job.(recovered := l.job.recovered + {x}), None) else l)
        .(dirs := RemoveDir(s.dirs, x, done), debris := RemoveDebris(s.debris, x, done))
    case SkipRecovery(i) => Move(s, i, Gc(LocalOf(s, i).job.(stage := Ready), None))
    case CheckGc(i, updates, next) =>
      Move(s, i, Gc(LocalOf(s, i).job, Some(Pending(Some(LocalOf(s, i).job.known), next))))
    case CommitGc(i) =>
      var q := LocalOf(s, i).pending.value;
      Move(Committed(s, q), i, Gc(Advance(LocalOf(s, i).job, q.next), None))
    case Delete(i, x, done) => s.(dirs := RemoveDir(s.dirs, x, done), debris := RemoveDebris(s.debris, x, done))
  }

  // ----- Runs -----

  /** The transitions so far, newest outermost. */
  datatype Run = Start(state: Sys) | Then(before: Run, action: Action, state: Sys)

  predicate Initial(s: Sys) {
    s.db == None && s.lock == None && s.locals == map[] && s.log == []
  }

  /** Every step is one the source allows. */
  ghost predicate Legal(r: Run) {
    match r
    case Start(s) => Initial(s)
    case Then(before, a, s) => Legal(before) && Enabled(before.state, a) && s == Step(before.state, a)
  }

  // ----- What every step keeps, whatever the publishers do -----

  ghost predicate LedgerOk(db: Db) {
    Numbered(db.gcQueue, db.manifest.counts.gcQueue)
  }

  /** What a commit may change. */
  predicate Follows(prev: Option<Db>, next: Db) {
    && next.manifest.sequence == SequenceOf(prev) + 1
    && (prev.Some? ==>
      && next.manifest.storeUuid == prev.value.manifest.storeUuid && next.manifest.origin == prev.value.manifest.origin
      && (!prev.value.manifest.emptyLazy ==> !next.manifest.emptyLazy))
  }

  ghost predicate PendingOk(db: Option<Db>, q: Pending) {
    ExpectedOk(db, q.expected) && Follows(db, q.next) && LedgerOk(q.next)
  }

  /** From the first commit of a driver on, the store is as the driver knows it; from its second
      on, each path it selected is marked. */
  ghost predicate JobOk(db: Option<Db>, job: Job) {
    && Avoids(job.reclaim, job.active) && Avoids(job.recovered, job.active) && job.known.activePath == job.active
    && (!job.stage.Recovering? && !job.stage.Ready? ==> db.Some? && RevisionOf(db.value.manifest) == job.known)
    && (job.stage.Marked? ==> forall x :: x in job.reclaim ==> LatestIs(db.value, x, Deleting))
  }

  ghost predicate LocalOk(db: Option<Db>, l: Local) {
    match l
    case Idle => true
    case GcRead(_) => true
    case GcPlanned(known, reclaim) => Avoids(reclaim, known.activePath)
    case Writer(pending) => pending.Some? ==> PendingOk(db, pending.value)
    case Gc(job, pending) =>
      && JobOk(db, job)
      && (pending.Some? ==>
            PendingOk(db, pending.value) && JobOk(Some(pending.value.next), Advance(job, pending.value.next)))
  }

  ghost predicate LockOk(s: Sys) {
    forall i: nat :: Locks(LocalOf(s, i)) ==> s.lock == Some(i)
  }

  ghost predicate LocalsOk(s: Sys) {
    forall i: nat :: LocalOk(s.db, LocalOf(s, i))
  }

  /** Commit `n`: what it expected is what it replaced, and it extends the commit before it. */
  predicate CommitOk(log: seq<Commit>, n: nat)
    requires n < |log|
  {
    && log[n].before == (if n == 0 then None else Some(log[n - 1].after))
    && ExpectedOk(log[n].before, log[n].expected) && Follows(log[n].before, log[n].after)
  }

  ghost predicate LogOk(log: seq<Commit>, db: Option<Db>) {
    && (forall n :: 0 <= n < |log| ==> CommitOk(log, n))
    && db == if log == [] then None else Some(log[|log| - 1].after)
  }

  ghost predicate Inv(s: Sys) {
    (s.db.Some? ==> LedgerOk(s.db.value)) && LockOk(s) && LocalsOk(s) && LogOk(s.log, s.db)
  }

  // ----- The ledger -----

  lemma {:induction false} LastRow(db: Db, n: nat, x: GcPath, k: nat) returns (last: nat)
    requires LedgerOk(db) && k <= n && IsRow(db, k, x) && n <= db.manifest.counts.gcQueue
    ensures k <= last <= n && IsRow(db, last, x) && forall j: nat :: IsRow(db, j, x) && j <= n ==> j <= last
  {
    if IsRow(db, n, x) {
      last := n;
    } else {
      last := LastRow(db, n - 1, x, k);
    }
  }

  /** A path with a row has a latest one. */
  lemma LatestExists(db: Db, x: GcPath, k: nat) returns (last: nat)
    requires LedgerOk(db) && IsRow(db, k, x)
    ensures k <= last && IsRow(db, last, x) && LatestIs(db, x, db.gcQueue[last].state)
    ensures forall j: nat :: IsRow(db, j, x) ==> j <= last
  {
    last := LastRow(db, db.manifest.counts.gcQueue, x, k);
  }

  predicate Mentions(updates: seq<GcUpdate>, x: GcPath) {
    exists i :: 0 <= i < |updates| && updates[i].path == x
  }

  lemma GcRowAt(db: Db, updates: seq<GcUpdate>, next: Db, k: nat)
    requires LedgerOk(db) && IsGcRecorded(db, updates, next) && k in next.gcQueue
    ensures var base := db.manifest.counts.gcQueue;
            if k <= base then k in db.gcQueue && next.gcQueue[k] == db.gcQueue[k]
            else k - base - 1 < |updates| && next.gcQueue[k] == updates[k - base - 1]
  {
    GcRowsNumbered(db.gcQueue, db.manifest.counts.gcQueue, updates, |updates|);
    var i := k - db.manifest.counts.gcQueue - 1;
    if i >= 0 {
      assert next.gcQueue[db.manifest.counts.gcQueue + 1 + i] == updates[i];
    }
  }

  lemma GcLedgerOk(db: Db, updates: seq<GcUpdate>, next: Db)
    requires LedgerOk(db) && IsGcRecorded(db, updates, next)
    ensures LedgerOk(next)
  {
    GcRowsNumbered(db.gcQueue, db.manifest.counts.gcQueue, updates, |updates|);
  }

  /** The latest state of a path that a record names is the recorded one. */
  lemma RecordedIsLatest(db: Db, updates: seq<GcUpdate>, next: Db, state: GcState, x: GcPath)
    requires LedgerOk(db) && IsGcRecorded(db, updates, next) && Mentions(updates, x)
    requires forall u :: u in updates ==> u.state == state
    ensures LatestIs(next, x, state)
  {
    GcLedgerOk(db, updates, next);
    GcRowsNumbered(db.gcQueue, db.manifest.counts.gcQueue, updates, |updates|);
    var i :| 0 <= i < |updates| && updates[i].path == x;
    assert next.gcQueue[db.manifest.counts.gcQueue + 1 + i] == updates[i];
    var last := LatestExists(next, x, db.manifest.counts.gcQueue + 1 + i);
    GcRowAt(db, updates, next, last);
  }

  /** Recording other paths does not change the latest state of a path. */
  lemma UnrecordedKeepsLatest(db: Db, updates: seq<GcUpdate>, next: Db, state: GcState, x: GcPath)
    requires LedgerOk(db) && IsGcRecorded(db, updates, next) && !Mentions(updates, x)
    ensures LatestIs(next, x, state) <==> LatestIs(db, x, state)
  {
    GcRowsNumbered(db.gcQueue, db.manifest.counts.gcQueue, updates, |updates|);
    forall k: nat ensures IsRow(next, k, x) <==> IsRow(db, k, x) {
      if k in next.gcQueue {
        GcRowAt(db, updates, next, k);
      }
    }
    if LatestIs(db, x, state) {
      var k :| IsRow(db, k, x) && db.gcQueue[k].state == state && forall j :: IsRow(db, j, x) ==> j <= k;
      assert IsRow(next, k, x);
    }
    if LatestIs(next, x, state) {
      var k :| IsRow(next, k, x) && next.gcQueue[k].state == state && forall j :: IsRow(next, j, x) ==> j <= k;
      assert IsRow(db, k, x);
    }
  }

  // ----- Checked transactions -----

  lemma CheckedSnapshot(db: Option<Db>, dirs: Dirs, expected: Option<Revision>, p: Payloads, uuid: nat, origin: Origin,
                        next: Db)
    requires SnapshotChecks(db, dirs, expected, p) && (db.Some? ==> LedgerOk(db.value))
    requires IsSnapshot(db, p, CheckpointOf(dirs, p, None).value, uuid, origin, next)
    ensures PendingOk(db, Pending(expected, next))
  {
    if db.Some? && !db.value.manifest.emptyLazy {
      NeverEmptyAgain(db.value, dirs, expected, p);
    }
  }

  lemma CheckedPatch(db: Db, dirs: Dirs, expected: Revision, patches: seq<Patch>, next: Db)
    requires PatchChecks(Some(db), dirs, expected, patches) && IsPatched(db, patches, next) && LedgerOk(db)
    ensures PendingOk(Some(db), Pending(Some(expected), next))
  {
  }

  lemma CheckedGc(db: Db, dirs: Dirs, expected: Option<Revision>, updates: seq<GcUpdate>, next: Db)
    requires GcChecks(Some(db), dirs, expected, updates) && IsGcRecorded(db, updates, next) && LedgerOk(db)
    ensures PendingOk(Some(db), Pending(expected, next))
  {
    GcLedgerOk(db, updates, next);
  }

  lemma MarkedAll(db: Db, job: Job, updates: seq<GcUpdate>, next: Db)
    requires LedgerOk(db) && IsGcRecorded(db, updates, next) && job.stage.Queued? && StageRecords(job, updates)
    ensures forall x :: x in job.reclaim ==> LatestIs(next, x, Deleting)
  {
    forall x | x in job.reclaim ensures LatestIs(next, x, Deleting) {
      RecordedIsLatest(db, updates, next, Deleting, x);
    }
  }

  /** The compare-and-swap at each GC commit re-establishes what the driver read before the lock. */
  lemma CheckedGcJob(db: Db, dirs: Dirs, job: Job, updates: seq<GcUpdate>, next: Db)
    requires LedgerOk(db) && JobOk(Some(db), job) && StageRecords(job, updates)
    requires GcChecks(Some(db), dirs, Some(job.known), updates) && IsGcRecorded(db, updates, next)
    ensures PendingOk(Some(db), Pending(Some(job.known), next)) && JobOk(Some(next), Advance(job, next))
    ensures db.manifest.activePath == job.active && next.manifest.activePath == job.active
  {
    assert RevisionOf(db.manifest) == job.known;
    CheckedGc(db, dirs, Some(job.known), updates, next);
    if job.stage == Queued {
      MarkedAll(db, job, updates, next);
    }
  }

  lemma ListedAvoids(s: Sys, active: Option<GenPath>, reclaim: set<GcPath>)
    requires forall x :: x in reclaim ==> Listed(s, active, x)
    ensures Avoids(reclaim, active)
  {
    forall x | x in reclaim ensures !(x.Bundle? && Some(x.path) == active) {
      assert Listed(s, active, x);
    }
  }

  // ----- Preservation -----

  /** The actions that change the database. */
  predicate Commits(a: Action) {
    a.CommitWrite? || a.CommitGc?
  }

  lemma StepFrame(s: Sys, a: Action, j: nat)
    requires Enabled(s, a)
    ensures j != a.i ==> LocalOf(Step(s, a), j) == LocalOf(s, j)
  {
  }

  lemma QuietFrame(s: Sys, a: Action)
    requires Enabled(s, a)
    ensures !Commits(a) ==> Step(s, a).db == s.db && Step(s, a).log == s.log
    ensures Commits(a) ==> Locks(LocalOf(s, a.i)) && Step(s, a).lock == s.lock && LocalOf(s, a.i).pending.Some?
  {
  }

  lemma CommitFrame(s: Sys, a: Action)
    requires Enabled(s, a) && Commits(a)
    ensures Locks(LocalOf(s, a.i)) && LocalOf(s, a.i).pending.Some?
    ensures var q := LocalOf(s, a.i).pending.value;
            && Step(s, a).db == Some(q.next) && Step(s, a).dirs == s.dirs
            && Step(s, a).log == s.log + [Commit(q.expected, s.db, q.next)]
    ensures LocalOf(Step(s, a), a.i) == if LocalOf(s, a.i).Writer? then Writer(None)
                                        else Gc(Advance(LocalOf(s, a.i).job, LocalOf(s, a.i).pending.value.next), None)
  {
  }

  lemma LockFrame(s: Sys, a: Action)
    requires Enabled(s, a)
    ensures Locks(LocalOf(Step(s, a), a.i)) ==>
      Step(s, a).lock == Some(a.i) || (Locks(LocalOf(s, a.i)) && Step(s, a).lock == s.lock)
    ensures Step(s, a).lock == s.lock || s.lock.None? || Locks(LocalOf(s, a.i)) || s.lock == Some(a.i)
  {
  }

  lemma StepKeepsLock(s: Sys, a: Action)
    requires LockOk(s) && Enabled(s, a)
    ensures LockOk(Step(s, a))
  {
    LockFrame(s, a);
    forall j: nat | Locks(LocalOf(Step(s, a), j)) ensures Step(s, a).lock == Some(j) {
      StepFrame(s, a, j);
    }
  }

  lemma UnlockedLocal(l: Local, db: Option<Db>, later: Option<Db>)
    requires !Locks(l) && LocalOk(db, l)
    ensures LocalOk(later, l)
  {
  }

  lemma CheckLocal(s: Sys, a: Action)
    requires (s.db.Some? ==> LedgerOk(s.db.value)) && LocalOk(s.db, LocalOf(s, a.i)) && Enabled(s, a)
    requires a.CheckSnapshot? || a.CheckPatch? || a.CheckRecord?
    ensures LocalOk(s.db, LocalOf(Step(s, a), a.i))
  {
    match a
    case CheckSnapshot(i, expected, p, uuid, origin, next) =>
      CheckedSnapshot(s.db, s.dirs, expected, p, uuid, origin, next);
    case CheckPatch(i, revision, patches, next) => CheckedPatch(s.db.value, s.dirs, revision, patches, next);
    case CheckRecord(i, expected, updates, next) => CheckedGc(s.db.value, s.dirs, expected, updates, next);
  }

  lemma CheckSnapshotFrame(s: Sys, a: Action)
    requires Enabled(s, a) && a.CheckSnapshot?
    ensures SnapshotChecks(s.db, s.dirs, a.expected, a.p)
    ensures IsSnapshot(s.db, a.p, CheckpointOf(s.dirs, a.p, None).value, a.uuid, a.origin, a.next)
    ensures LocalOf(s, a.i) == Writer(None) && LocalOf(Step(s, a), a.i) == Writer(Some(Pending(a.expected, a.next)))
  {
  }

  lemma CheckGcFrame(s: Sys, a: Action)
    requires Enabled(s, a) && a.CheckGc?
    ensures s.db.Some? && LocalOf(s, a.i).Gc?
    ensures var job := LocalOf(s, a.i).job;
            && StageRecords(job, a.updates) && GcChecks(Some(s.db.value), s.dirs, Some(job.known), a.updates)
            && IsGcRecorded(s.db.value, a.updates, a.next)
            && LocalOf(Step(s, a), a.i) == Gc(job, Some(Pending(Some(job.known), a.next)))
  {
  }

  lemma CheckGcLocal(s: Sys, a: Action)
    requires (s.db.Some? ==> LedgerOk(s.db.value)) && LocalOk(s.db, LocalOf(s, a.i)) && Enabled(s, a) && a.CheckGc?
    ensures LocalOk(s.db, LocalOf(Step(s, a), a.i))
  {
    CheckGcFrame(s, a);
    CheckedGcJob(s.db.value, s.dirs, LocalOf(s, a.i).job, a.updates, a.next);
  }

  lemma PlanLocal(s: Sys, a: Action)
    requires Enabled(s, a) && a.Plan?
    ensures LocalOk(s.db, LocalOf(Step(s, a), a.i))
  {
    ListedAvoids(s, LocalOf(s, a.i).known.activePath, a.reclaim);
  }

  lemma ActorLocal(s: Sys, a: Action)
    requires (s.db.Some? ==> LedgerOk(s.db.value)) && LocalOk(s.db, LocalOf(s, a.i)) && Enabled(s, a) && !Commits(a)
    ensures LocalOk(s.db, LocalOf(Step(s, a), a.i))
  {
    if a.CheckSnapshot? || a.CheckPatch? || a.CheckRecord? {
      CheckLocal(s, a);
    } else if a.CheckGc? {
      CheckGcLocal(s, a);
    } else if a.Plan? {
      PlanLocal(s, a);
    }
  }

  lemma CommitLocal(s: Sys, a: Action)
    requires LocalOk(s.db, LocalOf(s, a.i)) && Enabled(s, a) && Commits(a)
    ensures LocalOk(Step(s, a).db, LocalOf(Step(s, a), a.i)) && LedgerOk(Step(s, a).db.value)
  {
    CommitFrame(s, a);
  }

  lemma StepKeepsLedger(s: Sys, a: Action)
    requires Inv(s) && Enabled(s, a)
    ensures Step(s, a).db.Some? ==> LedgerOk(Step(s, a).db.value)
  {
    QuietFrame(s, a);
    if Commits(a) {
      CommitLocal(s, a);
    }
  }

  lemma StepKeepsLocal(s: Sys, a: Action, j: nat)
    requires Inv(s) && Enabled(s, a)
    ensures LocalOk(Step(s, a).db, LocalOf(Step(s, a), j))
  {
    StepFrame(s, a, j);
    QuietFrame(s, a);
    assert LocalOk(s.db, LocalOf(s, j)) && LocalOk(s.db, LocalOf(s, a.i));
    if j == a.i {
      if Commits(a) {
        CommitLocal(s, a);
      } else {
        ActorLocal(s, a);
      }
    } else if Commits(a) {
      UnlockedLocal(LocalOf(s, j), s.db, Step(s, a).db);
    }
  }

  lemma LogAppend(log: seq<Commit>, db: Option<Db>, q: Pending)
    requires LogOk(log, db) && ExpectedOk(db, q.expected) && Follows(db, q.next)
    ensures LogOk(log + [Commit(q.expected, db, q.next)], Some(q.next))
  {
    var longer := log + [Commit(q.expected, db, q.next)];
    forall n | 0 <= n < |longer| ensures CommitOk(longer, n) {
      if n < |log| {
        assert CommitOk(log, n);
        assert longer[n] == log[n] && (n > 0 ==> longer[n - 1] == log[n - 1]);
      }
    }
  }

  lemma StepKeepsLog(s: Sys, a: Action)
    requires Inv(s) && Enabled(s, a)
    ensures LogOk(Step(s, a).log, Step(s, a).db)
  {
    QuietFrame(s, a);
    if Commits(a) {
      CommitFrame(s, a);
      assert LocalOk(s.db, LocalOf(s, a.i));
      LogAppend(s.log, s.db, LocalOf(s, a.i).pending.value);
    }
  }

  lemma StepKeepsInv(s: Sys, a: Action)
    requires Inv(s) && Enabled(s, a)
    ensures Inv(Step(s, a))
  {
    StepKeepsLedger(s, a);
    StepKeepsLock(s, a);
    StepKeepsLog(s, a);
    forall j: nat ensures LocalOk(Step(s, a).db, LocalOf(Step(s, a), j)) {
      StepKeepsLocal(s, a, j);
    }
  }

  // ----- Whole runs -----

  lemma {:induction false} RunKeepsInv(r: Run)
    requires Legal(r)
    ensures Inv(r.state)
  {
    if r.Then? {
      RunKeepsInv(r.before);
      StepKeepsInv(r.before.state, r.action);
    }
  }

  lemma {:induction false} LogExtends(log: seq<Commit>, db: Option<Db>, n: nat)
    requires LogOk(log, db) && n < |log|
    ensures log[n].after.manifest.sequence == n + 1
    ensures log[n].after.manifest.storeUuid == log[0].after.manifest.storeUuid
    ensures log[n].after.manifest.origin == log[0].after.manifest.origin
  {
    assert CommitOk(log, n);
    if n > 0 {
      LogExtends(log, db, n - 1);
    }
  }

  lemma RunLogOk(r: Run)
    requires Legal(r)
    ensures LogOk(r.state.log, r.state.db)
  {
    RunKeepsInv(r);
  }

  lemma LogFacts(log: seq<Commit>, db: Option<Db>, m: nat)
    requires LogOk(log, db) && m < |log|
    ensures log[m].before == (if m == 0 then None else Some(log[m - 1].after))
    ensures ExpectedOk(log[m].before, log[m].expected)
    ensures log[m].after.manifest.sequence == m + 1
    ensures log[m].after.manifest.storeUuid == log[0].after.manifest.storeUuid
    ensures log[m].after.manifest.origin == log[0].after.manifest.origin
    ensures db == Some(log[|log| - 1].after)
  {
    assert CommitOk(log, m);
    LogExtends(log, db, m);
  }

  /** No lost updates: each commit replaced exactly the state its expected revision names, which
      is the one the commit before it left; the sequence counts the commits; identity and origin
      of the store never change. */
  lemma NoLostUpdates(r: Run, m: nat)
    requires Legal(r) && m < |r.state.log|
    ensures var log := r.state.log;
            && log[m].before == (if m == 0 then None else Some(log[m - 1].after))
            && ExpectedOk(log[m].before, log[m].expected) && log[m].after.manifest.sequence == m + 1
            && log[m].after.manifest.storeUuid == log[0].after.manifest.storeUuid
            && log[m].after.manifest.origin == log[0].after.manifest.origin
            && r.state.db == Some(log[|log| - 1].after)
  {
    RunLogOk(r);
    LogFacts(r.state.log, r.state.db, m);
  }

  lemma ExpectedSequence(log: seq<Commit>, db: Option<Db>, m: nat)
    requires LogOk(log, db) && m < |log|
    ensures m == 0 ==> log[m].expected == None
    ensures m > 0 ==> log[m].expected.Some? && log[m].expected.value.sequence == m
  {
    assert CommitOk(log, m);
    if m > 0 {
      LogExtends(log, db, m - 1);
    }
  }

  /** Two commits that present the same revision cannot both succeed. */
  lemma OneCommitPerRevision(r: Run, a: nat, b: nat)
    requires Legal(r) && a < |r.state.log| && b < |r.state.log|
    requires r.state.log[a].expected == r.state.log[b].expected
    ensures a == b
  {
    RunLogOk(r);
    ExpectedSequence(r.state.log, r.state.db, a);
    ExpectedSequence(r.state.log, r.state.db, b);
  }

  lemma {:induction false} ActiveInLog(log: seq<Commit>, db: Option<Db>, a: nat, b: nat)
    requires LogOk(log, db) && a <= b < |log| && !log[a].after.manifest.emptyLazy
    ensures !log[b].after.manifest.emptyLazy
    decreases b
  {
    if a < b {
      ActiveInLog(log, db, a, b - 1);
      assert CommitOk(log, b);
    }
  }

  /** Once a generation is active the store never becomes empty again. */
  lemma StaysActive(r: Run, a: nat, b: nat)
    requires Legal(r) && a <= b < |r.state.log| && !r.state.log[a].after.manifest.emptyLazy
    ensures !r.state.log[b].after.manifest.emptyLazy
  {
    RunLogOk(r);
    ActiveInLog(r.state.log, r.state.db, a, b);
  }

  /** In every run: nothing is removed unless its latest event in the ledger is `deleting`, and
      what a driver removes as selected is not the active generation. */
  lemma RemovalIsMarked(r: Run, a: Action)
    requires Legal(r) && Enabled(r.state, a) && (a.RecoverDelete? || a.Delete?)
    ensures r.state.db.Some? && LatestIs(r.state.db.value, a.x, Deleting)
    ensures a.Delete? ==> !IsActive(r.state.db.value, a.x)
  {
    RunKeepsInv(r);
    assert LocalOk(r.state.db, LocalOf(r.state, a.i));
  }
}
