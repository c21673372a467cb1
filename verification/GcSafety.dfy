/** When a garbage collection can remove the active generation. Recovery deletes before any
    compare-and-swap, guided by the active path read before the lock, so it matters which paths
    publishers take, which paths are recorded as `deleting`, and who has read the store. */
module GcSafety {
  import opened Wrappers
  import opened AdapterStore
  import opened StoreProtocol

  /** Recovery would take the active directory for an interrupted deletion. */
  ghost predicate ActiveMarked(db: Db) {
    db.manifest.activePath.Some? && LatestIs(db, Bundle(db.manifest.activePath.value), Deleting)
  }

  /** The snapshot publishes a path whose latest event is `deleting`. */
  ghost predicate TakesMarkedPath(db: Option<Db>, p: Payloads) {
    db.Some? && !p.emptyLazy && LatestIs(db.value, Bundle(p.indexPath), Deleting)
  }

  /** The last of the updates for `x` has this state. */
  predicate LastUpdateIs(updates: seq<GcUpdate>, x: GcPath, state: GcState) {
    exists i :: 0 <= i < |updates| && updates[i].path == x && updates[i].state == state
      && forall j :: i < j < |updates| ==> updates[j].path != x
  }

  /** The record leaves the active path with `deleting` as its latest event. */
  predicate MarksActivePath(db: Db, updates: seq<GcUpdate>) {
    db.manifest.activePath.Some? && LastUpdateIs(updates, Bundle(db.manifest.activePath.value), Deleting)
  }

  /** The step makes the active path a marked one, by a publication or by a record. */
  ghost predicate Marks(s: Sys, a: Action) {
    || (a.CheckSnapshot? && TakesMarkedPath(s.db, a.p))
    || (a.CheckRecord? && s.db.Some? && MarksActivePath(s.db.value, a.updates))
  }

  // ----- Who may remove it -----

  /** The active path a driver goes by. */
  function SeenBy(l: Local): Option<Option<GenPath>> {
    match l
    case GcRead(known) => Some(known.activePath)
    case GcPlanned(known, _) => Some(known.activePath)
    case Gc(job, _) => Some(job.active)
    case _ => None
  }

  predicate SeesOther(l: Local, g: GenPath) {
    SeenBy(l).Some? && SeenBy(l).value != Some(g)
  }

  /** The store opens, and its active path is not `g`. */
  ghost predicate ReadsOther(s: Sys, g: GenPath) {
    s.db.Some? && OpenOk(s.db.value, s.dirs, None) && s.db.value.manifest.activePath != Some(g)
  }

  /** A driver goes by another active path than `g`, or one that reads the store now will. */
  ghost predicate MayMiss(s: Sys, g: GenPath) {
    (exists j: nat :: SeesOther(LocalOf(s, j), g)) || ReadsOther(s, g)
  }

  /** The path that a marking step leaves active and marked. */
  ghost function MarkedPath(s: Sys, a: Action): GenPath
    requires Marks(s, a)
  {
    if a.CheckSnapshot? then a.p.indexPath else s.db.value.manifest.activePath.value
  }

  /** It does so while a driver may miss that the path is active. */
  ghost predicate Exposes(s: Sys, a: Action) {
    Marks(s, a) && MayMiss(s, MarkedPath(s, a))
  }

  /** No step of the run exposes the active generation. */
  ghost predicate Disciplined(r: Run) {
    r.Then? ==> Disciplined(r.before) && !Exposes(r.before.state, r.action)
  }

  /** `r` continues `p`, and no step after `p` does. */
  ghost predicate DisciplinedSince(r: Run, p: Run) {
    r == p || (r.Then? && DisciplinedSince(r.before, p) && !Exposes(r.before.state, r.action))
  }

  /** What callers can see to by themselves: no snapshot takes a marked path, and no record marks
      the active one. */
  ghost predicate PrudentRun(r: Run) {
    r.Then? ==> PrudentRun(r.before) && !Marks(r.before.state, r.action)
  }

  lemma {:induction false} PrudentIsDisciplined(r: Run)
    requires PrudentRun(r)
    ensures Disciplined(r)
  {
    if r.Then? {
      PrudentIsDisciplined(r.before);
    }
  }

  predicate IsRemoval(a: Action) {
    a.RecoverDelete? || a.Delete?
  }

  /** The last step of the run removes the active generation's directory. */
  predicate RemovesActive(r: Run) {
    && r.Then? && IsRemoval(r.action) && r.before.state.db.Some? && IsActive(r.before.state.db.value, r.action.x)
    && r.action.x.path in r.before.state.dirs && r.action.x.path !in r.state.dirs
  }

  // ----- Which transactions make the active path a marked one -----

  lemma SameQueueSameLatest(db: Db, next: Db, x: GcPath, state: GcState)
    requires next.gcQueue == db.gcQueue
    ensures LatestIs(next, x, state) <==> LatestIs(db, x, state)
  {
    assert forall k: nat :: IsRow(next, k, x) <==> IsRow(db, k, x);
  }

  lemma SnapshotActivePath(db: Option<Db>, dirs: Dirs, expected: Option<Revision>, p: Payloads, uuid: nat,
                           origin: Origin, next: Db)
    requires SnapshotChecks(db, dirs, expected, p)
    requires IsSnapshot(db, p, CheckpointOf(dirs, p, None).value, uuid, origin, next)
    ensures next.manifest.activePath == PreparedPath(p) && next.manifest.emptyLazy == p.emptyLazy && next.payloads == p
    ensures next.gcQueue == if db.Some? then db.value.gcQueue else map[]
    ensures !p.emptyLazy ==> p.indexPath in dirs
  {
  }

  lemma SnapshotMarks(db: Option<Db>, dirs: Dirs, expected: Option<Revision>, p: Payloads, uuid: nat, origin: Origin,
                      next: Db)
    requires SnapshotChecks(db, dirs, expected, p)
    requires IsSnapshot(db, p, CheckpointOf(dirs, p, None).value, uuid, origin, next)
    ensures ActiveMarked(next) <==> TakesMarkedPath(db, p)
  {
    SnapshotActivePath(db, dirs, expected, p, uuid, origin, next);
    if db.Some? && !p.emptyLazy {
      SameQueueSameLatest(db.value, next, Bundle(p.indexPath), Deleting);
    }
  }

  lemma PatchMarks(db: Db, patches: seq<Patch>, next: Db)
    requires IsPatched(db, patches, next)
    ensures ActiveMarked(next) <==> ActiveMarked(db)
    ensures next.manifest.activePath == db.manifest.activePath
  {
    if db.manifest.activePath.Some? {
      SameQueueSameLatest(db, next, Bundle(db.manifest.activePath.value), Deleting);
    }
  }

  lemma RecordsAvoidActive(job: Job, updates: seq<GcUpdate>, g: GenPath)
    requires Avoids(job.reclaim, job.active) && Avoids(job.recovered, job.active) && StageRecords(job, updates)
    requires job.active == Some(g)
    ensures !Mentions(updates, Bundle(g))
  {
    forall i | 0 <= i < |updates| ensures updates[i].path != Bundle(g) {
      assert updates[i] in updates;
    }
  }

  lemma GcMarks(db: Db, dirs: Dirs, job: Job, updates: seq<GcUpdate>, next: Db)
    requires LedgerOk(db) && JobOk(Some(db), job) && StageRecords(job, updates)
    requires GcChecks(Some(db), dirs, Some(job.known), updates) && IsGcRecorded(db, updates, next)
    ensures ActiveMarked(next) <==> ActiveMarked(db)
    ensures next.manifest.activePath == db.manifest.activePath
  {
    CheckedGcJob(db, dirs, job, updates, next);
    if job.active.Some? {
      RecordsAvoidActive(job, updates, job.active.value);
      UnrecordedKeepsLatest(db, updates, next, Deleting, Bundle(job.active.value));
    }
  }

  /** The row of the last update for a path is its latest row. */
  lemma LastUpdateRow(db: Db, updates: seq<GcUpdate>, next: Db, x: GcPath) returns (last: nat)
    requires LedgerOk(db) && IsGcRecorded(db, updates, next) && Mentions(updates, x)
    ensures IsRow(next, last, x) && forall j: nat :: IsRow(next, j, x) ==> j <= last
    ensures var k := last - db.manifest.counts.gcQueue - 1;
            0 <= k < |updates| && next.gcQueue[last] == updates[k]
  {
    var base := db.manifest.counts.gcQueue;
    GcLedgerOk(db, updates, next);
    GcRowsNumbered(db.gcQueue, base, updates, |updates|);
    var i :| 0 <= i < |updates| && updates[i].path == x;
    assert next.gcQueue[base + 1 + i] == updates[i];
    last := LatestExists(next, x, base + 1 + i);
    GcRowAt(db, updates, next, last);
  }

  lemma NoLaterUpdate(db: Db, updates: seq<GcUpdate>, next: Db, x: GcPath, last: nat)
    requires LedgerOk(db) && IsGcRecorded(db, updates, next) && forall j: nat :: IsRow(next, j, x) ==> j <= last
    ensures forall j :: 0 <= j < |updates| && last - db.manifest.counts.gcQueue - 1 < j ==> updates[j].path != x
  {
    var base := db.manifest.counts.gcQueue;
    GcRowsNumbered(db.gcQueue, base, updates, |updates|);
    forall j | 0 <= j < |updates| && last - base - 1 < j ensures updates[j].path != x {
      assert next.gcQueue[base + 1 + j] == updates[j];
      assert IsRow(next, base + 1 + j, x) ==> base + 1 + j <= last;
    }
  }

  /** The last update for a path gives its latest state. */
  lemma LastUpdateIsLatest(db: Db, updates: seq<GcUpdate>, next: Db, x: GcPath, state: GcState)
    requires LedgerOk(db) && IsGcRecorded(db, updates, next) && Mentions(updates, x)
    ensures LatestIs(next, x, state) <==> LastUpdateIs(updates, x, state)
  {
    var last := LastUpdateRow(db, updates, next, x);
    NoLaterUpdate(db, updates, next, x, last);
    LatestIsOne(next, x, last, state);
    LastIsOne(updates, x, last - db.manifest.counts.gcQueue - 1, state);
  }

  lemma LatestIsOne(db: Db, x: GcPath, last: nat, state: GcState)
    requires IsRow(db, last, x) && forall j: nat :: IsRow(db, j, x) ==> j <= last
    ensures LatestIs(db, x, state) <==> db.gcQueue[last].state == state
  {
  }

  lemma LastIsOne(updates: seq<GcUpdate>, x: GcPath, last: nat, state: GcState)
    requires last < |updates| && updates[last].path == x && forall j :: last < j < |updates| ==> updates[j].path != x
    ensures LastUpdateIs(updates, x, state) <==> updates[last].state == state
  {
  }

  /** A direct record leaves the active path marked exactly when it marks it, or when it was marked
      and is not mentioned. */
  lemma RecordMarks(db: Db, updates: seq<GcUpdate>, next: Db)
    requires LedgerOk(db) && IsGcRecorded(db, updates, next)
    ensures next.manifest.activePath == db.manifest.activePath
    ensures ActiveMarked(next) <==>
      MarksActivePath(db, updates)
      || (ActiveMarked(db) && !Mentions(updates, Bundle(db.manifest.activePath.value)))
  {
    if db.manifest.activePath.Some? {
      var x := Bundle(db.manifest.activePath.value);
      if Mentions(updates, x) {
        LastUpdateIsLatest(db, updates, next, x, Deleting);
      } else {
        UnrecordedKeepsLatest(db, updates, next, Deleting, x);
      }
    }
  }

  // ----- Safety of disciplined runs -----

  function PendingOf(l: Local): Option<Pending> {
    if l.Writer? || l.Gc? then l.pending else None
  }

  /** If the active path of `d` is marked, every driver knows that it is active. */
  ghost predicate Covered(s: Sys, d: Db) {
    ActiveMarked(d) ==> !MayMiss(s, d.manifest.activePath.value)
  }

  ghost predicate CoveredPending(s: Sys, q: Option<Pending>) {
    q.Some? ==> Covered(s, q.value.next)
  }

  ghost predicate CoverInv(s: Sys) {
    (s.db.Some? ==> Covered(s, s.db.value)) && forall i: nat :: CoveredPending(s, PendingOf(LocalOf(s, i)))
  }

  predicate TouchesDirs(a: Action) {
    a.Prepare? || IsRemoval(a)
  }

  lemma QuietDirs(s: Sys, a: Action)
    requires Enabled(s, a) && !TouchesDirs(a)
    ensures Step(s, a).dirs == s.dirs
  {
  }

  lemma PrepareFrame(s: Sys, a: Action)
    requires Enabled(s, a) && a.Prepare?
    ensures Step(s, a) == s.(dirs := s.dirs[a.path := a.info]) && LocalOf(s, a.i) == Writer(None)
  {
  }

  lemma RemovalFrame(s: Sys, a: Action)
    requires Enabled(s, a) && IsRemoval(a)
    ensures Step(s, a).dirs == RemoveDir(s.dirs, a.x, a.done) && Step(s, a).db == s.db
    ensures LocalOf(s, a.i).Gc? && PendingOf(LocalOf(Step(s, a), a.i)).None?
  {
  }

  lemma DirsFrame(s: Sys, a: Action)
    requires Enabled(s, a)
    ensures !TouchesDirs(a) ==> Step(s, a).dirs == s.dirs
    ensures TouchesDirs(a) ==>
      Step(s, a).db == s.db && Locks(LocalOf(s, a.i)) && PendingOf(LocalOf(Step(s, a), a.i)).None?
    ensures a.Prepare? ==> Step(s, a).dirs == s.dirs[a.path := a.info]
    ensures IsRemoval(a) ==> Step(s, a).dirs == RemoveDir(s.dirs, a.x, a.done)
  {
    if a.Prepare? {
      PrepareFrame(s, a);
    } else if IsRemoval(a) {
      RemovalFrame(s, a);
    } else {
      QuietDirs(s, a);
    }
  }

  /** Whoever has a transaction pending holds the lock, so database and directories stand still. */
  lemma NoOtherPending(s: Sys, a: Action, j: nat)
    requires Inv(s) && Enabled(s, a) && (TouchesDirs(a) || Commits(a))
    ensures PendingOf(LocalOf(Step(s, a), j)).None?
  {
    DirsFrame(s, a);
    QuietFrame(s, a);
    StepFrame(s, a, j);
    if Commits(a) {
      CommitFrame(s, a);
    }
    assert j != a.i ==> !Locks(LocalOf(s, j));
  }

  /** What a driver goes by is what it went by before, or what it reads now. */
  lemma SeenFrame(s: Sys, a: Action)
    requires Enabled(s, a) && SeenBy(LocalOf(Step(s, a), a.i)).Some?
    ensures if a.ReadStore? then
              s.db.Some? && OpenOk(s.db.value, s.dirs, None)
              && SeenBy(LocalOf(Step(s, a), a.i)).value == s.db.value.manifest.activePath
            else SeenBy(LocalOf(Step(s, a), a.i)) == SeenBy(LocalOf(s, a.i))
  {
  }

  lemma MissedBefore(s: Sys, a: Action, j: nat, g: GenPath)
    requires Enabled(s, a) && SeesOther(LocalOf(Step(s, a), j), g)
    ensures MayMiss(s, g)
  {
    StepFrame(s, a, j);
    if j == a.i {
      SeenFrame(s, a);
      if a.ReadStore? {
        assert ReadsOther(s, g);
      } else {
        assert SeesOther(LocalOf(s, j), g);
      }
    } else {
      assert SeesOther(LocalOf(s, j), g);
    }
  }

  /** While database and directories stand, nobody misses what could not be missed. */
  lemma StillCovered(s: Sys, a: Action, d: Db)
    requires Enabled(s, a) && Covered(s, d) && !Commits(a) && !TouchesDirs(a)
    ensures Covered(Step(s, a), d)
  {
    QuietFrame(s, a);
    DirsFrame(s, a);
    if ActiveMarked(d) && MayMiss(Step(s, a), d.manifest.activePath.value) {
      var g := d.manifest.activePath.value;
      if !ReadsOther(Step(s, a), g) {
        var j: nat :| SeesOther(LocalOf(Step(s, a), j), g);
        MissedBefore(s, a, j, g);
      }
    }
  }

  /** What is in the database cannot be missed by a reader, whatever the directories. */
  lemma CoveredInDb(s: Sys, a: Action, d: Db)
    requires Enabled(s, a) && Covered(s, d) && Step(s, a).db == Some(d)
    ensures Covered(Step(s, a), d)
  {
    if ActiveMarked(d) && MayMiss(Step(s, a), d.manifest.activePath.value) {
      var j: nat :| SeesOther(LocalOf(Step(s, a), j), d.manifest.activePath.value);
      MissedBefore(s, a, j, d.manifest.activePath.value);
    }
  }

  lemma SnapshotCovered(s: Sys, a: Action)
    requires Enabled(s, a) && !Exposes(s, a) && a.CheckSnapshot?
    ensures Covered(s, a.next)
  {
    CheckSnapshotFrame(s, a);
    SnapshotActivePath(s.db, s.dirs, a.expected, a.p, a.uuid, a.origin, a.next);
    SnapshotMarks(s.db, s.dirs, a.expected, a.p, a.uuid, a.origin, a.next);
  }

  lemma PatchCovered(s: Sys, a: Action)
    requires CoverInv(s) && Enabled(s, a) && a.CheckPatch?
    ensures Covered(s, a.next)
  {
    PatchMarks(s.db.value, a.patches, a.next);
  }

  lemma RecordCovered(s: Sys, a: Action)
    requires Inv(s) && CoverInv(s) && Enabled(s, a) && !Exposes(s, a) && a.CheckRecord?
    ensures Covered(s, a.next)
  {
    RecordMarks(s.db.value, a.updates, a.next);
  }

  lemma GcCovered(s: Sys, a: Action)
    requires Inv(s) && CoverInv(s) && Enabled(s, a) && a.CheckGc?
    ensures Covered(s, a.next)
  {
    CheckGcFrame(s, a);
    assert LocalOk(s.db, LocalOf(s, a.i));
    GcMarks(s.db.value, s.dirs, LocalOf(s, a.i).job, a.updates, a.next);
  }

  predicate Checks(a: Action) {
    a.CheckSnapshot? || a.CheckPatch? || a.CheckRecord? || a.CheckGc?
  }

  lemma CheckedPending(s: Sys, a: Action)
    requires Enabled(s, a)
    ensures Checks(a) ==>
      PendingOf(LocalOf(Step(s, a), a.i)).Some? && PendingOf(LocalOf(Step(s, a), a.i)).value.next == a.next
    ensures !Checks(a) ==>
      PendingOf(LocalOf(Step(s, a), a.i)).None? || PendingOf(LocalOf(Step(s, a), a.i)) == PendingOf(LocalOf(s, a.i))
  {
  }

  lemma CheckCovered(s: Sys, a: Action)
    requires Inv(s) && CoverInv(s) && Enabled(s, a) && !Exposes(s, a) && Checks(a)
    ensures Covered(s, a.next)
  {
    if a.CheckSnapshot? {
      SnapshotCovered(s, a);
    } else if a.CheckPatch? {
      PatchCovered(s, a);
    } else if a.CheckRecord? {
      RecordCovered(s, a);
    } else {
      GcCovered(s, a);
    }
  }

  lemma StepCoversPending(s: Sys, a: Action, j: nat)
    requires Inv(s) && CoverInv(s) && Enabled(s, a) && !Exposes(s, a) && !Commits(a) && !TouchesDirs(a)
    ensures CoveredPending(Step(s, a), PendingOf(LocalOf(Step(s, a), j)))
  {
    StepFrame(s, a, j);
    CheckedPending(s, a);
    assert CoveredPending(s, PendingOf(LocalOf(s, j)));
    if j == a.i && Checks(a) {
      CheckCovered(s, a);
      StillCovered(s, a, a.next);
    } else if PendingOf(LocalOf(Step(s, a), j)).Some? {
      StillCovered(s, a, PendingOf(LocalOf(s, j)).value.next);
    }
  }

  lemma StepCoversDb(s: Sys, a: Action)
    requires Inv(s) && CoverInv(s) && Enabled(s, a)
    ensures Step(s, a).db.Some? ==> Covered(Step(s, a), Step(s, a).db.value)
  {
    QuietFrame(s, a);
    if Commits(a) {
      CommitFrame(s, a);
      assert CoveredPending(s, PendingOf(LocalOf(s, a.i)));
      CoveredInDb(s, a, LocalOf(s, a.i).pending.value.next);
    } else if s.db.Some? {
      CoveredInDb(s, a, s.db.value);
    }
  }

  lemma StepKeepsCoverInv(s: Sys, a: Action)
    requires Inv(s) && CoverInv(s) && Enabled(s, a) && !Exposes(s, a)
    ensures CoverInv(Step(s, a))
  {
    StepCoversDb(s, a);
    forall j: nat ensures CoveredPending(Step(s, a), PendingOf(LocalOf(Step(s, a), j))) {
      if Commits(a) || TouchesDirs(a) {
        NoOtherPending(s, a, j);
      } else {
        StepCoversPending(s, a, j);
      }
    }
  }

  lemma {:induction false} RunKeepsCoverInv(r: Run)
    requires Legal(r) && Disciplined(r)
    ensures CoverInv(r.state)
  {
    if r.Then? {
      RunKeepsCoverInv(r.before);
      RunKeepsInv(r.before);
      StepKeepsCoverInv(r.before.state, r.action);
    }
  }

  /** GC safety: as long as no step exposes the active generation, no step removes its directory. */
  lemma GcIsSafe(r: Run, a: Action)
    requires Legal(r) && Disciplined(r) && Enabled(r.state, a) && IsRemoval(a)
    ensures r.state.db.Some? && !IsActive(r.state.db.value, a.x)
  {
    RunKeepsCoverInv(r);
    RemovalIsMarked(r, a);
    if a.RecoverDelete? && a.x.Bundle? {
      assert SeesOther(LocalOf(r.state, a.i), a.x.path);
    }
  }

  lemma SafeRunsRemoveNothingActive(r: Run)
    requires Legal(r) && Disciplined(r)
    ensures !RemovesActive(r)
  {
    if RemovesActive(r) {
      GcIsSafe(r.before, r.action);
    }
  }

  // ----- An empty store has no generation in its ledger -----

  predicate IsLazy(db: Option<Db>) {
    db.Some? ==> db.value.manifest.emptyLazy
  }

  predicate OnlyDebris(paths: set<GcPath>) {
    forall x :: x in paths ==> x.Debris?
  }

  ghost predicate LedgerOfDebris(db: Db) {
    forall k :: k in db.gcQueue ==> db.gcQueue[k].path.Debris?
  }

  predicate Present(paths: set<GcPath>, dirs: Dirs) {
    forall x :: x in paths && x.Bundle? ==> x.path in dirs
  }

  /** What a driver selected is still there, since nothing can have removed it. */
  ghost predicate EmptyLocal(dirs: Dirs, l: Local) {
    match l
    case Idle => true
    case GcRead(_) => true
    case GcPlanned(_, reclaim) => Present(reclaim, dirs)
    case Writer(pending) =>
      pending.Some? && pending.value.next.manifest.emptyLazy ==> LedgerOfDebris(pending.value.next)
    case Gc(job, pending) =>
      && Present(job.reclaim, dirs) && OnlyDebris(job.recovered)
      && (pending.Some? && pending.value.next.manifest.emptyLazy ==> LedgerOfDebris(pending.value.next))
  }

  ghost predicate EmptyInv(s: Sys) {
    IsLazy(s.db) ==> (s.db.Some? ==> LedgerOfDebris(s.db.value)) && forall i: nat :: EmptyLocal(s.dirs, LocalOf(s, i))
  }

  /** A direct record on an empty store names debris only. */
  ghost predicate NamesOnlyDebris(s: Sys, a: Action) {
    a.CheckRecord? && IsLazy(s.db) ==> forall u :: u in a.updates ==> u.path.Debris?
  }

  ghost predicate NoEarlyRecord(r: Run) {
    r.Then? ==> NoEarlyRecord(r.before) && NamesOnlyDebris(r.before.state, r.action)
  }

  lemma LatestIsDebris(db: Db, x: GcPath, state: GcState)
    requires LedgerOfDebris(db) && LatestIs(db, x, state)
    ensures x.Debris?
  {
  }

  lemma StaysLazy(s: Sys, a: Action)
    requires Inv(s) && Enabled(s, a) && IsLazy(Step(s, a).db)
    ensures IsLazy(s.db)
  {
    QuietFrame(s, a);
    if Commits(a) {
      CommitFrame(s, a);
      assert LocalOk(s.db, LocalOf(s, a.i));
    }
  }

  /** While the store is empty directories only appear. */
  lemma EmptyDirsGrow(s: Sys, a: Action)
    requires Inv(s) && EmptyInv(s) && IsLazy(s.db) && Enabled(s, a)
    ensures forall g :: g in s.dirs ==> g in Step(s, a).dirs
    ensures a.RecoverDelete? ==> a.x.Debris?
  {
    assert LocalOk(s.db, LocalOf(s, a.i));
    if a.RecoverDelete? || a.Delete? {
      LatestIsDebris(s.db.value, a.x, Deleting);
    }
  }

  lemma EmptyLocalGrows(dirs: Dirs, later: Dirs, l: Local)
    requires EmptyLocal(dirs, l) && forall g :: g in dirs ==> g in later
    ensures EmptyLocal(later, l)
  {
  }

  lemma EmptyGcRecord(db: Db, dirs: Dirs, job: Job, updates: seq<GcUpdate>, next: Db)
    requires LedgerOk(db) && LedgerOfDebris(db) && db.manifest.emptyLazy
    requires Present(job.reclaim, dirs) && OnlyDebris(job.recovered) && StageRecords(job, updates)
    requires GcChecks(Some(db), dirs, Some(job.known), updates) && IsGcRecorded(db, updates, next)
    ensures LedgerOfDebris(next)
  {
    OpenIs(db, dirs, None);
    assert forall g :: g !in dirs;
    forall k | k in next.gcQueue ensures next.gcQueue[k].path.Debris? {
      GcRowAt(db, updates, next, k);
      var i := k - db.manifest.counts.gcQueue - 1;
      if i >= 0 {
        assert updates[i] in updates;
      }
    }
  }

  lemma EmptyCheckGc(s: Sys, a: Action)
    requires Inv(s) && EmptyInv(s) && IsLazy(s.db) && Enabled(s, a) && a.CheckGc?
    ensures EmptyLocal(s.dirs, LocalOf(Step(s, a), a.i))
  {
    CheckGcFrame(s, a);
    assert EmptyLocal(s.dirs, LocalOf(s, a.i));
    EmptyGcRecord(s.db.value, s.dirs, LocalOf(s, a.i).job, a.updates, a.next);
  }

  lemma EmptyPlan(s: Sys, a: Action)
    requires Enabled(s, a) && a.Plan?
    ensures EmptyLocal(s.dirs, LocalOf(Step(s, a), a.i))
  {
    forall x | x in a.reclaim && x.Bundle? ensures x.path in s.dirs {
      assert Listed(s, LocalOf(s, a.i).known.activePath, x);
    }
  }

  lemma EmptyCheckSnapshot(s: Sys, a: Action)
    requires Inv(s) && EmptyInv(s) && IsLazy(s.db) && Enabled(s, a) && a.CheckSnapshot?
    ensures EmptyLocal(s.dirs, LocalOf(Step(s, a), a.i))
  {
    SnapshotActivePath(s.db, s.dirs, a.expected, a.p, a.uuid, a.origin, a.next);
  }

  lemma EmptyCheckRecord(s: Sys, a: Action)
    requires Inv(s) && EmptyInv(s) && IsLazy(s.db) && Enabled(s, a) && a.CheckRecord? && NamesOnlyDebris(s, a)
    ensures EmptyLocal(s.dirs, LocalOf(Step(s, a), a.i))
  {
    var db := s.db.value;
    forall k | k in a.next.gcQueue ensures a.next.gcQueue[k].path.Debris? {
      GcRowAt(db, a.updates, a.next, k);
      var i := k - db.manifest.counts.gcQueue - 1;
      if i >= 0 {
        assert a.updates[i] in a.updates;
      }
    }
  }

  predicate ByDriver(a: Action) {
    a.AcquireGc? || a.RecoverDelete? || a.SkipRecovery? || a.CommitGc? || a.Delete?
  }

  lemma EmptyLocked(s: Sys, a: Action)
    requires EmptyLocal(s.dirs, LocalOf(s, a.i)) && Enabled(s, a) && a.AcquireGc?
    ensures EmptyLocal(s.dirs, LocalOf(Step(s, a), a.i))
  {
  }

  lemma EmptyRecovered(s: Sys, a: Action)
    requires EmptyLocal(s.dirs, LocalOf(s, a.i)) && Enabled(s, a) && a.RecoverDelete? && a.x.Debris?
    ensures EmptyLocal(s.dirs, LocalOf(Step(s, a), a.i))
  {
  }

  lemma EmptyDriver(s: Sys, a: Action)
    requires EmptyLocal(s.dirs, LocalOf(s, a.i)) && Enabled(s, a) && ByDriver(a) && (a.RecoverDelete? ==> a.x.Debris?)
    ensures EmptyLocal(s.dirs, LocalOf(Step(s, a), a.i))
  {
    if a.AcquireGc? {
      EmptyLocked(s, a);
    } else if a.RecoverDelete? {
      EmptyRecovered(s, a);
    }
  }

  lemma EmptyOther(s: Sys, a: Action)
    requires EmptyLocal(s.dirs, LocalOf(s, a.i)) && Enabled(s, a) && !ByDriver(a)
    requires !a.CheckGc? && !a.Plan? && !a.CheckSnapshot? && !a.CheckRecord?
    requires s.db.Some? ==> LedgerOfDebris(s.db.value)
    ensures EmptyLocal(s.dirs, LocalOf(Step(s, a), a.i))
  {
  }

  lemma EmptyCheck(s: Sys, a: Action)
    requires Inv(s) && EmptyInv(s) && IsLazy(s.db) && Enabled(s, a) && NamesOnlyDebris(s, a)
    requires a.CheckGc? || a.CheckSnapshot? || a.CheckRecord?
    ensures EmptyLocal(s.dirs, LocalOf(Step(s, a), a.i))
  {
    if a.CheckGc? {
      EmptyCheckGc(s, a);
    } else if a.CheckSnapshot? {
      EmptyCheckSnapshot(s, a);
    } else {
      EmptyCheckRecord(s, a);
    }
  }

  lemma EmptyUnchecked(s: Sys, a: Action)
    requires EmptyLocal(s.dirs, LocalOf(s, a.i)) && Enabled(s, a) && (a.RecoverDelete? ==> a.x.Debris?)
    requires !a.CheckGc? && !a.CheckSnapshot? && !a.CheckRecord? && (s.db.Some? ==> LedgerOfDebris(s.db.value))
    ensures EmptyLocal(s.dirs, LocalOf(Step(s, a), a.i))
  {
    if a.Plan? {
      EmptyPlan(s, a);
    } else if ByDriver(a) {
      EmptyDriver(s, a);
    } else {
      EmptyOther(s, a);
    }
  }

  lemma EmptyActor(s: Sys, a: Action)
    requires Inv(s) && EmptyInv(s) && IsLazy(s.db) && Enabled(s, a) && NamesOnlyDebris(s, a)
    ensures EmptyLocal(Step(s, a).dirs, LocalOf(Step(s, a), a.i))
  {
    EmptyDirsGrow(s, a);
    if a.CheckGc? || a.CheckSnapshot? || a.CheckRecord? {
      EmptyCheck(s, a);
    } else {
      assert EmptyLocal(s.dirs, LocalOf(s, a.i));
      EmptyUnchecked(s, a);
    }
    EmptyLocalGrows(s.dirs, Step(s, a).dirs, LocalOf(Step(s, a), a.i));
  }

  lemma EmptyCommit(s: Sys, a: Action)
    requires Inv(s) && EmptyInv(s) && IsLazy(s.db) && Enabled(s, a) && Commits(a) && IsLazy(Step(s, a).db)
    ensures LedgerOfDebris(Step(s, a).db.value)
  {
    CommitFrame(s, a);
    assert EmptyLocal(s.dirs, LocalOf(s, a.i));
  }

  lemma StepKeepsEmptyInv(s: Sys, a: Action)
    requires Inv(s) && EmptyInv(s) && Enabled(s, a) && NamesOnlyDebris(s, a)
    ensures EmptyInv(Step(s, a))
  {
    if IsLazy(Step(s, a).db) {
      StaysLazy(s, a);
      QuietFrame(s, a);
      EmptyDirsGrow(s, a);
      EmptyActor(s, a);
      if Commits(a) {
        EmptyCommit(s, a);
      }
      forall j: nat ensures EmptyLocal(Step(s, a).dirs, LocalOf(Step(s, a), j)) {
        StepFrame(s, a, j);
        assert EmptyLocal(s.dirs, LocalOf(s, j));
        EmptyLocalGrows(s.dirs, Step(s, a).dirs, LocalOf(s, j));
      }
    }
  }

  lemma {:induction false} RunKeepsEmptyInv(r: Run)
    requires Legal(r) && NoEarlyRecord(r)
    ensures EmptyInv(r.state)
  {
    if r.Then? {
      RunKeepsEmptyInv(r.before);
      RunKeepsInv(r.before);
      StepKeepsEmptyInv(r.before.state, r.action);
    }
  }

  /** As long as nobody records a generation on an empty store, its ledger names none, whatever the
      drivers do, and no publication of its first generation takes a marked path. */
  lemma EmptyStoreHasNoMarks(r: Run, p: Payloads)
    requires Legal(r) && NoEarlyRecord(r) && IsLazy(r.state.db)
    ensures !TakesMarkedPath(r.state.db, p)
  {
    RunKeepsEmptyInv(r);
    if TakesMarkedPath(r.state.db, p) {
      LatestIsDebris(r.state.db.value, Bundle(p.indexPath), Deleting);
    }
  }

}
