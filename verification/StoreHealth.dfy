/** In which runs the store keeps opening: whole runs of publishers that use fresh ids and leave the
    active directory alone, in which no step exposes the active generation to a driver; the naming
    rule of the repository's own publisher, which gives the first two; and the empty store, which is
    not covered by either. */
module StoreHealth {
  import opened Wrappers
  import opened AdapterStore
  import opened StoreProtocol
  import opened GcSafety

  /** The disk says of the active generation what the manifest recorded. */
  predicate ActiveDirOk(db: Db, dirs: Dirs) {
    !db.manifest.emptyLazy ==> CheckpointOf(dirs, db.payloads, None) == Ok(Recorded(db.manifest))
  }

  ghost predicate StoreOk(db: Db, dirs: Dirs) {
    Healthy(db) && ActiveDirOk(db, dirs)
  }

  /** What is written at the active path is what stands there. */
  predicate SparesActive(s: Sys, a: Action) {
    a.Prepare? && s.db.Some? && Some(a.path) == s.db.value.manifest.activePath ==>
      a.path in s.dirs && s.dirs[a.path] == a.info
  }

  ghost predicate Careful(s: Sys, a: Action) {
    !Exposes(s, a) && SparesActive(s, a) && (a.CheckSnapshot? ==> FreshId(s.db, a.p))
  }

  ghost predicate CarefulRun(r: Run) {
    r.Then? ==> CarefulRun(r.before) && Careful(r.before.state, r.action)
  }

  lemma {:induction false} CarefulIsDisciplined(r: Run)
    requires CarefulRun(r)
    ensures Disciplined(r)
  {
    if r.Then? {
      CarefulIsDisciplined(r.before);
    }
  }

  // ----- One step -----

  lemma OpenStoreOk(db: Db, dirs: Dirs)
    requires Healthy(db) && OpenOk(db, dirs, None)
    ensures StoreOk(db, dirs)
  {
    HealthyOpens(db, dirs, None);
  }

  lemma SnapshotStoreOk(db: Option<Db>, dirs: Dirs, expected: Option<Revision>, p: Payloads, uuid: nat, origin: Origin,
                        next: Db)
    requires HealthyOrNone(db) && SnapshotChecks(db, dirs, expected, p) && FreshId(db, p)
    requires IsSnapshot(db, p, CheckpointOf(dirs, p, None).value, uuid, origin, next)
    ensures StoreOk(next, dirs)
  {
    SnapshotKeepsHealthy(db, dirs, expected, p, uuid, origin, next);
    OpenStoreOk(next, dirs);
  }

  ghost predicate PendingStoreOk(q: Option<Pending>, dirs: Dirs) {
    q.Some? ==> StoreOk(q.value.next, dirs)
  }

  ghost predicate HealthInv(s: Sys) {
    (s.db.Some? ==> StoreOk(s.db.value, s.dirs)) && forall i: nat :: PendingStoreOk(PendingOf(LocalOf(s, i)), s.dirs)
  }

  lemma CheckSnapshotStoreOk(s: Sys, a: Action)
    requires HealthInv(s) && Enabled(s, a) && Careful(s, a) && a.CheckSnapshot?
    ensures PendingStoreOk(PendingOf(LocalOf(Step(s, a), a.i)), s.dirs)
  {
    CheckSnapshotFrame(s, a);
    SnapshotStoreOk(s.db, s.dirs, a.expected, a.p, a.uuid, a.origin, a.next);
    assert PendingOf(LocalOf(Step(s, a), a.i)) == Some(Pending(a.expected, a.next));
  }

  lemma CheckPatchStoreOk(s: Sys, a: Action)
    requires HealthInv(s) && Enabled(s, a) && a.CheckPatch?
    ensures PendingStoreOk(PendingOf(LocalOf(Step(s, a), a.i)), s.dirs)
  {
    PatchKeepsHealthy(s.db.value, s.dirs, a.revision, a.patches, a.next);
    OpenStoreOk(a.next, s.dirs);
  }

  lemma CheckRecordStoreOk(s: Sys, a: Action)
    requires HealthInv(s) && Enabled(s, a) && a.CheckRecord?
    ensures PendingStoreOk(PendingOf(LocalOf(Step(s, a), a.i)), s.dirs)
  {
    GcKeepsHealthy(s.db.value, s.dirs, a.expected, a.updates, a.next);
    OpenStoreOk(a.next, s.dirs);
  }

  lemma CheckGcStoreOk(s: Sys, a: Action)
    requires HealthInv(s) && Enabled(s, a) && a.CheckGc?
    ensures PendingStoreOk(PendingOf(LocalOf(Step(s, a), a.i)), s.dirs)
  {
    CheckGcFrame(s, a);
    GcKeepsHealthy(s.db.value, s.dirs, Some(LocalOf(s, a.i).job.known), a.updates, a.next);
    OpenStoreOk(a.next, s.dirs);
  }

  lemma ActorStoreOk(s: Sys, a: Action)
    requires HealthInv(s) && Enabled(s, a) && Careful(s, a)
    ensures PendingStoreOk(PendingOf(LocalOf(Step(s, a), a.i)), s.dirs)
  {
    if a.CheckSnapshot? {
      CheckSnapshotStoreOk(s, a);
    } else if a.CheckPatch? {
      CheckPatchStoreOk(s, a);
    } else if a.CheckRecord? {
      CheckRecordStoreOk(s, a);
    } else if a.CheckGc? {
      CheckGcStoreOk(s, a);
    } else {
      CheckedPending(s, a);
      assert PendingStoreOk(PendingOf(LocalOf(s, a.i)), s.dirs);
    }
  }

  lemma ActiveDirStands(db: Db, dirs: Dirs, later: Dirs)
    requires StoreOk(db, dirs)
    requires forall g :: Some(g) == db.manifest.activePath ==>
      (g in dirs <==> g in later) && (g in dirs ==> dirs[g] == later[g])
    ensures StoreOk(db, later)
  {
    HealthyIs(db);
    if !db.manifest.emptyLazy {
      assert db.manifest.activePath == Some(db.payloads.indexPath);
    }
  }

  lemma DirsKeepStore(s: Sys, a: Action)
    requires HealthInv(s) && Enabled(s, a) && Careful(s, a) && TouchesDirs(a) && s.db.Some?
    requires IsRemoval(a) ==> !IsActive(s.db.value, a.x)
    ensures StoreOk(s.db.value, Step(s, a).dirs)
  {
    DirsFrame(s, a);
    ActiveDirStands(s.db.value, s.dirs, Step(s, a).dirs);
  }

  lemma StepKeepsStore(s: Sys, a: Action)
    requires HealthInv(s) && Enabled(s, a) && Careful(s, a)
    requires IsRemoval(a) && s.db.Some? ==> !IsActive(s.db.value, a.x)
    ensures Step(s, a).db.Some? ==> StoreOk(Step(s, a).db.value, Step(s, a).dirs)
  {
    DirsFrame(s, a);
    QuietFrame(s, a);
    if Commits(a) {
      CommitFrame(s, a);
      assert PendingStoreOk(PendingOf(LocalOf(s, a.i)), s.dirs);
    } else if TouchesDirs(a) && s.db.Some? {
      DirsKeepStore(s, a);
    }
  }

  lemma StepKeepsHealthInv(s: Sys, a: Action)
    requires Inv(s) && HealthInv(s) && Enabled(s, a) && Careful(s, a)
    requires IsRemoval(a) && s.db.Some? ==> !IsActive(s.db.value, a.x)
    ensures HealthInv(Step(s, a))
  {
    StepKeepsStore(s, a);
    DirsFrame(s, a);
    ActorStoreOk(s, a);
    forall j: nat ensures PendingStoreOk(PendingOf(LocalOf(Step(s, a), j)), Step(s, a).dirs) {
      StepFrame(s, a, j);
      if TouchesDirs(a) {
        NoOtherPending(s, a, j);
      } else {
        assert PendingStoreOk(PendingOf(LocalOf(s, j)), s.dirs);
      }
    }
  }

  lemma {:induction false} RunKeepsHealthInv(r: Run)
    requires Legal(r) && CarefulRun(r)
    ensures HealthInv(r.state)
  {
    if r.Then? {
      RunKeepsHealthInv(r.before);
      RunKeepsInv(r.before);
      CarefulIsDisciplined(r.before);
      if IsRemoval(r.action) {
        GcIsSafe(r.before, r.action);
      }
      StepKeepsHealthInv(r.before.state, r.action);
    }
  }

  // ----- When a store opens -----

  lemma OpensWhen(db: Db, dirs: Dirs, allowed: Option<GenPath>)
    requires StoreOk(db, dirs)
    ensures OpenOk(db, dirs, allowed) <==> (db.manifest.emptyLazy ==> NoArtifacts(dirs, allowed))
  {
    HealthyIs(db);
    HealthyOpens(db, dirs, allowed);
  }

  /** In every state of every careful run the store keeps its invariant. With an active generation
      it opens; without one it opens if and only if there is no generation directory. */
  lemma StoreOpensWhen(r: Run)
    requires Legal(r) && CarefulRun(r) && r.state.db.Some?
    ensures Healthy(r.state.db.value)
    ensures OpenOk(r.state.db.value, r.state.dirs, None) <==>
      (r.state.db.value.manifest.emptyLazy ==> r.state.dirs == map[])
  {
    RunKeepsHealthInv(r);
    OpensWhen(r.state.db.value, r.state.dirs, None);
    assert NoArtifacts(r.state.dirs, None) <==> r.state.dirs == map[] by {
      assert r.state.dirs != map[] ==> exists g :: g in r.state.dirs;
    }
  }

  /** Writing at the active path keeps the store open if and only if it writes what stands there. */
  lemma OverwrittenActive(db: Db, dirs: Dirs, g: GenPath, info: Option<GenInfo>)
    requires StoreOk(db, dirs) && db.manifest.activePath == Some(g)
    ensures OpenOk(db, dirs[g := info], None) <==> g in dirs && dirs[g] == info
  {
    HealthyIs(db);
    HealthyOpens(db, dirs[g := info], None);
  }

  /** An empty store with a directory `g` is stuck: it does not open, takes no patch and no GC
      record, and the only snapshot that can pass is one that publishes `g`. */
  lemma EmptyStoreIsStuck(db: Db, dirs: Dirs, g: GenPath)
    requires Healthy(db) && db.manifest.emptyLazy && g in dirs
    ensures !OpenOk(db, dirs, None)
    ensures forall expected, p :: SnapshotChecks(Some(db), dirs, expected, p) ==>
      dirs.Keys == {g} && !p.emptyLazy && p.indexPath == g
    ensures forall revision, patches :: !PatchChecks(Some(db), dirs, revision, patches)
    ensures forall expected, updates :: !GcChecks(Some(db), dirs, expected, updates)
  {
    OpensWhen(db, dirs, None);
    forall expected, p | SnapshotChecks(Some(db), dirs, expected, p)
      ensures dirs.Keys == {g} && !p.emptyLazy && p.indexPath == g
    {
      OpensWhen(db, dirs, PreparedPath(p));
    }
  }

  // ----- The repository's own naming rule -----

  /** `_next_index_path`: one above the highest generation on disk. */
  predicate IsNext(dirs: Dirs, g: GenPath) {
    && g.Generation? && (forall h :: h in dirs ==> GenId(h) < g.id)
    && (g.id == 1 || exists h :: h in dirs && GenId(h) == g.id - 1)
  }

  predicate IsNewest(dirs: Dirs, g: GenPath) {
    g in dirs && forall h :: h in dirs ==> GenId(h) <= GenId(g)
  }

  /** A save writes the next generation and publishes it, or an empty store. */
  predicate ByTheRule(s: Sys, a: Action) {
    && (a.Prepare? ==> IsNext(s.dirs, a.path))
    && (a.CheckSnapshot? ==> a.p.emptyLazy || IsNewest(s.dirs, a.p.indexPath))
  }

  ghost predicate RunByTheRule(r: Run) {
    r.Then? ==> RunByTheRule(r.before) && ByTheRule(r.before.state, r.action)
  }

  /** No row of the generation table is above the active one, and an empty store has none. */
  ghost predicate RowsBelow(db: Db) {
    forall id :: id in db.generations ==> !db.manifest.emptyLazy && id <= db.manifest.activeId
  }

  ghost predicate PendingRowsBelow(q: Option<Pending>) {
    q.Some? ==> RowsBelow(q.value.next)
  }

  ghost predicate RowsInv(s: Sys) {
    (s.db.Some? ==> RowsBelow(s.db.value)) && forall i: nat :: PendingRowsBelow(PendingOf(LocalOf(s, i)))
  }

  lemma ActiveDirThere(db: Db, dirs: Dirs)
    requires StoreOk(db, dirs) && !db.manifest.emptyLazy
    ensures db.manifest.activePath == Some(db.payloads.indexPath) && db.payloads.indexPath in dirs
    ensures GenId(db.payloads.indexPath) == db.manifest.activeId
  {
    HealthyIs(db);
  }

  lemma ActiveDirPresent(db: Db, dirs: Dirs)
    requires StoreOk(db, dirs) && db.manifest.activePath.Some?
    ensures db.manifest.activePath.value in dirs
  {
    HealthyIs(db);
  }

  lemma NextSparesActive(s: Sys, g: GenPath)
    requires HealthInv(s) && IsNext(s.dirs, g)
    ensures s.db.Some? ==> s.db.value.manifest.activePath != Some(g)
  {
    if s.db.Some? && s.db.value.manifest.activePath.Some? {
      ActiveDirPresent(s.db.value, s.dirs);
    }
  }

  lemma NewestIsFresh(s: Sys, p: Payloads)
    requires HealthInv(s) && RowsInv(s) && (p.emptyLazy || IsNewest(s.dirs, p.indexPath))
    ensures FreshId(s.db, p)
  {
    if s.db.Some? && !s.db.value.manifest.emptyLazy {
      ActiveDirThere(s.db.value, s.dirs);
    }
  }

  /** The rule makes ids fresh and spares the active directory. */
  lemma RuleIsCareful(s: Sys, a: Action)
    requires HealthInv(s) && RowsInv(s) && ByTheRule(s, a) && !Exposes(s, a)
    ensures Careful(s, a)
  {
    if a.Prepare? {
      NextSparesActive(s, a.path);
    } else if a.CheckSnapshot? {
      NewestIsFresh(s, a.p);
    }
  }

  lemma SnapshotRowsBelow(db: Option<Db>, dirs: Dirs, expected: Option<Revision>, p: Payloads, uuid: nat,
                          origin: Origin, next: Db)
    requires db.Some? ==> StoreOk(db.value, dirs) && RowsBelow(db.value)
    requires SnapshotChecks(db, dirs, expected, p) && (p.emptyLazy || IsNewest(dirs, p.indexPath))
    requires IsSnapshot(db, p, CheckpointOf(dirs, p, None).value, uuid, origin, next)
    ensures RowsBelow(next)
  {
    if db.Some? && !db.value.manifest.emptyLazy {
      ActiveDirThere(db.value, dirs);
      NeverEmptyAgain(db.value, dirs, expected, p);
    }
  }

  lemma ActorRowsBelow(s: Sys, a: Action)
    requires HealthInv(s) && RowsInv(s) && Enabled(s, a) && ByTheRule(s, a)
    ensures PendingRowsBelow(PendingOf(LocalOf(Step(s, a), a.i)))
  {
    if a.CheckSnapshot? {
      SnapshotRowsBelow(s.db, s.dirs, a.expected, a.p, a.uuid, a.origin, a.next);
    } else if !a.CheckPatch? && !a.CheckRecord? && !a.CheckGc? {
      CheckedPending(s, a);
      assert PendingRowsBelow(PendingOf(LocalOf(s, a.i)));
    }
  }

  lemma StepKeepsRowsInv(s: Sys, a: Action)
    requires HealthInv(s) && RowsInv(s) && Enabled(s, a) && ByTheRule(s, a)
    ensures RowsInv(Step(s, a))
  {
    QuietFrame(s, a);
    if Commits(a) {
      CommitFrame(s, a);
      assert PendingRowsBelow(PendingOf(LocalOf(s, a.i)));
    }
    ActorRowsBelow(s, a);
    forall j: nat ensures PendingRowsBelow(PendingOf(LocalOf(Step(s, a), j))) {
      StepFrame(s, a, j);
      assert PendingRowsBelow(PendingOf(LocalOf(s, j)));
    }
  }

  /** Publishers that follow the naming rule use fresh ids and spare the active directory, in every
      run in which no step exposes the active generation. */
  lemma {:induction false} NamingRuleIsCareful(r: Run)
    requires Legal(r) && RunByTheRule(r) && Disciplined(r)
    ensures CarefulRun(r) && RowsInv(r.state)
  {
    if r.Then? {
      NamingRuleIsCareful(r.before);
      RunKeepsHealthInv(r.before);
      RuleIsCareful(r.before.state, r.action);
      StepKeepsRowsInv(r.before.state, r.action);
    }
  }
}
