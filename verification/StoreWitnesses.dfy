/** Two runs of publishers that follow the repository's own naming rule and end in a store that
    does not open. */
module StoreWitnesses {
  import opened Wrappers
  import opened AdapterStore
  import opened StoreProtocol
  import opened GcSafety
  import opened GcExposure
  import opened StoreHealth

  ghost predicate Good(r: Run) {
    Legal(r) && CarefulRun(r) && PrudentRun(r) && RunByTheRule(r)
  }

  const EMPTY_SYS := Sys(None, map[], {}, None, map[], [])

  lemma Goes(r: Run, a: Action) returns (q: Run)
    requires Good(r) && Enabled(r.state, a) && Careful(r.state, a) && !Marks(r.state, a) && ByTheRule(r.state, a)
    ensures q == After(r, a) && Good(q) && Extends(q, r)
  {
    q := After(r, a);
    assert Extends(r, r);
  }

  lemma {:induction false} ExtendsTrans(r: Run, q: Run, p: Run)
    requires Extends(r, q) && Extends(q, p)
    ensures Extends(r, p)
    decreases r
  {
    if r != q {
      ExtendsTrans(r.before, q, p);
    }
  }

  /** A publisher takes the lock and writes the next generation. */
  lemma Prepares(r: Run, i: nat, id: nat) returns (q: Run)
    requires Good(r) && r.state.lock == None && LocalOf(r.state, i) == Idle && IsNext(r.state.dirs, Generation(id))
    ensures Good(q) && Extends(q, r) && q.state.db == r.state.db
    ensures q.state.dirs == r.state.dirs[Generation(id) := Some(INFO)]
    ensures LocalOf(q.state, i) == Writer(None) && q.state.lock == Some(i)
    ensures forall j: nat :: j != i ==> LocalOf(q.state, j) == LocalOf(r.state, j)
  {
    var locked := Goes(r, Acquire(i));
    RunKeepsHealthInv(locked);
    NextSparesActive(locked.state, Generation(id));
    q := Goes(locked, Prepare(i, Generation(id), Some(INFO)));
    ExtendsTrans(q, locked, r);
  }

  lemma Dies(r: Run, i: nat) returns (q: Run)
    requires Good(r) && (r.state.lock == Some(i) || r.state.lock == None)
    ensures Good(q) && Extends(q, r) && q.state.db == r.state.db && q.state.dirs == r.state.dirs && q.state.lock == None
    ensures LocalOf(q.state, i) == Idle && forall j: nat :: j != i ==> LocalOf(q.state, j) == LocalOf(r.state, j)
  {
    q := Goes(r, Crash(i));
  }

  lemma Publishes(r: Run, i: nat, expected: Option<Revision>, p: Payloads, next: Db) returns (q: Run)
    requires Good(r) && Enabled(r.state, CheckSnapshot(i, expected, p, 0, Created, next))
    requires Careful(r.state, CheckSnapshot(i, expected, p, 0, Created, next)) && !TakesMarkedPath(r.state.db, p)
    requires ByTheRule(r.state, CheckSnapshot(i, expected, p, 0, Created, next)) && r.state.lock == Some(i)
    ensures Good(q) && Extends(q, r) && q.state.db == Some(next) && q.state.dirs == r.state.dirs && q.state.lock == None
    ensures LocalOf(q.state, i) == Idle && forall j: nat :: j != i ==> LocalOf(q.state, j) == LocalOf(r.state, j)
  {
    var checked := Goes(r, CheckSnapshot(i, expected, p, 0, Created, next));
    CheckSnapshotFrame(r.state, checked.action);
    q := CommitsAndDies(checked, i, Pending(expected, next));
    ExtendsTrans(q, checked, r);
  }

  lemma CommitsAndDies(r: Run, i: nat, pending: Pending) returns (q: Run)
    requires Good(r) && LocalOf(r.state, i) == Writer(Some(pending)) && r.state.lock == Some(i)
    ensures Good(q) && Extends(q, r) && q.state.db == Some(pending.next) && q.state.dirs == r.state.dirs
    ensures q.state.lock == None
    ensures LocalOf(q.state, i) == Idle && forall j: nat :: j != i ==> LocalOf(q.state, j) == LocalOf(r.state, j)
  {
    var committed := Goes(r, CommitWrite(i));
    q := Dies(committed, i);
    ExtendsTrans(q, committed, r);
  }

  // ----- A crash before the first commit of a generation -----

  const NOTHING := Payloads("adapter", 1, None, true, Legacy, map[], map[], map[], map[], 0)

  const NO_GENERATION := Checkpoint(0, None, true, 1, 0, 0, None, None)

  const EMPTY_STORE := Db(SnapshotManifest(None, NOTHING, NO_GENERATION, 0, Created), NOTHING,
                          map[], map[], map[], map[], map[], map[], map[], map[1 := SnapshotWritten(0)])

  lemma EmptyStoreIsSnapshot()
    ensures SnapshotChecks(None, map[], None, NOTHING) && CheckpointOf(map[], NOTHING, None) == Ok(NO_GENERATION)
    ensures IsSnapshot(None, NOTHING, NO_GENERATION, 0, Created, EMPTY_STORE)
  {
    assert IdsOf(NOTHING) == {};
  }

  lemma EmptyStoreCreated() returns (r: Run)
    ensures Good(r) && r.state.db == Some(EMPTY_STORE) && r.state.dirs == map[] && r.state.lock == None
    ensures LocalOf(r.state, 0) == Idle
  {
    r := Goes(Start(EMPTY_SYS), Acquire(0));
    EmptyStoreIsSnapshot();
    r := Publishes(r, 0, None, NOTHING, EMPTY_STORE);
  }

  /** An empty store is saved, the next save writes its generation and dies before the commit:
      the store keeps its invariant but does not open, and no snapshot of another path can pass. */
  lemma CrashBeforeFirstGeneration() returns (r: Run)
    ensures Legal(r) && CarefulRun(r) && RunByTheRule(r) && r.state.lock == None && r.state.db.Some?
    ensures Healthy(r.state.db.value) && !OpenOk(r.state.db.value, r.state.dirs, None)
    ensures forall expected, p :: SnapshotChecks(r.state.db, r.state.dirs, expected, p) ==> p.indexPath == Generation(1)
  {
    r := EmptyStoreCreated();
    r := Prepares(r, 0, 1);
    r := Dies(r, 0);
    StoreOpensWhen(r);
    EmptyStoreIsStuck(EMPTY_STORE, r.state.dirs, Generation(1));
  }

  // ----- A reclaimed orphan whose path is taken again -----

  lemma FirstIsSnapshot(dirs: Dirs)
    requires dirs == map[Generation(1) := Some(INFO)]
    ensures SnapshotChecks(None, dirs, None, NoRecords(1))
    ensures CheckpointOf(dirs, NoRecords(1), None) == Ok(CheckpointFor(1))
    ensures IsSnapshot(None, NoRecords(1), CheckpointFor(1), 0, Created, Published(None, 1))
  {
    PublishedIsSnapshot(None, 1, dirs);
  }

  lemma FirstPublished() returns (q: Run)
    ensures Good(q) && q.state.db == Some(Published(None, 1)) && q.state.lock == None && LocalOf(q.state, 0) == Idle
    ensures q.state.dirs == map[Generation(1) := Some(INFO)] && LocalOf(q.state, 1) == Idle
  {
    var prepared := Prepares(Start(EMPTY_SYS), 0, 1);
    FirstIsSnapshot(prepared.state.dirs);
    q := Publishes(prepared, 0, None, NoRecords(1), Published(None, 1));
  }

  lemma NextPrepared(q: Run) returns (p: Run)
    requires Good(q) && q.state.lock == None && LocalOf(q.state, 0) == Idle
    requires q.state.dirs == map[Generation(1) := Some(INFO)]
    ensures Good(p) && Extends(p, q) && p.state.db == q.state.db && LocalOf(p.state, 0) == Writer(None)
    ensures p.state.lock == Some(0)
    ensures p.state.dirs == map[Generation(1) := Some(INFO), Generation(2) := Some(INFO)]
    ensures forall j: nat :: j != 0 ==> LocalOf(p.state, j) == LocalOf(q.state, j)
  {
    assert IsNext(q.state.dirs, Generation(2)) by {
      assert Generation(1) in q.state.dirs;
    }
    p := Prepares(q, 0, 2);
  }

  /** Generation 1 is active, generation 2 was written by a publisher that died. */
  lemma OrphanLeft() returns (r: Run)
    ensures Good(r) && r.state.db == Some(Published(None, 1)) && r.state.lock == None
    ensures r.state.dirs == map[Generation(1) := Some(INFO), Generation(2) := Some(INFO)]
    ensures LocalOf(r.state, 0) == Idle && LocalOf(r.state, 1) == Idle
  {
    var q := FirstPublished();
    r := NextPrepared(q);
    r := Dies(r, 0);
  }

  function GcDb(db: Db, updates: seq<GcUpdate>): Db {
    db.(manifest := CommitManifest(db.manifest, |updates|),
        gcQueue := GcRows(db.gcQueue, db.manifest.counts.gcQueue, updates, |updates|),
        audit := db.audit[db.manifest.sequence + 1 := GcRecorded(|updates|)])
  }

  function Event(g: GenPath, state: GcState): seq<GcUpdate> {
    [GcUpdate(Bundle(g), state, "adapter_gc")]
  }

  predicate HasRoom(db: Db, n: nat) {
    && db.manifest.sequence + n < U64_END && db.manifest.counts.audit + n < U64_END
    && db.manifest.counts.gcQueue + n < U64_END
  }

  ghost predicate Selected(s: Sys, j: nat, g: GenPath, stage: Stage) {
    && LocalOf(s, j).Gc? && LocalOf(s, j).pending.None? && LocalOf(s, j).job.reclaim == {Bundle(g)}
    && LocalOf(s, j).job.stage == stage && s.lock == Some(j)
    && s.db.Some? && !s.db.value.manifest.emptyLazy && LocalOf(s, j).job.known == RevisionOf(s.db.value.manifest)
  }

  lemma Plans(r: Run, j: nat, g: GenPath) returns (q: Run)
    requires Good(r) && LocalOf(r.state, j) == Idle
    requires r.state.db.Some? && !r.state.db.value.manifest.emptyLazy && g.Generation? && g in r.state.dirs
    requires r.state.db.value.manifest.activePath != Some(g)
    ensures Good(q) && q.state == r.state.(locals := q.state.locals)
    ensures LocalOf(q.state, j) == GcPlanned(RevisionOf(r.state.db.value.manifest), {Bundle(g)})
    ensures forall i: nat :: j != i ==> LocalOf(q.state, i) == LocalOf(r.state, i)
  {
    StoreOpensWhen(r);
    var read := Goes(r, ReadStore(j));
    q := Goes(read, Plan(j, {Bundle(g)}));
  }

  /** A driver has read the store, selected `g` and taken the lock. */
  lemma Selects(r: Run, j: nat, g: GenPath) returns (q: Run)
    requires Good(r) && r.state.lock == None && LocalOf(r.state, j) == Idle
    requires r.state.db.Some? && !r.state.db.value.manifest.emptyLazy && g.Generation? && g in r.state.dirs
    requires r.state.db.value.manifest.activePath != Some(g)
    ensures Good(q) && q.state.db == r.state.db && q.state.dirs == r.state.dirs && Selected(q.state, j, g, Ready)
    ensures forall i: nat :: j != i ==> LocalOf(q.state, i) == LocalOf(r.state, i)
  {
    var planned := Plans(r, j, g);
    var locked := Goes(planned, AcquireGc(j));
    q := Goes(locked, SkipRecovery(j));
  }

  lemma EventChecks(db: Db, dirs: Dirs, g: GenPath, state: GcState)
    requires g.Generation? && OpenOk(db, dirs, None) && HasRoom(db, 1)
    ensures GcChecks(Some(db), dirs, Some(RevisionOf(db.manifest)), Event(g, state))
    ensures IsGcRecorded(db, Event(g, state), GcDb(db, Event(g, state)))
  {
    assert !IsBlank(Event(g, state)[0].reason[0]);
  }

  lemma EventRecords(job: Job, g: GenPath, state: GcState)
    requires job.reclaim == {Bundle(g)}
    requires ((job.stage == Ready && state == Reclaimable) || (job.stage == Queued && state == Deleting))
    ensures StageRecords(job, Event(g, state))
  {
    assert Event(g, state)[0].path == Bundle(g);
  }

  /** It records one event for `g`. */
  lemma RecordsEvent(r: Run, j: nat, g: GenPath, stage: Stage, state: GcState) returns (q: Run)
    requires Good(r) && Selected(r.state, j, g, stage) && g.Generation? && HasRoom(r.state.db.value, 1)
    requires (stage == Ready && state == Reclaimable) || (stage == Queued && state == Deleting)
    ensures Good(q) && q.state.db == Some(GcDb(r.state.db.value, Event(g, state))) && q.state.dirs == r.state.dirs
    ensures Selected(q.state, j, g, if stage == Ready then Queued else Marked)
    ensures forall i: nat :: j != i ==> LocalOf(q.state, i) == LocalOf(r.state, i)
  {
    StoreOpensWhen(r);
    EventChecks(r.state.db.value, r.state.dirs, g, state);
    EventRecords(LocalOf(r.state, j).job, g, state);
    q := Goes(r, CheckGc(j, Event(g, state), GcDb(r.state.db.value, Event(g, state))));
    q := Goes(q, CommitGc(j));
  }

  ghost function MarkedDb(db: Db, g: GenPath): Db {
    GcDb(GcDb(db, Event(g, Reclaimable)), Event(g, Deleting))
  }

  /** A driver marks `g`, removes it, and dies before it logs the deletion. */
  lemma RemovesAndDies(r: Run, j: nat, g: GenPath) returns (q: Run)
    requires Good(r) && r.state.lock == None && LocalOf(r.state, j) == Idle
    requires r.state.db.Some? && !r.state.db.value.manifest.emptyLazy && HasRoom(r.state.db.value, 2)
    requires g.Generation? && g in r.state.dirs && r.state.db.value.manifest.activePath != Some(g)
    ensures Good(q) && q.state.lock == None && q.state.db == Some(MarkedDb(r.state.db.value, g))
    ensures q.state.dirs == r.state.dirs - {g} && LatestIs(q.state.db.value, Bundle(g), Deleting)
    ensures forall i: nat :: j != i ==> LocalOf(q.state, i) == LocalOf(r.state, i)
  {
    q := Selects(r, j, g);
    q := RecordsEvent(q, j, g, Ready, Reclaimable);
    q := RecordsEvent(q, j, g, Queued, Deleting);
    RemovalIsMarked(q, Delete(j, Bundle(g), true));
    q := Goes(q, Delete(j, Bundle(g), true));
    q := Dies(q, j);
  }

  lemma SecondChecks(r: Run)
    requires Good(r) && r.state.db == Some(MarkedDb(Published(None, 1), Generation(2)))
    requires r.state.dirs == map[Generation(1) := Some(INFO), Generation(2) := Some(INFO)]
    ensures SnapshotChecks(r.state.db, r.state.dirs, Some(RevisionOf(r.state.db.value.manifest)), NoRecords(2))
    ensures CheckpointOf(r.state.dirs, NoRecords(2), None) == Ok(CheckpointFor(2))
    ensures IsSnapshot(r.state.db, NoRecords(2), CheckpointFor(2), 0, Created, Published(r.state.db, 2))
  {
    PublishedIsSnapshot(r.state.db, 2, r.state.dirs);
    RunKeepsHealthInv(r);
    OpensWhen(r.state.db.value, r.state.dirs, Some(Generation(2)));
  }

  lemma FirstHasRoom(db: Db)
    requires db == Published(None, 1)
    ensures HasRoom(db, 2) && !db.manifest.emptyLazy && db.manifest.activePath == Some(Generation(1))
  {
  }

  lemma OrphanRemovedFrom(r: Run, db: Db) returns (p: Run)
    requires Good(r) && r.state.db == Some(db) && r.state.lock == None && LocalOf(r.state, 0) == Idle
    requires LocalOf(r.state, 1) == Idle
    requires r.state.dirs == map[Generation(1) := Some(INFO), Generation(2) := Some(INFO)]
    requires HasRoom(db, 2) && !db.manifest.emptyLazy && db.manifest.activePath == Some(Generation(1))
    ensures Good(p) && p.state.lock == None && LocalOf(p.state, 0) == Idle
    ensures p.state.db == Some(MarkedDb(db, Generation(2))) && p.state.dirs == map[Generation(1) := Some(INFO)]
    ensures LatestIs(p.state.db.value, Bundle(Generation(2)), Deleting)
  {
    p := RemovesAndDies(r, 1, Generation(2));
  }

  lemma OrphanRemoved() returns (p: Run)
    ensures Good(p) && p.state.lock == None && LocalOf(p.state, 0) == Idle
    ensures p.state.db == Some(MarkedDb(Published(None, 1), Generation(2)))
    ensures p.state.dirs == map[Generation(1) := Some(INFO)]
    ensures LatestIs(p.state.db.value, Bundle(Generation(2)), Deleting)
  {
    var r := OrphanLeft();
    FirstHasRoom(r.state.db.value);
    p := OrphanRemovedFrom(r, r.state.db.value);
  }

  /** The next publisher is about to take the orphan's path again. */
  lemma PathReused() returns (p: Run)
    ensures Good(p) && p.state.db == Some(MarkedDb(Published(None, 1), Generation(2)))
    ensures p.state.dirs == map[Generation(1) := Some(INFO), Generation(2) := Some(INFO)]
    ensures LocalOf(p.state, 0) == Writer(None)
    ensures LatestIs(p.state.db.value, Bundle(Generation(2)), Deleting)
  {
    var r := OrphanRemoved();
    p := NextPrepared(r);
  }

  function Second(db: Db): Action {
    CheckSnapshot(0, Some(RevisionOf(db.manifest)), NoRecords(2), 0, Created, Published(Some(db), 2))
  }

  lemma SnapshotEnabled(s: Sys, a: Action)
    requires a.CheckSnapshot? && LocalOf(s, a.i) == Writer(None) && SnapshotChecks(s.db, s.dirs, a.expected, a.p)
    requires IsSnapshot(s.db, a.p, CheckpointOf(s.dirs, a.p, None).value, a.uuid, a.origin, a.next)
    ensures Enabled(s, a)
  {
  }

  lemma SecondEnabled(s: Sys, db: Db)
    requires s.db == Some(db) && LocalOf(s, 0) == Writer(None)
    requires SnapshotChecks(s.db, s.dirs, Some(RevisionOf(db.manifest)), NoRecords(2))
    requires CheckpointOf(s.dirs, NoRecords(2), None) == Ok(CheckpointFor(2))
    requires IsSnapshot(s.db, NoRecords(2), CheckpointFor(2), 0, Created, Published(s.db, 2))
    ensures Enabled(s, Second(db))
  {
    SnapshotEnabled(s, Second(db));
  }

  lemma SecondByTheRule(s: Sys, db: Db)
    requires s.dirs == map[Generation(1) := Some(INFO), Generation(2) := Some(INFO)]
    ensures ByTheRule(s, Second(db))
  {
  }

  lemma SecondIsFresh(db: Db)
    requires db == MarkedDb(Published(None, 1), Generation(2))
    ensures FreshId(Some(db), NoRecords(2)) && db.manifest.activePath == Some(Generation(1))
  {
    assert db.generations == Published(None, 1).generations;
  }

  /** An orphan is marked and removed, but the driver dies before it logs the deletion. The next
      save takes the orphan's number, as the naming rule tells it, with a fresh id and every check
      passed; a driver that read the store before the commit then removes the active generation. */
  lemma ActiveGenerationRemoved() returns (p: Run, a: Action, r: Run)
    ensures Legal(p) && CarefulRun(p) && PrudentRun(p) && RunByTheRule(p)
    ensures a.CheckSnapshot? && Enabled(p.state, a) && ByTheRule(p.state, a) && FreshId(p.state.db, a.p)
    ensures Legal(r) && DisciplinedSince(r, After(p, a)) && RemovesActive(r)
    ensures r.state.db == Some(a.next) && forall allowed :: !OpenOk(a.next, r.state.dirs, allowed)
  {
    p := PathReused();
    a := Second(p.state.db.value);
    SecondChecks(p);
    SecondEnabled(p.state, p.state.db.value);
    SecondByTheRule(p.state, p.state.db.value);
    SecondIsFresh(p.state.db.value);
    r := TakenPathIsRemoved(p, a);
  }

  // ----- A direct record -----

  lemma NextIsSnapshot(r: Run)
    requires Good(r) && r.state.db == Some(Published(None, 1))
    requires r.state.dirs == map[Generation(1) := Some(INFO), Generation(2) := Some(INFO)]
    ensures SnapshotChecks(r.state.db, r.state.dirs, Some(RevisionOf(r.state.db.value.manifest)), NoRecords(2))
    ensures CheckpointOf(r.state.dirs, NoRecords(2), None) == Ok(CheckpointFor(2))
    ensures IsSnapshot(r.state.db, NoRecords(2), CheckpointFor(2), 0, Created, Published(r.state.db, 2))
  {
    PublishedIsSnapshot(r.state.db, 2, r.state.dirs);
    RunKeepsHealthInv(r);
    OpensWhen(r.state.db.value, r.state.dirs, Some(Generation(2)));
  }

  lemma NextIsCareful(s: Sys, db: Db)
    requires s.db == Some(db) && db == Published(None, 1)
    ensures Careful(s, Second(db)) && !TakesMarkedPath(s.db, NoRecords(2))
  {
    NoMarksYet(db, NoRecords(2));
  }

  lemma NextPublished(r: Run, db: Db) returns (p: Run)
    requires Good(r) && r.state.db == Some(db) && LocalOf(r.state, 0) == Writer(None) && r.state.lock == Some(0)
    requires Enabled(r.state, Second(db)) && ByTheRule(r.state, Second(db))
    requires Careful(r.state, Second(db)) && !TakesMarkedPath(r.state.db, NoRecords(2))
    ensures Good(p) && Extends(p, r) && p.state.db == Some(Published(Some(db), 2)) && p.state.lock == None
    ensures LocalOf(p.state, 0) == Idle
  {
    p := Publishes(r, 0, Some(RevisionOf(db.manifest)), NoRecords(2), Published(Some(db), 2));
  }

  /** Generation 1 is active at the first stage, generation 2 at the second, and nothing was ever
      recorded. */
  lemma TwoPublished() returns (q: Run, p: Run)
    ensures Good(q) && q.state.db == Some(Published(None, 1))
    ensures Good(p) && p.state.db == Some(Published(Some(Published(None, 1)), 2)) && Extends(p, q)
    ensures p.state.lock == None && LocalOf(p.state, 0) == Idle
  {
    q := FirstPublished();
    var second := NextPrepared(q);
    NextIsSnapshot(second);
    SecondEnabled(second.state, Published(None, 1));
    SecondByTheRule(second.state, Published(None, 1));
    NextIsCareful(second.state, Published(None, 1));
    p := NextPublished(second, Published(None, 1));
    ExtendsTrans(p, second, q);
  }

  lemma NoMarksYet(db: Db, p: Payloads)
    requires db.gcQueue == map[]
    ensures !TakesMarkedPath(Some(db), p)
  {
  }

  lemma SecondHasRoom(db: Db)
    requires db == Published(Some(Published(None, 1)), 2)
    ensures HasRoom(db, 1) && !db.manifest.emptyLazy && db.manifest.activePath == Some(Generation(2))
  {
  }

  lemma RecordEnabled(p: Run, g: GenPath, a: Action)
    requires Good(p) && LocalOf(p.state, 0) == Writer(None) && p.state.db.Some? && !p.state.db.value.manifest.emptyLazy
    requires HasRoom(p.state.db.value, 1) && p.state.db.value.manifest.activePath == Some(g) && g.Generation?
    requires var db := p.state.db.value;
             a == CheckRecord(0, Some(RevisionOf(db.manifest)), Event(g, Deleting), GcDb(db, Event(g, Deleting)))
    ensures Enabled(p.state, a) && Marks(p.state, a) && MarkedPath(p.state, a) == g
  {
    StoreOpensWhen(p);
    EventChecks(p.state.db.value, p.state.dirs, g, Deleting);
    assert Event(g, Deleting)[0].path == Bundle(g);
  }

  lemma ReadFirst(q: Run)
    requires Good(q) && q.state.db == Some(Published(None, 1))
    ensures ReadsOther(q.state, Generation(2))
  {
    StoreOpensWhen(q);
  }

  /** Two saves by the naming rule, then somebody records `deleting` for the generation that has
      become active: every check passes, and a driver that read the store between the two saves
      removes the active generation. */
  lemma RecordedGenerationRemoved() returns (p: Run, a: Action)
    ensures Legal(p) && CarefulRun(p) && PrudentRun(p) && RunByTheRule(p)
    ensures a.CheckRecord? && Enabled(p.state, a) && Marks(p.state, a) && MayBeLost(p, a)
  {
    var q, published := TwoPublished();
    SecondHasRoom(published.state.db.value);
    p := Goes(published, Acquire(0));
    ExtendsTrans(p, published, q);
    var db := p.state.db.value;
    var event := Event(Generation(2), Deleting);
    a := CheckRecord(0, Some(RevisionOf(db.manifest)), event, GcDb(db, event));
    RecordEnabled(p, Generation(2), a);
    ReadFirst(q);
    ReaderLoses(p, a, q);
  }
}
