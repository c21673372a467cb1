/** The two views of the GC ledger and of the listing: rows and paths as the protocol sees them,
    strings as a driver does. */
module GcBridge {
  import opened Wrappers
  import opened BundleNames
  import opened AdapterStore
  import StoreProtocol
  import GcSelection

  function PathString(x: GcPath): string {
    match x
    case Bundle(Legacy) => "index.odb"
    case Bundle(Generation(id)) => GcSelection.PathOf(id)
    case Debris(name) => "vectors/" + name
  }

  function ActiveString(active: Option<GenPath>): Option<string> {
    if active.Some? then Some(PathString(Bundle(active.value))) else None
  }

  /** A generation's id has 12 digits, and debris does not have a generation's name. */
  predicate WellNamed(x: GcPath) {
    match x
    case Bundle(Legacy) => true
    case Bundle(Generation(id)) => GcSelection.ValidId(id)
    case Debris(name) => ParseGenerationDir(name).None?
  }

  ghost predicate LedgerNamed(db: Db) {
    StoreProtocol.LedgerOk(db) && forall k :: k in db.gcQueue ==> WellNamed(db.gcQueue[k].path)
  }

  lemma FirstLetter(x: GcPath)
    ensures |PathString(x)| > 0 && PathString(x)[0] == if x == Bundle(Legacy) then 'i' else 'v'
  {
  }

  lemma PathStringInjective(x: GcPath, y: GcPath)
    requires WellNamed(x) && WellNamed(y) && PathString(x) == PathString(y)
    ensures x == y
  {
    FirstLetter(x);
    FirstLetter(y);
    match (x, y)
    case (Bundle(Generation(m)), Bundle(Generation(n))) =>
      GcSelection.SamePath(GenerationName(m), GenerationName(n));
      GenerationNameParses(m);
      GenerationNameParses(n);
    case (Bundle(Generation(m)), Debris(name)) =>
      GcSelection.SamePath(GenerationName(m), name);
      GenerationNameParses(m);
      assert false;
    case (Debris(name), Bundle(Generation(m))) =>
      GcSelection.SamePath(GenerationName(m), name);
      GenerationNameParses(m);
      assert false;
    case (Debris(a), Debris(b)) => GcSelection.SamePath(a, b);
    case _ =>
  }

  /** `generation_gc_events`: the first `n` rows in the order of their numbers. */
  ghost function EventsOf(db: Db, n: nat): (events: seq<GcSelection.Event>)
    requires StoreProtocol.LedgerOk(db) && n <= db.manifest.counts.gcQueue
    ensures |events| == n
  {
    if n == 0 then []
    else EventsOf(db, n - 1) + [GcSelection.Event(PathString(db.gcQueue[n].path), db.gcQueue[n].state)]
  }

  ghost function AllEvents(db: Db): seq<GcSelection.Event>
    requires StoreProtocol.LedgerOk(db)
  {
    EventsOf(db, db.manifest.counts.gcQueue)
  }

  ghost predicate LatestUpTo(db: Db, n: nat, x: GcPath, state: GcState) {
    exists k: nat :: StoreProtocol.IsRow(db, k, x) && k <= n && db.gcQueue[k].state == state
      && forall j: nat :: StoreProtocol.IsRow(db, j, x) && j <= n ==> j <= k
  }

  lemma LatestUpToNext(db: Db, n: nat, x: GcPath, state: GcState)
    requires StoreProtocol.LedgerOk(db) && 0 < n <= db.manifest.counts.gcQueue
    ensures LatestUpTo(db, n, x, state) <==>
      if db.gcQueue[n].path == x then db.gcQueue[n].state == state else LatestUpTo(db, n - 1, x, state)
  {
    if db.gcQueue[n].path == x {
      assert StoreProtocol.IsRow(db, n, x);
    }
  }

  lemma {:induction false} StateUpTo(db: Db, n: nat, x: GcPath, state: GcState)
    requires LedgerNamed(db) && WellNamed(x) && n <= db.manifest.counts.gcQueue
    ensures LatestUpTo(db, n, x, state) <==> GcSelection.StateOf(EventsOf(db, n), n, PathString(x)) == Some(state)
  {
    if n > 0 {
      StateUpTo(db, n - 1, x, state);
      LatestUpToNext(db, n, x, state);
      var last := GcSelection.Event(PathString(db.gcQueue[n].path), db.gcQueue[n].state);
      GcSelection.StatePrefix(EventsOf(db, n - 1), [last], n - 1, PathString(x));
      if last.path == PathString(x) {
        PathStringInjective(db.gcQueue[n].path, x);
      }
    }
  }

  /** The state of the highest row of a path is the state the driver finds for its string. */
  lemma LatestAgrees(db: Db, x: GcPath, state: GcState)
    requires LedgerNamed(db) && WellNamed(x)
    ensures StoreProtocol.LatestIs(db, x, state) <==>
      GcSelection.StateOf(AllEvents(db), |AllEvents(db)|, PathString(x)) == Some(state)
  {
    var n := db.manifest.counts.gcQueue;
    StateUpTo(db, n, x, state);
    assert forall k: nat :: StoreProtocol.IsRow(db, k, x) ==> k <= n;
  }

  /** The protocol lets a recovering driver remove exactly the paths that its recovery pass takes
      for interrupted. */
  lemma RecoveryAgrees(s: StoreProtocol.Sys, i: nat, x: GcPath, done: bool)
    requires StoreProtocol.LocalOf(s, i).Gc? && StoreProtocol.LocalOf(s, i).pending.None?
    requires StoreProtocol.LocalOf(s, i).job.stage == StoreProtocol.Recovering
    requires s.db.Some? && LedgerNamed(s.db.value) && WellNamed(x)
    requires var active := StoreProtocol.LocalOf(s, i).job.active; active.Some? ==> WellNamed(Bundle(active.value))
    ensures StoreProtocol.Enabled(s, StoreProtocol.RecoverDelete(i, x, done)) <==>
      GcSelection.Interrupted(AllEvents(s.db.value), ActiveString(StoreProtocol.LocalOf(s, i).job.active),
                              PathString(x))
  {
    LatestAgrees(s.db.value, x, Deleting);
    var active := StoreProtocol.LocalOf(s, i).job.active;
    if active.Some? && PathString(x) == PathString(Bundle(active.value)) {
      PathStringInjective(x, Bundle(active.value));
    }
  }

  function EventOf(u: GcUpdate): GcSelection.Event {
    GcSelection.Event(PathString(u.path), u.state)
  }

  function LogOf(updates: seq<GcUpdate>, n: nat): seq<GcSelection.Event>
    requires n <= |updates|
  {
    seq(n, i requires 0 <= i < n => EventOf(updates[i]))
  }

  lemma {:induction false} EventsAfterRecord(db: Db, updates: seq<GcUpdate>, next: Db, n: nat)
    requires StoreProtocol.LedgerOk(db) && StoreProtocol.LedgerOk(next) && IsGcRecorded(db, updates, next)
    requires n <= next.manifest.counts.gcQueue
    ensures var base := db.manifest.counts.gcQueue;
            EventsOf(next, n) == if n <= base then EventsOf(db, n)
                                 else AllEvents(db) + LogOf(updates, n - base)
  {
    if n > 0 {
      EventsAfterRecord(db, updates, next, n - 1);
      StoreProtocol.GcRowAt(db, updates, next, n);
    }
  }

  /** One record of the protocol appends its updates to the events, as a driver's commit does. */
  lemma RecordAppends(db: Db, updates: seq<GcUpdate>, next: Db)
    requires StoreProtocol.LedgerOk(db) && IsGcRecorded(db, updates, next)
    ensures StoreProtocol.LedgerOk(next)
    ensures AllEvents(next) == AllEvents(db) + LogOf(updates, |updates|)
  {
    StoreProtocol.GcLedgerOk(db, updates, next);
    EventsAfterRecord(db, updates, next, next.manifest.counts.gcQueue);
  }

  // ----- The listing -----

  ghost predicate DiskNamed(s: StoreProtocol.Sys) {
    && (forall g :: g in s.dirs ==> WellNamed(Bundle(g)))
    && forall name :: name in s.debris ==> WellNamed(Debris(name))
  }

  /** The names under `vectors/`. */
  function NamesOf(s: StoreProtocol.Sys): set<string> {
    (set g | g in s.dirs && g.Generation? :: GenerationName(g.id)) + s.debris
  }

  lemma BundleListed(s: StoreProtocol.Sys, g: GenPath, active: Option<string>)
    requires DiskNamed(s) && WellNamed(Bundle(g)) && g.Generation?
    ensures GcSelection.Retains(NamesOf(s), active, PathString(Bundle(g))) <==>
      g in s.dirs && Some(PathString(Bundle(g))) != active
    ensures !GcSelection.Partial(NamesOf(s), PathString(Bundle(g)))
  {
    GenerationNameParses(g.id);
    if g in s.dirs {
      assert GenerationName(g.id) in NamesOf(s);
    }
    forall name | name in NamesOf(s) && PathString(Bundle(g)) == "vectors/" + name
      ensures ParseGenerationDir(name).Some? && g in s.dirs
    {
      GcSelection.SamePath(GenerationName(g.id), name);
      var h :| h in s.dirs && h.Generation? && GenerationName(h.id) == name;
      GenerationNameParses(h.id);
    }
  }

  lemma DebrisListed(s: StoreProtocol.Sys, name: string, active: Option<string>)
    requires DiskNamed(s) && WellNamed(Debris(name))
    ensures GcSelection.Partial(NamesOf(s), PathString(Debris(name))) <==> name in s.debris
    ensures !GcSelection.Retains(NamesOf(s), active, PathString(Debris(name)))
  {
    forall other | other in NamesOf(s) && "vectors/" + name == "vectors/" + other
      ensures ParseGenerationDir(other).None? && name in s.debris
    {
      GcSelection.SamePath(name, other);
      if name !in s.debris {
        var h :| h in s.dirs && h.Generation? && GenerationName(h.id) == name;
        GenerationNameParses(h.id);
        assert false;
      }
    }
  }

  /** What the protocol lets a driver select is what the directory summary lists. */
  lemma ListingAgrees(s: StoreProtocol.Sys, active: Option<GenPath>, x: GcPath)
    requires DiskNamed(s) && WellNamed(x) && x != Bundle(Legacy) && (active.Some? ==> WellNamed(Bundle(active.value)))
    ensures StoreProtocol.Listed(s, active, x) <==>
      (|| GcSelection.Retains(NamesOf(s), ActiveString(active), PathString(x))
       || GcSelection.Partial(NamesOf(s), PathString(x)))
  {
    match x
    case Bundle(g) =>
      BundleListed(s, g, ActiveString(active));
      if active.Some? && PathString(x) == PathString(Bundle(active.value)) {
        PathStringInjective(x, Bundle(active.value));
      }
    case Debris(name) => DebrisListed(s, name, ActiveString(active));
  }
}
