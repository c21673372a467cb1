/** Which generations a GC run keeps, and how an interrupted run is recovered. */
module GcSelection {
  import opened Wrappers
  import opened BundleNames
  import AdapterStore

  // ----- Selection -----

  function PathOf(id: nat): string {
    "vectors/" + GenerationName(id)
  }

  predicate ValidId(id: nat) {
    0 < id < Pow10(ID_WIDTH)
  }

  /** Sorted paths of committed generations, as the directory summary lists them. */
  ghost predicate SortedPaths(ids: seq<nat>, paths: seq<string>) {
    && |ids| == |paths| && (forall i :: 0 <= i < |ids| ==> ValidId(ids[i]) && paths[i] == PathOf(ids[i]))
    && forall i, j :: 0 <= i < j < |paths| ==> StrLess(paths[i], paths[j])
  }

  lemma PathOrder(m: nat, n: nat)
    requires ValidId(m) && ValidId(n)
    ensures StrLess(PathOf(m), PathOf(n)) <==> m < n
  {
    StrLessShared("vectors/", GenerationName(m), GenerationName(n));
    GenerationNameOrder(m, n);
  }

  lemma SortedPathsAreSortedIds(ids: seq<nat>, paths: seq<string>)
    requires SortedPaths(ids, paths)
    ensures forall i, j :: 0 <= i < j < |ids| ==> ids[i] < ids[j]
  {
    forall i, j | 0 <= i < j < |ids| ensures ids[i] < ids[j] {
      PathOrder(ids[i], ids[j]);
    }
  }

  /** Unpinned paths from index `i` on. */
  function Unpinned(paths: seq<string>, pins: set<string>, i: nat): nat
    requires i <= |paths|
    decreases |paths| - i
  {
    if i == |paths| then 0 else Unpinned(paths, pins, i + 1) + if paths[i] in pins then 0 else 1
  }

  /** Kept without using budget when pinned, otherwise while fewer than `retain` unpinned ones follow. */
  predicate Kept(paths: seq<string>, pins: set<string>, retain: nat, i: nat)
    requires i < |paths|
  {
    paths[i] in pins || Unpinned(paths, pins, i + 1) < retain
  }

  ghost predicate Split(paths: seq<string>, pins: set<string>, retain: nat, from: nat, kept: seq<string>,
                        reclaimable: seq<string>)
    requires from <= |paths|
  {
    && (forall x :: x in kept <==> exists i :: from <= i < |paths| && paths[i] == x && Kept(paths, pins, retain, i))
    && (forall x :: x in reclaimable <==>
          exists i :: from <= i < |paths| && paths[i] == x && !Kept(paths, pins, retain, i))
  }

  lemma SplitNext(paths: seq<string>, pins: set<string>, retain: nat, from: nat, kept: seq<string>,
                  reclaimable: seq<string>)
    requires 0 < from <= |paths| && Split(paths, pins, retain, from, kept, reclaimable)
    ensures Kept(paths, pins, retain, from - 1) ==>
      Split(paths, pins, retain, from - 1, kept + [paths[from - 1]], reclaimable)
    ensures !Kept(paths, pins, retain, from - 1) ==>
      Split(paths, pins, retain, from - 1, kept, reclaimable + [paths[from - 1]])
  {
    var k := from - 1;
    forall x
      ensures (exists i :: k <= i < |paths| && paths[i] == x && Kept(paths, pins, retain, i)) <==>
        x in kept || (x == paths[k] && Kept(paths, pins, retain, k))
      ensures (exists i :: k <= i < |paths| && paths[i] == x && !Kept(paths, pins, retain, i)) <==>
        x in reclaimable || (x == paths[k] && !Kept(paths, pins, retain, k))
    {
    }
  }

  /** The selection loops: committed generations from the highest path down, then debris. */
  method Select(paths: seq<string>, partial: seq<string>, pins: set<string>, retain: nat)
    returns (pinned: seq<string>, kept: seq<string>, reclaimable: seq<string>, debris: seq<string>)
    ensures Split(paths, pins, retain, 0, kept, reclaimable)
    ensures forall x :: x in pinned <==> x in pins && (x in paths || x in partial)
    ensures forall x :: x in debris <==> x in partial && x !in pins
  {
    pinned, kept, reclaimable, debris := [], [], [], [];
    var budget := retain;
    for n := |paths| downto 0
      invariant Split(paths, pins, retain, n, kept, reclaimable)
      invariant budget == if Unpinned(paths, pins, n) < retain then retain - Unpinned(paths, pins, n) else 0
      invariant forall x :: x in pinned <==> x in pins && x in paths[n..]
    {
      SplitNext(paths, pins, retain, n + 1, kept, reclaimable);
      assert paths[n..] == [paths[n]] + paths[n + 1..];
      if paths[n] in pins {
        pinned := pinned + [paths[n]];
        kept := kept + [paths[n]];
      } else if budget > 0 {
        budget := budget - 1;
        kept := kept + [paths[n]];
      } else {
        reclaimable := reclaimable + [paths[n]];
      }
    }
    for n := 0 to |partial|
      invariant forall x :: x in pinned <==> x in pins && (x in paths || x in partial[..n])
      invariant forall x :: x in debris <==> x in partial[..n] && x !in pins
    {
      assert partial[..n + 1] == partial[..n] + [partial[n]];
      if partial[n] in pins {
        pinned := pinned + [partial[n]];
      } else {
        debris := debris + [partial[n]];
      }
    }
    assert partial[..|partial|] == partial;
  }

  lemma {:induction false} UnpinnedDecreases(paths: seq<string>, pins: set<string>, i: nat, j: nat)
    requires i <= j <= |paths|
    ensures Unpinned(paths, pins, j) <= Unpinned(paths, pins, i)
    decreases j - i
  {
    if i < j {
      UnpinnedDecreases(paths, pins, i + 1, j);
    }
  }

  /** The unpinned generations kept are those with the highest ids. */
  lemma HighestAreKept(ids: seq<nat>, paths: seq<string>, pins: set<string>, retain: nat, i: nat, j: nat)
    requires SortedPaths(ids, paths) && i < |paths| && j < |paths| && paths[i] !in pins
    requires Kept(paths, pins, retain, i) && !Kept(paths, pins, retain, j)
    ensures ids[j] < ids[i]
  {
    SortedPathsAreSortedIds(ids, paths);
    if i <= j {
      UnpinnedDecreases(paths, pins, i + 1, j + 1);
    }
  }

  /** How many unpinned generations of index `i` and up are kept. */
  function KeptUnpinned(paths: seq<string>, pins: set<string>, retain: nat, i: nat): nat
    requires i <= |paths|
    decreases |paths| - i
  {
    if i == |paths| then 0
    else KeptUnpinned(paths, pins, retain, i + 1) + if paths[i] !in pins && Kept(paths, pins, retain, i) then 1 else 0
  }

  /** The whole budget is used, on unpinned generations only, when there are enough of them. */
  lemma {:induction false} BudgetIsUsed(paths: seq<string>, pins: set<string>, retain: nat, i: nat)
    requires i <= |paths|
    ensures KeptUnpinned(paths, pins, retain, i) ==
      if Unpinned(paths, pins, i) < retain then Unpinned(paths, pins, i) else retain
    decreases |paths| - i
  {
    if i < |paths| {
      BudgetIsUsed(paths, pins, retain, i + 1);
    }
  }

  /** Kept and reclaimable generations partition the listed ones. */
  lemma SelectionPartitions(ids: seq<nat>, paths: seq<string>, pins: set<string>, retain: nat, kept: seq<string>,
                            reclaimable: seq<string>)
    requires SortedPaths(ids, paths) && Split(paths, pins, retain, 0, kept, reclaimable)
    ensures forall x :: x in paths <==> x in kept || x in reclaimable
    ensures forall x :: !(x in kept && x in reclaimable)
    ensures forall x :: x in pins && x in paths ==> x in kept
  {
    forall x ensures x in paths <==> x in kept || x in reclaimable {
      if x in paths {
        var i :| 0 <= i < |paths| && paths[i] == x;
        assert Kept(paths, pins, retain, i) || !Kept(paths, pins, retain, i);
      }
    }
    forall x ensures !(x in kept && x in reclaimable) {
      if x in kept && x in reclaimable {
        var i :| 0 <= i < |paths| && paths[i] == x && Kept(paths, pins, retain, i);
        var j :| 0 <= j < |paths| && paths[j] == x && !Kept(paths, pins, retain, j);
        PathsDistinct(ids, paths, i, j);
        assert false;
      }
    }
  }

  lemma PathsDistinct(ids: seq<nat>, paths: seq<string>, i: nat, j: nat)
    requires SortedPaths(ids, paths) && i < |paths| && j < |paths| && paths[i] == paths[j]
    ensures i == j
  {
    StrLessIrreflexive(paths[i]);
  }

  // ----- The listing -----

  /** The name of a committed generation that is not the active one. */
  predicate Retains(names: set<string>, active: Option<string>, path: string) {
    Some(path) != active && exists name :: name in names && ParseGenerationDir(name).Some? && path == "vectors/" + name
  }

  /** Any other name. */
  predicate Partial(names: set<string>, path: string) {
    exists name :: name in names && ParseGenerationDir(name).None? && path == "vectors/" + name
  }

  predicate Increasing(ids: seq<nat>) {
    forall i, j :: 0 <= i < j < |ids| ==> ids[i] < ids[j]
  }

  lemma SortedIdsAreSortedPaths(ids: seq<nat>, paths: seq<string>)
    requires Increasing(ids) && |ids| == |paths| && forall i :: 0 <= i < |ids| ==>
      ValidId(ids[i]) && paths[i] == PathOf(ids[i])
    ensures SortedPaths(ids, paths)
  {
    forall i, j | 0 <= i < j < |paths| ensures StrLess(paths[i], paths[j]) {
      PathOrder(ids[i], ids[j]);
    }
  }

  lemma InsertedIncreasing(ids: seq<nat>, k: nat, id: nat)
    requires Increasing(ids) && k <= |ids|
    requires (k > 0 ==> ids[k - 1] < id) && (k < |ids| ==> id < ids[k])
    ensures Increasing(ids[..k] + [id] + ids[k..])
  {
  }

  lemma InsertedSorted(ids: seq<nat>, paths: seq<string>, k: nat, id: nat)
    requires SortedPaths(ids, paths) && k <= |ids| && ValidId(id)
    requires (k > 0 ==> ids[k - 1] < id) && (k < |ids| ==> id < ids[k])
    ensures SortedPaths(ids[..k] + [id] + ids[k..], paths[..k] + [PathOf(id)] + paths[k..])
  {
    SortedPathsAreSortedIds(ids, paths);
    InsertedIncreasing(ids, k, id);
    SortedIdsAreSortedPaths(ids[..k] + [id] + ids[k..], paths[..k] + [PathOf(id)] + paths[k..]);
  }

  /** Where an id goes: after the lower ones, before the higher ones. */
  method PlaceOf(ghost ids: seq<nat>, paths: seq<string>, path: string, ghost id: nat) returns (k: nat)
    requires SortedPaths(ids, paths) && ValidId(id) && path == PathOf(id) && path !in paths
    ensures k <= |paths| && (k > 0 ==> ids[k - 1] < id) && (k < |paths| ==> id < ids[k])
  {
    k := 0;
    while k < |paths| && StrLess(paths[k], path)
      invariant k <= |paths| && (k > 0 ==> ids[k - 1] < id)
    {
      PathOrder(ids[k], id);
      k := k + 1;
    }
    if k < |paths| {
      PathOrder(ids[k], id);
      assert paths[k] != path;
    }
  }

  lemma InsertedMembers(paths: seq<string>, k: nat, path: string)
    requires k <= |paths|
    ensures forall x :: x in paths[..k] + [path] + paths[k..] <==> x in paths || x == path
  {
    assert paths == paths[..k] + paths[k..];
  }

  /** One step of the sort. */
  method Insert(ghost ids: seq<nat>, paths: seq<string>, name: string, ghost id: nat)
    returns (ghost newIds: seq<nat>, sorted: seq<string>)
    requires SortedPaths(ids, paths) && ParseGenerationDir(name) == Some(id) && "vectors/" + name !in paths
    ensures SortedPaths(newIds, sorted)
    ensures forall x :: x in sorted <==> x in paths || x == "vectors/" + name
  {
    var path := "vectors/" + name;
    ParsedIsGenerationName(name);
    var k := PlaceOf(ids, paths, path, id);
    InsertedSorted(ids, paths, k, id);
    InsertedMembers(paths, k, path);
    newIds, sorted := ids[..k] + [id] + ids[k..], paths[..k] + [path] + paths[k..];
  }

  /** `generation_directory_summary`: committed generations in order without the active one, and
      the debris. */
  method Summarize(names: set<string>, active: Option<string>)
    returns (ghost ids: seq<nat>, retained: seq<string>, partial: seq<string>)
    ensures SortedPaths(ids, retained)
    ensures forall x :: x in retained <==> Retains(names, active, x)
    ensures forall x :: x in partial <==> Partial(names, x)
  {
    ids, retained, partial := [], [], [];
    var left := names;
    while left != {}
      invariant left <= names && SortedPaths(ids, retained)
      invariant forall x :: x in retained <==> Retains(names - left, active, x)
      invariant forall x :: x in partial <==> Partial(names - left, x)
    {
      var name :| name in left;
      ListedNext(names - left, active, name);
      assert names - (left - {name}) == names - left + {name};
      left := left - {name};
      match ParseGenerationDir(name)
      case Some(id) =>
        if Some("vectors/" + name) != active {
          ids, retained := Insert(ids, retained, name, id);
        }
      case None => partial := partial + ["vectors/" + name];
    }
    assert names - left == names;
  }

  lemma ListedNext(names: set<string>, active: Option<string>, name: string)
    requires name !in names
    ensures forall x :: Retains(names + {name}, active, x) <==>
      Retains(names, active, x) || (Some(x) != active && ParseGenerationDir(name).Some? && x == "vectors/" + name)
    ensures forall x :: Partial(names + {name}, x) <==>
      Partial(names, x) || (ParseGenerationDir(name).None? && x == "vectors/" + name)
    ensures !Retains(names, active, "vectors/" + name)
  {
    if Retains(names, active, "vectors/" + name) {
      var other :| other in names && ParseGenerationDir(other).Some? && "vectors/" + name == "vectors/" + other;
      SamePath(name, other);
      assert false;
    }
  }

  lemma SamePath(a: string, b: string)
    requires "vectors/" + a == "vectors/" + b
    ensures a == b
  {
    assert a == ("vectors/" + a)[8..] && b == ("vectors/" + b)[8..];
  }

  /** A path a verified store may name as active. */
  ghost predicate IsActivePath(path: string) {
    path == "index.odb" || exists id :: ValidId(id) && path == PathOf(id)
  }

  lemma ActiveIsNotPartial(names: set<string>, path: string)
    requires IsActivePath(path)
    ensures !Partial(names, path)
  {
    if Partial(names, path) {
      var name :| name in names && ParseGenerationDir(name).None? && path == "vectors/" + name;
      assert ("vectors/" + name)[0] == 'v';
      var id :| ValidId(id) && path == PathOf(id);
      SamePath(name, GenerationName(id));
      GenerationNameParses(id);
      assert false;
    }
  }

  /** The paths a run would reclaim: the active generation is never among them, no pinned path is,
      and everything else listed is either kept or reclaimed. */
  method PlanRun(names: set<string>, active: Option<string>, pins: set<string>, retain: nat)
    returns (kept: seq<string>, targets: seq<string>)
    requires active.Some? ==> IsActivePath(active.value)
    ensures forall x :: x in targets ==> Some(x) != active && x !in pins
    ensures forall x :: x in kept ==> Retains(names, active, x)
    ensures forall x :: x in kept || x in targets || (x in pins && Partial(names, x)) <==>
      Retains(names, active, x) || Partial(names, x)
  {
    ghost var ids;
    var retained, partial, pinned, debris;
    ids, retained, partial := Summarize(names, active);
    pinned, kept, targets, debris := Select(retained, partial, pins, retain);
    SelectionPartitions(ids, retained, pins, retain, kept, targets);
    if active.Some? {
      ActiveIsNotPartial(names, active.value);
    }
    targets := targets + debris;
  }

  // ----- Recovery -----

  datatype Event = Event(path: string, state: AdapterStore.GcState)

  /** What stands at a path: a directory, with or without a pin file, or a stray file. */
  datatype Entry = Directory(pinned: bool) | StrayFile

  function StateOf(events: seq<Event>, n: nat, path: string): Option<AdapterStore.GcState>
    requires n <= |events|
  {
    if n == 0 then None
    else if events[n - 1].path == path then Some(events[n - 1].state)
    else StateOf(events, n - 1, path)
  }

  /** `latest_gc_states_by_path` */
  method LatestStates(events: seq<Event>) returns (states: map<string, AdapterStore.GcState>)
    ensures forall p :: StateOf(events, |events|, p) == if p in states then Some(states[p]) else None
  {
    states := map[];
    for n := 0 to |events|
      invariant forall p :: StateOf(events, n, p) == if p in states then Some(states[p]) else None
    {
      states := states[events[n].path := events[n].state];
    }
  }

  predicate Interrupted(events: seq<Event>, active: Option<string>, p: string) {
    StateOf(events, |events|, p) == Some(AdapterStore.Deleting) && Some(p) != active
  }

  /** Paths a recovery pass finishes: gone already, or an unpinned directory. */
  predicate Recoverable(events: seq<Event>, entries: map<string, Entry>, active: Option<string>, p: string) {
    Interrupted(events, active, p) && (p in entries ==> entries[p] == Directory(false))
  }

  /** Every interrupted path is a pinned directory. */
  ghost predicate AllPinned(events: seq<Event>, entries: map<string, Entry>, active: Option<string>) {
    forall p :: Interrupted(events, active, p) ==> p in entries && entries[p] == Directory(true)
  }

  /** `updates` logs `state` for every one of `paths` and for nothing else. */
  ghost predicate Logs(updates: seq<Event>, paths: set<string>, state: AdapterStore.GcState) {
    && (forall i :: 0 <= i < |updates| ==> updates[i].state == state && updates[i].path in paths)
    && forall p :: p in paths ==> Has(updates, |updates|, p)
  }

  ghost predicate Has(updates: seq<Event>, n: nat, p: string)
    requires n <= |updates|
  {
    exists i :: 0 <= i < n && updates[i].path == p
  }

  lemma HasSnoc(updates: seq<Event>, e: Event, p: string)
    ensures Has(updates + [e], |updates| + 1, p) <==> Has(updates, |updates|, p) || e.path == p
  {
    var longer := updates + [e];
    assert longer[|updates|] == e;
    assert forall i :: 0 <= i < |updates| ==> longer[i] == updates[i];
  }

  lemma {:induction false} StateAfterUpdates(events: seq<Event>, updates: seq<Event>, paths: set<string>,
                                             state: AdapterStore.GcState, n: nat, p: string)
    requires n <= |updates| && Logs(updates, paths, state)
    ensures StateOf(events + updates, |events| + n, p) ==
      if Has(updates, n, p) then Some(state) else StateOf(events, |events|, p)
  {
    if n == 0 {
      StatePrefix(events, updates, |events|, p);
    } else {
      StateAfterUpdates(events, updates, paths, state, n - 1, p);
      assert (events + updates)[|events| + n - 1] == updates[n - 1];
    }
  }

  lemma {:induction false} StatePrefix(events: seq<Event>, updates: seq<Event>, n: nat, p: string)
    requires n <= |events|
    ensures StateOf(events + updates, n, p) == StateOf(events, n, p)
  {
    if n > 0 {
      StatePrefix(events, updates, n - 1, p);
      assert (events + updates)[n - 1] == events[n - 1];
    }
  }

  class GcRoot {
    var entries: map<string, Entry>
    var events: seq<Event>

    constructor (entries: map<string, Entry>, events: seq<Event>)
      ensures this.entries == entries && this.events == events
    {
      this.entries := entries;
      this.events := events;
    }

    /** `delete_generation_dir`; it may fail. */
    method DeleteDir(p: string) returns (ok: bool)
      modifies `entries
      ensures entries == if ok then old(entries) - {p} else old(entries)
    {
      ok := *;
      if ok {
        entries := entries - {p};
      }
    }

    /** The deletion loop of `recover_interrupted_adapter_gc`. */
    method FinishDeletions(active: Option<string>) returns (ok: bool, recovered: set<string>)
      modifies `entries
      ensures forall p :: p in recovered ==> Recoverable(events, old(entries), active, p)
      ensures entries == old(entries) - recovered
      ensures ok ==> forall p :: Recoverable(events, old(entries), active, p) ==> p in recovered
      ensures ok ==> forall p :: Interrupted(events, active, p) && p in old(entries) ==> old(entries)[p].Directory?
      ensures AllPinned(events, old(entries), active) ==> ok
    {
      ok, recovered := true, {};
      var states := LatestStates(events);
      var left := states.Keys;
      while left != {}
        invariant left <= states.Keys && entries == old(entries) - recovered && recovered !! left
        invariant forall p :: p in recovered ==> Recoverable(events, old(entries), active, p)
        invariant forall p :: p in states && p !in left && Recoverable(events, old(entries), active, p) ==>
          p in recovered
        invariant forall p :: p in states && p !in left && Interrupted(events, active, p) && p in old(entries) ==>
          old(entries)[p].Directory?
        invariant AllPinned(events, old(entries), active) ==> ok && recovered == {}
      {
        var p :| p in left;
        left := left - {p};
        if states[p] == AdapterStore.Deleting && Some(p) != active {
          if p in entries {
            if entries[p].StrayFile? {
              return false, recovered;
            }
            if !entries[p].pinned {
              ok := DeleteDir(p);
              if !ok {
                return;
              }
              recovered := recovered + {p};
            }
          } else {
            recovered := recovered + {p};
          }
        }
      }
    }

    /** One event per path. */
    static method UpdatesFor(paths: set<string>, state: AdapterStore.GcState) returns (updates: seq<Event>)
      ensures Logs(updates, paths, state)
      ensures updates == [] <==> paths == {}
    {
      updates := [];
      var left := paths;
      while left != {}
        invariant left <= paths && Logs(updates, paths - left, state)
        invariant updates == [] ==> left == paths
        invariant updates != [] ==> paths != {}
      {
        var p :| p in left;
        forall q | q in paths && q !in left - {p} ensures Has(updates + [Event(p, state)], |updates| + 1, q) {
          HasSnoc(updates, Event(p, state), q);
          assert q != p ==> q in paths - left;
        }
        updates, left := updates + [Event(p, state)], left - {p};
      }
      assert paths - left == paths;
    }

    /** `recover_interrupted_adapter_gc`: finish the deletions, then log them in one commit, which
        may be refused as stale. */
    method Recover(active: Option<string>) returns (ok: bool, recovered: set<string>)
      modifies `entries, `events
      ensures forall p :: p in old(entries) && p !in entries ==> Recoverable(old(events), old(entries), active, p)
      ensures forall p :: p in entries ==> p in old(entries) && entries[p] == old(entries)[p]
      ensures Grows(old(events), events)
      ensures ok ==> entries == old(entries) - recovered
      ensures ok ==> forall p :: p in recovered <==> Recoverable(old(events), old(entries), active, p)
      ensures ok ==> exists updates :: Logs(updates, recovered, AdapterStore.Deleted) && events == old(events) + updates
      ensures ok && recovered == {} ==> events == old(events)
      ensures !ok ==> events == old(events)
      ensures ok ==> AllPinned(events, entries, active)
      ensures AllPinned(old(events), old(entries), active) ==> ok && recovered == {}
    {
      ok, recovered := FinishDeletions(active);
      if !ok {
        return;
      }
      var updates := UpdatesFor(recovered, AdapterStore.Deleted);
      if updates != [] {
        ok := *;
        if !ok {
          return;
        }
      }
      ghost var before := events;
      events := events + updates;
      forall p | Interrupted(events, active, p) ensures p in entries && entries[p] == Directory(true) {
        StateAfterUpdates(before, updates, recovered, AdapterStore.Deleted, |updates|, p);
        assert Interrupted(before, active, p);
        assert !Recoverable(before, old(entries), active, p);
      }
    }

    /** Recovery again after a successful pass: it succeeds, and removes and logs nothing more. */
    method RecoverTwice(active: Option<string>)
      returns (first: bool, second: bool, recovered: set<string>, again: set<string>)
      modifies `entries, `events
      ensures first ==> second && again == {}
      ensures first ==> entries == old(entries) - recovered
      ensures first ==> forall p :: p in recovered <==> Recoverable(old(events), old(entries), active, p)
      ensures first ==>
        exists updates :: Logs(updates, recovered, AdapterStore.Deleted) && events == old(events) + updates
    {
      first, recovered := Recover(active);
      second, again := false, {};
      if first {
        second, again := Recover(active);
      }
    }

    /** One commit of a run, which may be refused as stale. */
    method Record(paths: set<string>, state: AdapterStore.GcState) returns (ok: bool)
      modifies `events
      ensures ok ==> exists updates :: Logs(updates, paths, state) && events == old(events) + updates
      ensures !ok ==> events == old(events)
      ensures Grows(old(events), events)
    {
      ok := *;
      if ok {
        var updates := UpdatesFor(paths, state);
        events := events + updates;
      }
    }

    /** The deletion loop of a run; a path that is gone already is an error. */
    method DeleteAll(targets: seq<string>) returns (ok: bool, deleted: set<string>)
      modifies `entries
      ensures entries == old(entries) - deleted && forall p :: p in deleted ==> p in targets
      ensures ok ==> forall p :: p in targets ==> p in deleted
    {
      ok, deleted := true, {};
      for n := 0 to |targets|
        invariant entries == old(entries) - deleted && forall p :: p in deleted ==> p in targets
        invariant forall i :: 0 <= i < n ==> targets[i] in deleted
      {
        if targets[n] !in entries {
          return false, deleted;
        }
        ok := DeleteDir(targets[n]);
        if !ok {
          return;
        }
        deleted := deleted + {targets[n]};
      }
    }

    /** Log `reclaimable`, log `deleting`, delete; only marked paths go. */
    method MarkAndDelete(targets: seq<string>) returns (ok: bool, deleted: set<string>)
      modifies `entries, `events
      ensures entries == old(entries) - deleted && Grows(old(events), events)
      ensures forall p :: p in deleted ==> p in targets && Marked(events, p)
      ensures ok ==> forall p :: p in targets ==> p in deleted
    {
      deleted := {};
      var paths := set p | p in targets;
      ok := Record(paths, AdapterStore.Reclaimable);
      if !ok {
        return;
      }
      ghost var queued := events;
      ok := Record(paths, AdapterStore.Deleting);
      if !ok {
        return;
      }
      LoggedMarks(queued, events, paths);
      ok, deleted := DeleteAll(targets);
    }

    /** The part of `gc_adapter_generations` after the selection and the lock: recover, log
        `reclaimable`, log `deleting`, delete, log `deleted`. Wherever it stops, only paths that
        were selected or left over by an interrupted run are gone, and each has a `deleting` event. */
    method Collect(active: Option<string>, targets: seq<string>) returns (ok: bool)
      modifies `entries, `events
      ensures Grows(old(events), events)
      ensures forall p :: p in entries ==> p in old(entries) && entries[p] == old(entries)[p]
      ensures forall p :: p in old(entries) && p !in entries ==>
        Marked(events, p) && (p in targets || Recoverable(old(events), old(entries), active, p))
      ensures ok ==> forall p :: p in targets ==>
        p !in entries && StateOf(events, |events|, p) == Some(AdapterStore.Deleted)
    {
      var recovered, deleted;
      RecoverableMarked(events, entries, active);
      ok, recovered := Recover(active);
      MarksStay(old(events), events);
      if !ok || targets == [] {
        return;
      }
      ghost var after := events;
      ok, deleted := MarkAndDelete(targets);
      MarksStay(after, events);
      if !ok {
        return;
      }
      ghost var gone := events;
      ok := Record(recovered + deleted, AdapterStore.Deleted);
      MarksStay(gone, events);
      if ok {
        LoggedStates(gone, events, recovered + deleted);
      }
    }
  }

  // ----- Marks in the ledger -----

  /** A `deleting` event for `p` is in the ledger. */
  ghost predicate Marked(events: seq<Event>, p: string) {
    exists i :: 0 <= i < |events| && events[i] == Event(p, AdapterStore.Deleting)
  }

  predicate Grows(a: seq<Event>, b: seq<Event>) {
    |a| <= |b| && a == b[..|a|]
  }

  lemma MarksStay(a: seq<Event>, b: seq<Event>)
    requires Grows(a, b)
    ensures forall p :: Marked(a, p) ==> Marked(b, p)
  {
    forall p | Marked(a, p) ensures Marked(b, p) {
      var i :| 0 <= i < |a| && a[i] == Event(p, AdapterStore.Deleting);
      assert b[..|a|][i] == a[i];
    }
  }

  lemma {:induction false} StateIsLogged(events: seq<Event>, n: nat, p: string)
    requires n <= |events| && StateOf(events, n, p) == Some(AdapterStore.Deleting)
    ensures Marked(events, p)
  {
    if events[n - 1].path != p {
      StateIsLogged(events, n - 1, p);
    }
  }

  lemma RecoverableMarked(events: seq<Event>, entries: map<string, Entry>, active: Option<string>)
    ensures forall p :: Recoverable(events, entries, active, p) ==> Marked(events, p)
  {
    forall p | Recoverable(events, entries, active, p) ensures Marked(events, p) {
      StateIsLogged(events, |events|, p);
    }
  }

  lemma LoggedMarks(before: seq<Event>, after: seq<Event>, paths: set<string>)
    requires exists updates :: Logs(updates, paths, AdapterStore.Deleting) && after == before + updates
    ensures forall p :: p in paths ==> Marked(after, p)
  {
    var updates: seq<Event> :| Logs(updates, paths, AdapterStore.Deleting) && after == before + updates;
    forall p | p in paths ensures Marked(after, p) {
      assert Has(updates, |updates|, p);
      var i :| 0 <= i < |updates| && updates[i].path == p;
      assert after[|before| + i] == updates[i];
    }
  }

  lemma LoggedStates(before: seq<Event>, after: seq<Event>, paths: set<string>)
    requires exists updates :: Logs(updates, paths, AdapterStore.Deleted) && after == before + updates
    ensures forall p :: p in paths ==> StateOf(after, |after|, p) == Some(AdapterStore.Deleted)
  {
    var updates: seq<Event> :| Logs(updates, paths, AdapterStore.Deleted) && after == before + updates;
    forall p | p in paths ensures StateOf(after, |after|, p) == Some(AdapterStore.Deleted) {
      StateAfterUpdates(before, updates, paths, AdapterStore.Deleted, |updates|, p);
    }
  }
}
