/** The converse of GC safety: a step that exposes the active generation does lead to its loss, and
    marking the active path is dangerous in exactly those runs in which a driver could have read
    another active path. */
module GcExposure {
  import opened Wrappers
  import opened AdapterStore
  import opened StoreProtocol
  import opened GcSafety

  // ----- Processes that have done nothing -----

  lemma {:induction false} Bound(keys: set<nat>) returns (n: nat)
    ensures forall k :: k in keys ==> k < n
  {
    if keys == {} {
      n := 0;
    } else {
      var k :| k in keys;
      var m := Bound(keys - {k});
      n := if m <= k then k + 1 else m;
      assert keys == (keys - {k}) + {k};
    }
  }

  lemma FreshProcess(s: Sys) returns (j: nat)
    ensures LocalOf(s, j) == Idle
  {
    j := Bound(s.locals.Keys);
  }

  ghost function After(r: Run, a: Action): Run
    requires Enabled(r.state, a)
  {
    Then(r, a, Step(r.state, a))
  }

  // ----- An exposing step leads to a loss -----

  /** One more step that exposes nothing. */
  lemma SinceNext(r: Run, p: Run, a: Action)
    requires DisciplinedSince(r, p) && Enabled(r.state, a) && !Exposes(r.state, a)
    ensures DisciplinedSince(After(r, a), p)
  {
  }

  lemma SinceSelf(p: Run)
    ensures DisciplinedSince(p, p)
  {
  }

  /** A driver reads the store. */
  lemma DriverReads(r: Run, j: nat) returns (q: Run)
    requires Legal(r) && LocalOf(r.state, j) == Idle && r.state.db.Some? && OpenOk(r.state.db.value, r.state.dirs, None)
    ensures Legal(q) && DisciplinedSince(q, r)
    ensures LocalOf(q.state, j) == GcRead(RevisionOf(r.state.db.value.manifest))
    ensures q.state == r.state.(locals := q.state.locals)
    ensures forall i: nat :: i != j ==> LocalOf(q.state, i) == LocalOf(r.state, i)
  {
    q := After(r, ReadStore(j));
    SinceSelf(r);
    SinceNext(r, r, ReadStore(j));
  }

  /** It has selected what it will. */
  lemma DriverPlans(r: Run, j: nat) returns (q: Run, reclaim: set<GcPath>)
    requires Legal(r) && (LocalOf(r.state, j).GcRead? || LocalOf(r.state, j).GcPlanned?)
    ensures Legal(q) && DisciplinedSince(q, r) && LocalOf(q.state, j) == GcPlanned(LocalOf(r.state, j).known, reclaim)
    ensures q.state == r.state.(locals := q.state.locals)
    ensures forall i: nat :: i != j ==> LocalOf(q.state, i) == LocalOf(r.state, i)
  {
    SinceSelf(r);
    if LocalOf(r.state, j).GcRead? {
      q, reclaim := After(r, Plan(j, {})), {};
      SinceNext(r, r, Plan(j, {}));
    } else {
      q, reclaim := r, LocalOf(r.state, j).reclaim;
    }
  }

  /** The writer commits and leaves. */
  lemma WriterCommits(r: Run, i: nat) returns (q: Run)
    requires Legal(r) && LocalOf(r.state, i).Writer? && LocalOf(r.state, i).pending.Some?
    ensures Legal(q) && DisciplinedSince(q, r)
    ensures q.state.db == Some(LocalOf(r.state, i).pending.value.next) && q.state.dirs == r.state.dirs
    ensures q.state.lock == None && forall j: nat :: i != j ==> LocalOf(q.state, j) == LocalOf(r.state, j)
  {
    var committed := After(r, CommitWrite(i));
    SinceSelf(r);
    SinceNext(r, r, CommitWrite(i));
    q := After(committed, Release(i));
    SinceNext(committed, r, Release(i));
  }

  /** The driver takes the lock and recovers. */
  lemma DriverRecovers(r: Run, j: nat, g: GenPath) returns (q: Run)
    requires Legal(r) && LocalOf(r.state, j).GcPlanned? && r.state.lock == None && r.state.db.Some?
    requires r.state.db.value.manifest.activePath == Some(g) && ActiveMarked(r.state.db.value) && g in r.state.dirs
    requires LocalOf(r.state, j).known.activePath != Some(g)
    ensures Legal(q) && DisciplinedSince(q, r) && RemovesActive(q)
    ensures q.state.db == r.state.db && q.state.dirs == r.state.dirs - {g}
  {
    var locked := After(r, AcquireGc(j));
    SinceSelf(r);
    SinceNext(r, r, AcquireGc(j));
    q := After(locked, RecoverDelete(j, Bundle(g), true));
    SinceNext(locked, r, RecoverDelete(j, Bundle(g), true));
  }

  lemma {:induction false} SinceTrans(r: Run, q: Run, p: Run)
    requires DisciplinedSince(r, q) && DisciplinedSince(q, p)
    ensures DisciplinedSince(r, p)
    decreases r
  {
    if r != q {
      SinceTrans(r.before, q, p);
    }
  }

  lemma MissingActiveDir(db: Db, dirs: Dirs, g: GenPath, allowed: Option<GenPath>)
    requires db.payloads.indexPath == g && !db.payloads.emptyLazy && g !in dirs
    ensures !OpenOk(db, dirs, allowed)
  {
    OpenIs(db, dirs, allowed);
  }

  lemma OpenActive(db: Db, dirs: Dirs, g: GenPath)
    requires OpenOk(db, dirs, None) && db.manifest.activePath == Some(g)
    ensures g in dirs && db.payloads.indexPath == g && !db.payloads.emptyLazy
  {
    OpenIs(db, dirs, None);
  }

  /** What a step that marks a path leaves to be committed. */
  lemma MarkedState(s: Sys, a: Action)
    requires Inv(s) && Enabled(s, a) && Marks(s, a)
    ensures var g := MarkedPath(s, a);
            && a.next.manifest.activePath == Some(g) && ActiveMarked(a.next) && g in s.dirs
            && a.next.payloads.indexPath == g && !a.next.payloads.emptyLazy
  {
    if a.CheckSnapshot? {
      CheckSnapshotFrame(s, a);
      SnapshotActivePath(s.db, s.dirs, a.expected, a.p, a.uuid, a.origin, a.next);
      SnapshotMarks(s.db, s.dirs, a.expected, a.p, a.uuid, a.origin, a.next);
    } else {
      RecordMarks(s.db.value, a.updates, a.next);
      OpenActive(s.db.value, s.dirs, MarkedPath(s, a));
    }
  }

  lemma MarkingFrame(s: Sys, a: Action)
    requires Enabled(s, a) && Marks(s, a)
    ensures LocalOf(s, a.i) == Writer(None) && Step(s, a) == s.(locals := Step(s, a).locals)
    ensures LocalOf(Step(s, a), a.i).Writer? && LocalOf(Step(s, a), a.i).pending.Some?
    ensures LocalOf(Step(s, a), a.i).pending.value.next == a.next
  {
  }

  /** A driver that goes by another active path, present or still to come. */
  lemma MissingDriver(p: Run, i: nat, g: GenPath) returns (q: Run, j: nat)
    requires Legal(p) && LocalOf(p.state, i).Writer? && MayMiss(p.state, g)
    ensures Legal(q) && DisciplinedSince(q, p) && j != i && LocalOf(q.state, i) == LocalOf(p.state, i)
    ensures q.state == p.state.(locals := q.state.locals)
    ensures LocalOf(q.state, j).GcPlanned? && LocalOf(q.state, j).known.activePath != Some(g)
  {
    var read := p;
    SinceSelf(p);
    if ReadsOther(p.state, g) {
      j := FreshProcess(p.state);
      read := DriverReads(p, j);
    } else {
      j :| SeesOther(LocalOf(p.state, j), g);
      OneLockHolder(p, i, j);
    }
    ghost var reclaim;
    q, reclaim := DriverPlans(read, j);
    SinceTrans(q, read, p);
  }

  lemma OneLockHolder(p: Run, i: nat, j: nat)
    requires Legal(p) && LocalOf(p.state, i).Writer? && i != j
    ensures !LocalOf(p.state, j).Gc?
  {
    RunKeepsInv(p);
    assert Locks(LocalOf(p.state, i));
    assert Locks(LocalOf(p.state, j)) ==> p.state.lock == Some(j);
  }

  lemma LossAfter(p: Run, i: nat, next: Db, g: GenPath) returns (r: Run)
    requires Legal(p) && LocalOf(p.state, i).Writer? && LocalOf(p.state, i).pending.Some?
    requires LocalOf(p.state, i).pending.value.next == next && MayMiss(p.state, g)
    requires next.manifest.activePath == Some(g) && ActiveMarked(next) && g in p.state.dirs
    ensures Legal(r) && DisciplinedSince(r, p) && RemovesActive(r)
    ensures r.state.db == Some(next) && r.state.dirs == p.state.dirs - {g}
  {
    var planned, j := MissingDriver(p, i, g);
    var committed := WriterCommits(planned, i);
    r := DriverRecovers(committed, j, g);
    SinceTrans(committed, planned, p);
    SinceTrans(r, committed, p);
  }

  lemma StillMissed(s: Sys, a: Action, g: GenPath)
    requires Enabled(s, a) && Marks(s, a) && MayMiss(s, g)
    ensures MayMiss(Step(s, a), g)
  {
    MarkingFrame(s, a);
    if !ReadsOther(s, g) {
      var j: nat :| SeesOther(LocalOf(s, j), g);
      StepFrame(s, a, j);
      assert SeesOther(LocalOf(Step(s, a), j), g);
    } else {
      assert ReadsOther(Step(s, a), g);
    }
  }

  /** From any state in which a step exposes the active generation, steps that expose nothing
      further remove its directory, and the store they end in does not open. */
  lemma ExposedIsRemoved(p: Run, a: Action) returns (r: Run)
    requires Legal(p) && Enabled(p.state, a) && Exposes(p.state, a)
    ensures Legal(r) && DisciplinedSince(r, After(p, a)) && RemovesActive(r)
    ensures r.state.db == Some(a.next) && forall allowed :: !OpenOk(a.next, r.state.dirs, allowed)
  {
    var g := MarkedPath(p.state, a);
    RunKeepsInv(p);
    MarkedState(p.state, a);
    MarkingFrame(p.state, a);
    StillMissed(p.state, a, g);
    r := LossAfter(After(p, a), a.i, a.next, g);
    forall allowed ensures !OpenOk(a.next, r.state.dirs, allowed) {
      MissingActiveDir(a.next, r.state.dirs, g, allowed);
    }
  }

  lemma OpensUnprepared(db: Db, dirs: Dirs, allowed: Option<GenPath>)
    requires OpenOk(db, dirs, allowed) && !db.manifest.emptyLazy
    ensures OpenOk(db, dirs, None)
  {
    OpenIs(db, dirs, allowed);
    OpenIs(db, dirs, None);
  }

  /** A snapshot over a store with an active generation exposes it whenever it takes another path
      that is marked, whoever has read the store so far. */
  lemma TakenPathIsExposed(s: Sys, a: Action)
    requires a.CheckSnapshot? && Enabled(s, a) && TakesMarkedPath(s.db, a.p) && !s.db.value.manifest.emptyLazy
    requires s.db.value.manifest.activePath != Some(a.p.indexPath)
    ensures Exposes(s, a)
  {
    OpensUnprepared(s.db.value, s.dirs, PreparedPath(a.p));
    assert ReadsOther(s, a.p.indexPath);
  }

  /** So a driver that reads the store before the commit removes the directory after it. */
  lemma TakenPathIsRemoved(p: Run, a: Action) returns (r: Run)
    requires Legal(p) && a.CheckSnapshot? && Enabled(p.state, a) && TakesMarkedPath(p.state.db, a.p)
    requires !p.state.db.value.manifest.emptyLazy && p.state.db.value.manifest.activePath != Some(a.p.indexPath)
    ensures Legal(r) && DisciplinedSince(r, After(p, a)) && RemovesActive(r)
    ensures r.state.db == Some(a.next) && forall allowed :: !OpenOk(a.next, r.state.dirs, allowed)
  {
    TakenPathIsExposed(p.state, a);
    r := ExposedIsRemoved(p, a);
  }

  lemma {:induction false} SinceDisciplined(r: Run, p: Run)
    requires DisciplinedSince(r, p) && Disciplined(p)
    ensures Disciplined(r)
  {
    if r != p {
      SinceDisciplined(r.before, p);
    }
  }

  /** A continuation in which nothing further is exposed removes the active directory. */
  ghost predicate IsLoss(r: Run, p: Run, a: Action)
    requires Enabled(p.state, a)
  {
    Legal(r) && DisciplinedSince(r, After(p, a)) && RemovesActive(r)
  }

  lemma UnexposedIsSafe(p: Run, a: Action, r: Run)
    requires Disciplined(p) && Enabled(p.state, a) && !Exposes(p.state, a)
    ensures !IsLoss(r, p, a)
  {
    if IsLoss(r, p, a) {
      SinceDisciplined(r, After(p, a));
      SafeRunsRemoveNothingActive(r);
    }
  }

  /** The exact condition, for every kind of step: after a disciplined run a step opens a way to
      losing the active generation if and only if it exposes it. */
  lemma LostIffExposed(p: Run, a: Action)
    requires Legal(p) && Disciplined(p) && Enabled(p.state, a)
    ensures Exposes(p.state, a) <==> exists r :: IsLoss(r, p, a)
  {
    if Exposes(p.state, a) {
      var r := ExposedIsRemoved(p, a);
      assert IsLoss(r, p, a);
    } else {
      forall r ensures !IsLoss(r, p, a) {
        UnexposedIsSafe(p, a, r);
      }
    }
  }

  // ----- What drivers go by was once read -----

  /** `p` is `r` or an earlier stage of it. */
  ghost predicate Extends(r: Run, p: Run) {
    r == p || (r.Then? && Extends(r.before, p))
  }

  lemma {:induction false} SeenWasRead(r: Run, j: nat, g: GenPath) returns (q: Run)
    requires Legal(r) && SeesOther(LocalOf(r.state, j), g)
    ensures Extends(r, q) && ReadsOther(q.state, g)
  {
    if r.Start? {
      assert false;
    } else {
      MissedBefore(r.before.state, r.action, j, g);
      if ReadsOther(r.before.state, g) {
        q := r.before;
      } else {
        var k: nat :| SeesOther(LocalOf(r.before.state, k), g);
        q := SeenWasRead(r.before, k, g);
      }
    }
  }

  // ----- The same run with one more reader -----

  ghost function WithReader(s: Sys, j: nat, known: Revision): Sys {
    Move(s, j, GcPlanned(known, {}))
  }

  /** `r` is `p` with a driver `j` that read the store at some stage and selected nothing. */
  ghost predicate ReaderAdded(r: Run, p: Run, j: nat) {
    || (r.Then? && r.action == Plan(j, {}) && r.before.Then? && r.before.action == ReadStore(j) && r.before.before == p)
    || (r.Then? && p.Then? && r.action == p.action && p.action.i != j && ReaderAdded(r.before, p.before, j))
  }

  ghost predicate SameButReader(r: Run, p: Run) {
    r == p || exists j :: ReaderAdded(r, p, j)
  }

  lemma MovesCommute(s: Sys, i: nat, l: Local, j: nat, m: Local)
    requires i != j
    ensures Move(Move(s, i, l), j, m) == Move(Move(s, j, m), i, l)
  {
    assert s.locals[i := l][j := m] == s.locals[j := m][i := l];
  }

  lemma EnabledWithReader(s: Sys, a: Action, j: nat, known: Revision)
    requires a.i != j
    ensures Enabled(WithReader(s, j, known), a) <==> Enabled(s, a)
  {
    var t := WithReader(s, j, known);
    assert LocalOf(t, a.i) == LocalOf(s, a.i);
    if a.Plan? {
      assert forall active, x :: Listed(t, active, x) <==> Listed(s, active, x);
    }
  }

  lemma StepWithReader(s: Sys, a: Action, j: nat, known: Revision)
    requires a.i != j && Enabled(s, a) && Enabled(WithReader(s, j, known), a)
    ensures Step(WithReader(s, j, known), a) == WithReader(Step(s, a), j, known)
  {
    var t := WithReader(s, j, known);
    assert LocalOf(t, a.i) == LocalOf(s, a.i);
    MovesCommute(s, a.i, LocalOf(Step(s, a), a.i), j, GcPlanned(known, {}));
  }

  lemma MarksWithReader(s: Sys, a: Action, j: nat, known: Revision)
    ensures Marks(WithReader(s, j, known), a) <==> Marks(s, a)
    ensures Marks(s, a) ==> MarkedPath(WithReader(s, j, known), a) == MarkedPath(s, a)
  {
  }

  /** Process `j` takes no step. */
  ghost predicate Silent(r: Run, j: nat) {
    r.Then? ==> r.action.i != j && Silent(r.before, j)
  }

  lemma {:induction false} SilentIsIdle(r: Run, j: nat)
    requires Legal(r) && Silent(r, j)
    ensures LocalOf(r.state, j) == Idle
  {
    if r.Then? {
      SilentIsIdle(r.before, j);
      StepFrame(r.before.state, r.action, j);
    }
  }

  lemma {:induction false} SilentFrom(r: Run) returns (n: nat)
    ensures forall j: nat :: n <= j ==> Silent(r, j)
  {
    if r.Then? {
      var m := SilentFrom(r.before);
      n := if m <= r.action.i then r.action.i + 1 else m;
    } else {
      n := 0;
    }
  }

  /** A driver may have read the store at any stage at which it opens, and the run goes on as it did. */
  lemma {:induction false} AddReader(p: Run, q: Run, j: nat) returns (r: Run)
    requires Legal(p) && Extends(p, q) && Silent(p, j) && q.state.db.Some?
    requires OpenOk(q.state.db.value, q.state.dirs, None)
    ensures Legal(r) && ReaderAdded(r, p, j) && r.state == WithReader(p.state, j, RevisionOf(q.state.db.value.manifest))
  {
    var known := RevisionOf(q.state.db.value.manifest);
    if p == q {
      SilentIsIdle(p, j);
      r := ReaderAddedHere(p, j);
    } else {
      var before := AddReader(p.before, q, j);
      EnabledWithReader(p.before.state, p.action, j, known);
      StepWithReader(p.before.state, p.action, j, known);
      r := After(before, p.action);
    }
  }

  lemma ReaderAddedHere(p: Run, j: nat) returns (r: Run)
    requires Legal(p) && LocalOf(p.state, j) == Idle && p.state.db.Some? && OpenOk(p.state.db.value, p.state.dirs, None)
    ensures Legal(r) && ReaderAdded(r, p, j) && r.state == WithReader(p.state, j, RevisionOf(p.state.db.value.manifest))
  {
    var read := After(p, ReadStore(j));
    r := After(read, Plan(j, {}));
    assert r.state.locals == p.state.locals[j := GcPlanned(RevisionOf(p.state.db.value.manifest), {})];
  }

  lemma {:induction false} AddedState(r: Run, p: Run, j: nat) returns (known: Revision)
    requires Legal(r) && Legal(p) && ReaderAdded(r, p, j)
    ensures r.state == WithReader(p.state, j, known)
    ensures PrudentRun(p) ==> PrudentRun(r)
    decreases r
  {
    if r.action == Plan(j, {}) && r.before.Then? && r.before.action == ReadStore(j) && r.before.before == p {
      known := RevisionOf(p.state.db.value.manifest);
      assert r.state.locals == p.state.locals[j := GcPlanned(known, {})];
    } else {
      known := AddedState(r.before, p.before, j);
      StepWithReader(p.before.state, p.action, j, known);
      MarksWithReader(p.before.state, p.action, j, known);
    }
  }

  /** Each stage of `r` shows the store of some stage of `p`. */
  lemma {:induction false} StageBelow(r: Run, p: Run, j: nat, q: Run) returns (stage: Run)
    requires Legal(r) && Legal(p) && ReaderAdded(r, p, j) && Extends(r, q)
    ensures Extends(p, stage) && stage.state.db == q.state.db && stage.state.dirs == q.state.dirs
    decreases r
  {
    ghost var known := AddedState(r, p, j);
    if r == q {
      stage := p;
    } else if r.action == Plan(j, {}) && r.before.Then? && r.before.action == ReadStore(j) && r.before.before == p {
      stage := if r.before == q then p else q;
    } else {
      stage := StageBelow(r.before, p.before, j, q);
    }
  }

  // ----- When marking is dangerous -----

  /** The run, perhaps with one more reader, goes on to lose the active generation. */
  ghost predicate MayBeLost(p: Run, a: Action) {
    exists r, loss :: Legal(r) && SameButReader(r, p) && Enabled(r.state, a) && IsLoss(loss, r, a)
  }

  lemma MissedWithReader(s: Sys, j: nat, known: Revision, g: GenPath)
    requires known.activePath != Some(g)
    ensures MayMiss(WithReader(s, j, known), g)
  {
    assert SeesOther(LocalOf(WithReader(s, j, known), j), g);
  }

  lemma ExposedWithReader(s: Sys, a: Action, j: nat, known: Revision)
    requires Marks(s, a) && known.activePath != Some(MarkedPath(s, a))
    ensures Exposes(WithReader(s, j, known), a)
  {
    MarksWithReader(s, a, j, known);
    MissedWithReader(s, j, known, MarkedPath(s, a));
  }

  lemma ReaderExposes(p: Run, a: Action, q: Run, j: nat) returns (r: Run)
    requires Legal(p) && Enabled(p.state, a) && Marks(p.state, a) && Silent(p, j) && a.i != j
    requires Extends(p, q) && ReadsOther(q.state, MarkedPath(p.state, a))
    ensures Legal(r) && SameButReader(r, p) && Enabled(r.state, a) && Exposes(r.state, a)
  {
    var known := RevisionOf(q.state.db.value.manifest);
    r := AddReader(p, q, j);
    EnabledWithReader(p.state, a, j, known);
    ExposedWithReader(p.state, a, j, known);
  }

  lemma ReaderLoses(p: Run, a: Action, q: Run)
    requires Legal(p) && Enabled(p.state, a) && Marks(p.state, a)
    requires Extends(p, q) && ReadsOther(q.state, MarkedPath(p.state, a))
    ensures MayBeLost(p, a)
  {
    var n := SilentFrom(p);
    var r := ReaderExposes(p, a, q, n + a.i + 1);
    var loss := ExposedIsRemoved(r, a);
    assert IsLoss(loss, r, a);
  }

  lemma MissedWasRead(r: Run, g: GenPath) returns (q: Run)
    requires Legal(r) && MayMiss(r.state, g)
    ensures Extends(r, q) && ReadsOther(q.state, g)
  {
    if ReadsOther(r.state, g) {
      q := r;
    } else {
      var j: nat :| SeesOther(LocalOf(r.state, j), g);
      q := SeenWasRead(r, j, g);
    }
  }

  lemma LossWasRead(p: Run, a: Action, r: Run, loss: Run) returns (q: Run)
    requires Legal(p) && PrudentRun(p) && Marks(p.state, a) && Legal(r) && SameButReader(r, p)
    requires Enabled(r.state, a) && IsLoss(loss, r, a)
    ensures Extends(p, q) && ReadsOther(q.state, MarkedPath(p.state, a))
  {
    if r == p {
      PrudentIsDisciplined(p);
      LostIffExposed(p, a);
      q := MissedWasRead(p, MarkedPath(p.state, a));
    } else {
      var j :| ReaderAdded(r, p, j);
      var known := AddedState(r, p, j);
      PrudentIsDisciplined(r);
      LostIffExposed(r, a);
      MarksWithReader(p.state, a, j, known);
      var stage := MissedWasRead(r, MarkedPath(p.state, a));
      q := StageBelow(r, p, j, stage);
    }
  }

  lemma LossHasReader(p: Run, a: Action)
    requires Legal(p) && PrudentRun(p) && Marks(p.state, a) && MayBeLost(p, a)
    ensures exists q :: Extends(p, q) && ReadsOther(q.state, MarkedPath(p.state, a))
  {
    var r, loss :| Legal(r) && SameButReader(r, p) && Enabled(r.state, a) && IsLoss(loss, r, a);
    var q := LossWasRead(p, a, r, loss);
  }

  /** After a prudent run a step that marks the active path, by publishing a marked path or by
      recording `deleting` for it, is dangerous if and only if the store could at some time be
      opened with another active path: then a driver that did so may remove the active generation. */
  lemma MarkingIsDangerousIff(p: Run, a: Action)
    requires Legal(p) && PrudentRun(p) && Enabled(p.state, a) && Marks(p.state, a)
    ensures MayBeLost(p, a) <==> exists q :: Extends(p, q) && ReadsOther(q.state, MarkedPath(p.state, a))
  {
    if q :| Extends(p, q) && ReadsOther(q.state, MarkedPath(p.state, a)) {
      ReaderLoses(p, a, q);
    }
    if MayBeLost(p, a) {
      LossHasReader(p, a);
    }
  }
}
