/** Publishing and recovering a bundle directory, as operations on one register: the content of
    the path, or else of its newest backup that verifies. Every method is a sequence of atomic
    file-system events, so a crash is a prefix of its events. */
module BundleRegister {
  import opened Wrappers
  import opened Bytes

  /** A directory: file names and contents. */
  type Bundle = map<string, seq<byte>>

  datatype Stamp = Stamp(nanos: nat, pid: nat)

  datatype Name = Target | Temp(stamp: Stamp) | Backup(stamp: Stamp)

  type Disk = map<Name, Bundle>

  datatype VerifyOptions = VerifyOptions(allowAbsolutePaths: bool, allowPathEscape: bool, limits: nat)

  /** `verify_for_load`, as a predicate on options and content. */
  type Verifier = (VerifyOptions, Bundle) -> bool

  const DEFAULT := VerifyOptions(false, false, 0)

  predicate Newer(a: Stamp, b: Stamp) {
    a.nanos > b.nanos || (a.nanos == b.nanos && a.pid > b.pid)
  }

  predicate Restorable(v: Verifier, disk: Disk, s: Stamp) {
    Backup(s) in disk && v(DEFAULT, disk[Backup(s)])
  }

  ghost predicate IsNewest(v: Verifier, disk: Disk, s: Stamp) {
    Restorable(v, disk, s) && forall o :: Restorable(v, disk, o) ==> o == s || Newer(s, o)
  }

  /** What recovery would bring back. */
  ghost function Restored(v: Verifier, disk: Disk): Option<Bundle> {
    if exists s :: IsNewest(v, disk, s) then (var s :| IsNewest(v, disk, s); Some(disk[Backup(s)])) else None
  }

  ghost function Register(v: Verifier, disk: Disk): Option<Bundle> {
    if Target in disk then Some(disk[Target]) else Restored(v, disk)
  }

  // ----- Events -----

  datatype Event =
    | TempSet(stamp: Stamp, content: Bundle)                 // created, or one more file written
    | TempCut(stamp: Stamp, left: Option<Bundle>)            // removal, complete or interrupted
    | MovedAside(stamp: Stamp)                               // path -> backup
    | Published(stamp: Stamp, options: VerifyOptions)        // temp -> path
    | MovedBack(stamp: Stamp)                                // backup -> path, after a failed publish
    | BackupCut(stamp: Stamp, left: Option<Bundle>)          // removal of a superseded backup
    | Recovered(stamp: Stamp)                                // backup -> path, on load

  function Rename(disk: Disk, from: Name, to: Name): Disk
    requires from in disk
  {
    (disk - {from})[to := disk[from]]
  }

  function Replaced(disk: Disk, name: Name, left: Option<Bundle>): Disk {
    if left.Some? then disk[name := left.value] else disk - {name}
  }

  /** What each event needs. A backup is only cut while the path is there, a new backup has the
      newest stamp, and recovery takes the newest one that verifies. */
  ghost predicate Legal(v: Verifier, disk: Disk, e: Event) {
    match e
    case TempSet(s, content) => true
    case TempCut(s, left) => Temp(s) in disk
    case MovedAside(s) => Target in disk && NewestStamp(disk, s)
    case Published(s, options) => Target !in disk && Temp(s) in disk && v(options, disk[Temp(s)])
    case MovedBack(s) => Target !in disk && Backup(s) in disk && NewestStamp(disk - {Backup(s)}, s)
    case BackupCut(s, left) => Target in disk && Backup(s) in disk
    case Recovered(s) => Target !in disk && IsNewest(v, disk, s)
  }

  ghost predicate NewestStamp(disk: Disk, s: Stamp) {
    forall o :: Backup(o) in disk ==> Newer(s, o)
  }

  function Apply(disk: Disk, e: Event): Disk {
    match e
    case TempSet(s, content) => disk[Temp(s) := content]
    case TempCut(s, left) => Replaced(disk, Temp(s), left)
    case MovedAside(s) => if Target in disk then Rename(disk, Target, Backup(s)) else disk
    case Published(s, _) => if Temp(s) in disk then Rename(disk, Temp(s), Target) else disk
    case MovedBack(s) => if Backup(s) in disk then Rename(disk, Backup(s), Target) else disk
    case BackupCut(s, left) => Replaced(disk, Backup(s), left)
    case Recovered(s) => if Backup(s) in disk then Rename(disk, Backup(s), Target) else disk
  }

  // ----- One event and the register -----

  lemma RestoredIs(v: Verifier, disk: Disk, s: Stamp)
    requires IsNewest(v, disk, s)
    ensures Restored(v, disk) == Some(disk[Backup(s)])
  {
  }

  lemma SameBackups(v: Verifier, a: Disk, b: Disk)
    requires forall s :: Backup(s) in a <==> Backup(s) in b
    requires forall s :: Backup(s) in a ==> a[Backup(s)] == b[Backup(s)]
    ensures Restored(v, a) == Restored(v, b)
  {
    forall s ensures IsNewest(v, a, s) <==> IsNewest(v, b, s) {
      assert forall o :: Restorable(v, a, o) <==> Restorable(v, b, o);
    }
    if s :| IsNewest(v, a, s) {
      RestoredIs(v, a, s);
      RestoredIs(v, b, s);
    }
  }

  lemma RestoredVerifies(v: Verifier, disk: Disk)
    requires Restored(v, disk).Some?
    ensures v(DEFAULT, Restored(v, disk).value)
  {
  }

  /** Moving the path aside keeps the register exactly when the content verifies under the
      default options, which are the ones recovery uses. */
  lemma MoveAsideKeeps(v: Verifier, disk: Disk, s: Stamp)
    requires Legal(v, disk, MovedAside(s))
    ensures Register(v, Apply(disk, MovedAside(s))) == Register(v, disk) <==> v(DEFAULT, disk[Target])
  {
    var after := Apply(disk, MovedAside(s));
    assert after[Backup(s)] == disk[Target] && Target !in after;
    if v(DEFAULT, disk[Target]) {
      assert IsNewest(v, after, s);
      RestoredIs(v, after, s);
    } else if Restored(v, after).Some? {
      RestoredVerifies(v, after);
    }
  }

  /** Moving a backup back keeps the register under the same condition. */
  lemma MoveBackKeeps(v: Verifier, disk: Disk, s: Stamp)
    requires Legal(v, disk, MovedBack(s))
    ensures Register(v, Apply(disk, MovedBack(s))) == Register(v, disk) <==> v(DEFAULT, disk[Backup(s)])
  {
    if v(DEFAULT, disk[Backup(s)]) {
      assert forall o :: Restorable(v, disk, o) && o != s ==> Backup(o) in disk - {Backup(s)};
      assert IsNewest(v, disk, s);
      RestoredIs(v, disk, s);
    } else if Restored(v, disk).Some? {
      RestoredVerifies(v, disk);
    }
  }

  /** The condition under which an event other than a publication keeps the register. */
  predicate Harmless(v: Verifier, disk: Disk, e: Event) {
    && (e.MovedAside? && Target in disk ==> v(DEFAULT, disk[Target]))
    && (e.MovedBack? && Backup(e.stamp) in disk ==> v(DEFAULT, disk[Backup(e.stamp)]))
  }

  /** Only a publication changes the register on purpose; any other event keeps it exactly when
      what it moves verifies under the default options. */
  lemma EventKeepsRegister(v: Verifier, disk: Disk, e: Event)
    requires Legal(v, disk, e) && !e.Published?
    ensures Register(v, Apply(disk, e)) == Register(v, disk) <==> Harmless(v, disk, e)
  {
    match e
    case MovedAside(s) => MoveAsideKeeps(v, disk, s);
    case MovedBack(s) => MoveBackKeeps(v, disk, s);
    case Recovered(s) => RestoredIs(v, disk, s);
    case _ => SameBackupsOutside(v, disk, e);
  }

  lemma SameBackupsOutside(v: Verifier, disk: Disk, e: Event)
    requires Legal(v, disk, e) && (e.TempSet? || e.TempCut? || e.BackupCut?)
    ensures Register(v, Apply(disk, e)) == Register(v, disk)
  {
    if Target !in disk {
      SameBackups(v, disk, Apply(disk, e));
    }
  }

  // ----- Whole runs -----

  /** Events in the order they reached the disk. A crash ends a run early: every part before an
      event is itself a run. */
  datatype Run = Start(disk: Disk) | Then(before: Run, event: Event)

  function State(r: Run): Disk {
    match r
    case Start(disk) => disk
    case Then(before, e) => Apply(State(before), e)
  }

  /** A backup is only put back right after the event that made it. */
  ghost predicate LegalRun(v: Verifier, r: Run) {
    r.Then? ==>
      && LegalRun(v, r.before) && Legal(v, State(r.before), r.event)
      && (r.event.MovedBack? ==> r.before.Then? && r.before.event == MovedAside(r.event.stamp))
  }

  /** Options that accept nothing the default options reject. */
  ghost predicate Conservative(v: Verifier, options: VerifyOptions) {
    forall b :: v(options, b) ==> v(DEFAULT, b)
  }

  ghost predicate ConservativeRun(v: Verifier, r: Run) {
    r.Then? ==> ConservativeRun(v, r.before) && (r.event.Published? ==> Conservative(v, r.event.options))
  }

  ghost predicate TargetVerifies(v: Verifier, disk: Disk) {
    Target in disk ==> v(DEFAULT, disk[Target])
  }

  function FirstDisk(r: Run): Disk {
    match r
    case Start(disk) => disk
    case Then(before, _) => FirstDisk(before)
  }

  /** The value of the atomic register: what was last published, or else the initial value. */
  ghost function Value(v: Verifier, r: Run): Option<Bundle> {
    match r
    case Start(disk) => Register(v, disk)
    case Then(before, Published(s, _)) =>
      if Temp(s) in State(before) then Some(State(before)[Temp(s)]) else Value(v, before)
    case Then(before, _) => Value(v, before)
  }

  lemma {:induction false} RunTargetVerifies(v: Verifier, r: Run)
    requires LegalRun(v, r) && ConservativeRun(v, r) && TargetVerifies(v, FirstDisk(r))
    ensures TargetVerifies(v, State(r))
    decreases r
  {
    if r.Then? {
      RunTargetVerifies(v, r.before);
      if r.event.MovedBack? {
        assert r.before.before < r.before;
        RunTargetVerifies(v, r.before.before);
      } else if r.event.Recovered? {
        assert Restorable(v, State(r.before), r.event.stamp);
      }
    }
  }

  lemma {:induction false} RunEventHarmless(v: Verifier, r: Run)
    requires r.Then? && LegalRun(v, r) && ConservativeRun(v, r) && TargetVerifies(v, FirstDisk(r))
    ensures Harmless(v, State(r.before), r.event)
  {
    RunTargetVerifies(v, r.before);
    if r.event.MovedBack? {
      RunTargetVerifies(v, r.before.before);
    }
  }

  /** Crash-safe publishing is an atomic register: after any run, cut anywhere, the disk stands
      for the last published bundle, which passed verification before it was published. */
  lemma {:induction false} RunIsRegister(v: Verifier, r: Run)
    requires LegalRun(v, r) && ConservativeRun(v, r) && TargetVerifies(v, FirstDisk(r))
    ensures Register(v, State(r)) == Value(v, r)
    decreases r
  {
    if r.Then? {
      RunIsRegister(v, r.before);
      if !r.event.Published? {
        RunEventHarmless(v, r);
        EventKeepsRegister(v, State(r.before), r.event);
      }
    }
  }

  /** `p` is `r` up to some earlier event. */
  ghost predicate Extends(r: Run, p: Run) {
    r == p || (r.Then? && Extends(r.before, p))
  }

  /** Events after which a call syncs the directory and returns the error if that fails. */
  predicate SyncFollows(e: Event) {
    (e.TempSet? && e.content == map[]) || e.MovedAside? || e.Published? || e.Recovered?
  }

  /** The last event of the run is a publication. */
  predicate JustPublished(r: Run) {
    r.Then? && r.event.Published?
  }

  function Publications(r: Run): nat {
    match r
    case Start(_) => 0
    case Then(before, e) => Publications(before) + if e.Published? then 1 else 0
  }

  lemma {:induction false} ExtendsCounts(r: Run, p: Run)
    requires Extends(r, p)
    ensures Publications(p) <= Publications(r)
    decreases r
  {
    if r != p {
      ExtendsCounts(r.before, p);
    }
  }

  lemma {:induction false} ExtendsTrans(r: Run, q: Run, p: Run)
    requires Extends(r, q) && Extends(q, p)
    ensures Extends(r, p)
    decreases r
  {
    if r != q {
      ExtendsTrans(r.before, q, p);
    }
  }

  /** Two stages of one run are comparable. */
  lemma {:induction false} StagesCompare(r: Run, p: Run, q: Run)
    requires Extends(r, p) && Extends(r, q)
    ensures Extends(p, q) || Extends(q, p)
    decreases r
  {
    if r != p && r != q {
      StagesCompare(r.before, p, q);
    }
  }

  /** Without a publication the value stands, whatever else happened. */
  lemma {:induction false} ValueStands(v: Verifier, r: Run, p: Run)
    requires Extends(r, p) && Publications(r) == Publications(p)
    ensures Value(v, r) == Value(v, p)
    decreases r
  {
    if r != p {
      ExtendsCounts(r.before, p);
      ValueStands(v, r.before, p);
    }
  }

  // ----- Backup candidates -----

  lemma {:induction false} NewestExists(s: set<Stamp>) returns (m: Stamp)
    requires s != {}
    ensures m in s && forall x :: x in s ==> x == m || Newer(m, x)
  {
    m :| m in s;
    if s != {m} {
      var rest := s - {m};
      var k := NewestExists(rest);
      if Newer(k, m) {
        m := k;
      }
      assert forall x :: x in s ==> x in rest || x in {m} || x == k || Newer(m, x);
    }
  }

  /** `backup_bundle_candidates`: every backup, newest first by (nanos, pid). */
  method Candidates(disk: Disk) returns (r: seq<Stamp>)
    ensures forall s :: s in r <==> Backup(s) in disk
    ensures forall i, j :: 0 <= i < j < |r| ==> Newer(r[i], r[j])
  {
    r := [];
    var left := set n | n in disk && n.Backup? :: n.stamp;
    while left != {}
      invariant forall s :: Backup(s) in disk <==> s in r || s in left
      invariant forall i, j :: 0 <= i < j < |r| ==> Newer(r[i], r[j])
      invariant forall i, s :: 0 <= i < |r| && s in left ==> Newer(r[i], s)
    {
      ghost var newest := NewestExists(left);
      var m :| m in left && forall x :: x in left ==> x == m || Newer(m, x);
      r, left := r + [m], left - {m};
    }
  }

  // ----- The operations -----

  function BundleOf(files: seq<(string, seq<byte>)>, n: nat): Bundle
    requires n <= |files|
  {
    if n == 0 then map[] else BundleOf(files, n - 1)[files[n - 1].0 := files[n - 1].1]
  }

  datatype Call = WriteCall(files: seq<(string, seq<byte>)>, options: VerifyOptions, pid: nat) | RecoverCall

  ghost predicate ConservativeCall(v: Verifier, call: Call) {
    call.WriteCall? ==> Conservative(v, call.options)
  }

  /** What a call may do to the value: a write that succeeds sets it, one that fails may have, and
      a recovery keeps it. */
  predicate Outcome(call: Call, ok: bool, before: Option<Bundle>, after: Option<Bundle>) {
    match call
    case WriteCall(files, _, _) => after == Some(BundleOf(files, |files|)) || (!ok && after == before)
    case RecoverCall => after == before
  }

  ghost predicate CallOk(v: Verifier, call: Call, ok: bool, before: Run, after: Run) {
    && Extends(after, before) && Publications(after) <= Publications(before) + 1
    && Outcome(call, ok, Register(v, State(before)), Register(v, State(after)))
  }

  /** `marks[n]` is the run when the first `n` calls have returned. */
  ghost predicate IsHistory(v: Verifier, calls: seq<Call>, ok: seq<bool>, marks: seq<Run>) {
    && |ok| == |calls| && |marks| == |calls| + 1
    && forall n :: 0 <= n < |calls| ==> CallOk(v, calls[n], ok[n], marks[n], marks[n + 1])
  }

  class Storage {
    var entries: Disk
    var clock: nat
    ghost var run: Run

    /** A process starts on the disk it finds, with a clock that is past every backup's stamp. */
    constructor (disk: Disk, clock: nat, ghost v: Verifier)
      requires forall s :: Backup(s) in disk ==> s.nanos < clock
      ensures Valid(v) && entries == disk && run == Start(disk)
    {
      entries, this.clock, run := disk, clock, Start(disk);
    }

    ghost predicate Valid(v: Verifier)
      reads this
    {
      && LegalRun(v, run) && entries == State(run)
      && forall s :: Backup(s) in entries ==> s.nanos < clock
    }

    /** The clock only moves forward. */
    method Now(pid: nat, ghost v: Verifier) returns (s: Stamp)
      requires Valid(v)
      modifies `clock
      ensures Valid(v) && s.pid == pid && old(clock) <= s.nanos < clock
    {
      var elapsed: int :| 0 <= elapsed;
      s := Stamp(clock + elapsed, pid);
      clock := clock + elapsed + 1;
    }

    /** One atomic effect on the disk. */
    method Do(e: Event, ghost v: Verifier)
      requires Valid(v) && Legal(v, entries, e)
      requires e.MovedBack? ==> run.Then? && run.event == MovedAside(e.stamp)
      requires e.MovedAside? ==> e.stamp.nanos < clock
      modifies `entries, `run
      ensures Valid(v) && run == Then(old(run), e) && entries == Apply(old(entries), e)
      ensures ConservativeRun(v, old(run)) && (e.Published? ==> Conservative(v, e.options)) ==> ConservativeRun(v, run)
    {
      entries := Apply(entries, e);
      run := Then(run, e);
    }

    /** `sync_parent_directory`: it may fail, and the call then returns its error. */
    method SyncParent() returns (ok: bool)
      requires run.Then? && SyncFollows(run.event)
    {
      ok := *;
    }

    /** `remove_dir_all` of a scratch directory; it may stop half way. */
    method RemoveTemp(s: Stamp, ghost v: Verifier) returns (ok: bool)
      requires Valid(v) && Temp(s) in entries
      modifies `entries, `run
      ensures Valid(v) && Extends(run, old(run)) && Publications(run) == Publications(old(run))
      ensures ConservativeRun(v, old(run)) ==> ConservativeRun(v, run)
      ensures run == old(run) || !JustPublished(run)
      ensures Target in entries <==> Target in old(entries)
    {
      var left: Option<Bundle> := *;
      ok := left.None?;
      Do(TempCut(s, left), v);
      ExtendsOnce(old(run), TempCut(s, left));
    }

    lemma ExtendsOnce(r: Run, e: Event)
      ensures Extends(Then(r, e), r)
    {
    }

    /** Writes the files into the empty scratch directory; any write may fail. */
    method WriteContents(s: Stamp, files: seq<(string, seq<byte>)>, ghost v: Verifier) returns (ok: bool)
      requires Valid(v) && Temp(s) in entries && entries[Temp(s)] == map[]
      modifies `entries, `run
      ensures Valid(v) && Extends(run, old(run)) && Publications(run) == Publications(old(run)) && Temp(s) in entries
      ensures ConservativeRun(v, old(run)) ==> ConservativeRun(v, run)
      ensures run == old(run) || !JustPublished(run)
      ensures ok ==> entries[Temp(s)] == BundleOf(files, |files|)
      ensures Target in entries <==> Target in old(entries)
    {
      ok := true;
      for n := 0 to |files|
        invariant Valid(v) && Extends(run, old(run)) && Publications(run) == Publications(old(run))
        invariant Temp(s) in entries
        invariant ConservativeRun(v, old(run)) ==> ConservativeRun(v, run)
        invariant run == old(run) || !JustPublished(run)
        invariant entries[Temp(s)] == BundleOf(files, n)
        invariant Target in entries <==> Target in old(entries)
      {
        ok := *;
        if !ok {
          return;
        }
        Do(TempSet(s, entries[Temp(s)][files[n].0 := files[n].1]), v);
      }
    }

    /** Best-effort removal of the superseded backup: all, part or nothing of it goes. */
    method DropBackup(s: Stamp, ghost v: Verifier)
      requires Valid(v) && Target in entries && Backup(s) in entries
      modifies `entries, `run
      ensures Valid(v) && Extends(run, old(run)) && Publications(run) == Publications(old(run))
      ensures ConservativeRun(v, old(run)) ==> ConservativeRun(v, run)
      ensures Target in entries && entries[Target] == old(entries)[Target]
    {
      var left: Option<Bundle> := *;
      Do(BackupCut(s, left), v);
      ExtendsOnce(old(run), BackupCut(s, left));
    }

    /** `replace_bundle`: move the path aside, rename the scratch directory into place, drop the
        backup; if the second rename fails, try to move the backup back. Each rename is followed by
        a directory sync that may fail: an error comes after a publication exactly when it is the
        sync right after the publishing rename that failed. */
    method Replace(temp: Stamp, options: VerifyOptions, pid: nat, ghost v: Verifier) returns (ok: bool)
      requires Valid(v) && Temp(temp) in entries && v(options, entries[Temp(temp)])
      modifies this
      ensures Valid(v) && Extends(run, old(run))
      ensures Publications(run) <= Publications(old(run)) + 1
      ensures ok ==> Publications(run) == Publications(old(run)) + 1
      ensures Publications(run) > Publications(old(run)) ==>
        Target in entries && entries[Target] == old(entries)[Temp(temp)]
      ensures !ok ==> (Publications(run) > Publications(old(run)) <==> run != old(run) && JustPublished(run))
      ensures Conservative(v, options) && ConservativeRun(v, old(run)) ==> ConservativeRun(v, run)
    {
      var backup: Option<Stamp> := None;
      if Target in entries {
        var s := Now(pid, v);
        var renamed: bool := *;
        if !renamed {
          return false;
        }
        Do(MovedAside(s), v);
        var synced := SyncParent();
        if !synced {
          return false;
        }
        backup := Some(s);
      }
      ok := *;
      if ok {
        Do(Published(temp, options), v);
        ok := SyncParent();
        if !ok {
          return;
        }
        label Renamed:
        if backup.Some? {
          DropBackup(backup.value, v);
          ExtendsTrans(run, old@Renamed(run), old(run));
        }
      } else if backup.Some? {
        var returned: bool := *;
        if returned {
          Do(MovedBack(backup.value), v);
        }
      }
    }

    /** Removes a scratch directory of the same name and creates an empty one. */
    method CreateTemp(temp: Stamp, ghost v: Verifier) returns (ok: bool)
      requires Valid(v)
      modifies `entries, `run
      ensures Valid(v) && Extends(run, old(run)) && Publications(run) == Publications(old(run))
      ensures ConservativeRun(v, old(run)) ==> ConservativeRun(v, run)
      ensures run == old(run) || !JustPublished(run)
      ensures ok ==> Temp(temp) in entries && entries[Temp(temp)] == map[]
      ensures Target in entries <==> Target in old(entries)
    {
      if Temp(temp) in entries {
        var removed := RemoveTemp(temp, v);
        if !removed {
          return false;
        }
      }
      ok := *;
      if ok {
        Do(TempSet(temp, map[]), v);
        ok := SyncParent();
      }
    }

    /** `write_bundle` */
    method Write(files: seq<(string, seq<byte>)>, options: VerifyOptions, pid: nat, v: Verifier) returns (ok: bool)
      requires Valid(v)
      modifies this
      ensures Valid(v) && Extends(run, old(run))
      ensures Publications(run) <= Publications(old(run)) + 1
      ensures ok ==> Publications(run) == Publications(old(run)) + 1
      ensures Publications(run) > Publications(old(run)) ==>
        Target in entries && entries[Target] == BundleOf(files, |files|) && v(options, entries[Target])
      ensures !ok ==> (Publications(run) > Publications(old(run)) <==> run != old(run) && JustPublished(run))
      ensures Conservative(v, options) && ConservativeRun(v, old(run)) ==> ConservativeRun(v, run)
    {
      var temp := Now(pid, v);
      ok := CreateTemp(temp, v);
      if !ok {
        return;
      }
      label Created:
      ok := WriteContents(temp, files, v);
      ExtendsTrans(run, old@Created(run), old(run));
      label Written:
      var synced: bool := *;
      if !ok || !v(options, entries[Temp(temp)]) || !synced {
        var removed := RemoveTemp(temp, v);
        ExtendsTrans(run, old@Written(run), old(run));
        return false;
      }
      ok := Replace(temp, options, pid, v);
      ExtendsTrans(run, old@Written(run), old(run));
    }

    /** `recover_bundle_if_missing`: the newest backup that verifies comes back, if there is one
        and its rename succeeds. The sync after the rename may fail, with the backup in place. */
    method Recover(v: Verifier) returns (ok: bool)
      requires Valid(v)
      modifies `entries, `run
      ensures Valid(v) && Extends(run, old(run)) && Publications(run) == Publications(old(run))
      ensures ConservativeRun(v, old(run)) ==> ConservativeRun(v, run)
      ensures Register(v, entries) == Register(v, old(entries))
      ensures ok ==> (Target in entries <==> Register(v, entries).Some?)
      ensures entries == old(entries) || (Target !in old(entries) && Target in entries)
    {
      ok := true;
      if Target in entries {
        return;
      }
      var candidates := Candidates(entries);
      for i := 0 to |candidates|
        invariant run == old(run) && entries == old(entries)
        invariant forall j :: 0 <= j < i ==> !Restorable(v, entries, candidates[j])
      {
        if v(DEFAULT, entries[Backup(candidates[i])]) {
          ok := *;
          if ok {
            NewestCandidate(v, entries, candidates, i);
            RestoredIs(v, entries, candidates[i]);
            Do(Recovered(candidates[i]), v);
            ok := SyncParent();
          }
          return;
        }
      }
    }

    /** One call, as a step of the register. */
    method Serve(call: Call, v: Verifier) returns (ok: bool)
      requires Valid(v) && ConservativeRun(v, run) && TargetVerifies(v, FirstDisk(run)) && ConservativeCall(v, call)
      modifies this
      ensures Valid(v) && ConservativeRun(v, run) && FirstDisk(run) == FirstDisk(old(run))
      ensures CallOk(v, call, ok, old(run), run)
    {
      match call {
        case WriteCall(files, options, pid) =>
          ok := Write(files, options, pid, v);
          PrefixIsRun(v, run, old(run));
          ExtendsCounts(run, old(run));
          if Publications(run) == Publications(old(run)) {
            RunIsRegister(v, run);
            RunIsRegister(v, old(run));
            ValueStands(v, run, old(run));
          }
        case RecoverCall =>
          ok := Recover(v);
          PrefixIsRun(v, run, old(run));
      }
    }

    /** Any number of calls, one after the other, each of which may fail. */
    method ServeAll(calls: seq<Call>, v: Verifier) returns (ok: seq<bool>, ghost marks: seq<Run>)
      requires Valid(v) && ConservativeRun(v, run) && TargetVerifies(v, FirstDisk(run))
      requires forall n :: 0 <= n < |calls| ==> ConservativeCall(v, calls[n])
      modifies this
      ensures Valid(v) && ConservativeRun(v, run) && FirstDisk(run) == FirstDisk(old(run))
      ensures IsHistory(v, calls, ok, marks) && marks[0] == old(run) && marks[|calls|] == run
    {
      ok, marks := [], [run];
      for n := 0 to |calls|
        invariant Valid(v) && ConservativeRun(v, run) && FirstDisk(run) == FirstDisk(old(run))
        invariant IsHistory(v, calls[..n], ok, marks) && marks[0] == old(run) && marks[n] == run
      {
        ghost var before := run;
        var done := Serve(calls[n], v);
        HistoryNext(v, calls, ok, marks, n, done, run);
        ok, marks := ok + [done], marks + [run];
      }
      assert calls[..|calls|] == calls;
    }

    lemma NewestCandidate(v: Verifier, disk: Disk, candidates: seq<Stamp>, i: nat)
      requires forall s :: s in candidates <==> Backup(s) in disk
      requires forall i, j :: 0 <= i < j < |candidates| ==> Newer(candidates[i], candidates[j])
      requires i < |candidates| && Restorable(v, disk, candidates[i])
      requires forall j :: 0 <= j < i ==> !Restorable(v, disk, candidates[j])
      ensures IsNewest(v, disk, candidates[i])
    {
      forall o | Restorable(v, disk, o) ensures o == candidates[i] || Newer(candidates[i], o) {
        assert o in candidates;
      }
    }
  }

  // ----- The register over calls -----

  /** After any run a write either publishes its bundle or leaves the value alone, and a crash
      inside it leaves one of the two. */
  lemma CallIsAtomic(v: Verifier, before: Run, cut: Run, after: Run)
    requires LegalRun(v, after) && ConservativeRun(v, after) && TargetVerifies(v, FirstDisk(after))
    requires Extends(after, cut) && Extends(cut, before) && Publications(after) <= Publications(before) + 1
    ensures Register(v, State(cut)) == Register(v, State(before))
      || Register(v, State(cut)) == Register(v, State(after))
  {
    PrefixIsRun(v, after, cut);
    PrefixIsRun(v, cut, before);
    RunIsRegister(v, after);
    RunIsRegister(v, cut);
    RunIsRegister(v, before);
    ExtendsCounts(after, cut);
    ExtendsCounts(cut, before);
    if Publications(cut) == Publications(before) {
      ValueStands(v, cut, before);
    } else {
      ValueStands(v, after, cut);
    }
  }

  lemma {:induction false} PrefixIsRun(v: Verifier, r: Run, p: Run)
    requires LegalRun(v, r) && ConservativeRun(v, r) && Extends(r, p)
    ensures LegalRun(v, p) && ConservativeRun(v, p) && FirstDisk(p) == FirstDisk(r)
    decreases r
  {
    if r != p {
      PrefixIsRun(v, r.before, p);
    }
  }

  lemma HistoryNext(v: Verifier, calls: seq<Call>, ok: seq<bool>, marks: seq<Run>, n: nat, done: bool, after: Run)
    requires n < |calls| && IsHistory(v, calls[..n], ok, marks) && CallOk(v, calls[n], done, marks[n], after)
    ensures IsHistory(v, calls[..n + 1], ok + [done], marks + [after])
  {
    forall i | 0 <= i < n + 1
      ensures CallOk(v, calls[..n + 1][i], (ok + [done])[i], (marks + [after])[i], (marks + [after])[i + 1])
    {
      if i < n {
        assert CallOk(v, calls[..n][i], ok[i], marks[i], marks[i + 1]);
      }
    }
  }

  lemma {:induction false} HistoryExtends(v: Verifier, calls: seq<Call>, ok: seq<bool>, marks: seq<Run>, n: nat)
    requires IsHistory(v, calls, ok, marks) && n < |marks|
    ensures Extends(marks[|calls|], marks[n])
    decreases |calls| - n
  {
    if n < |calls| {
      HistoryExtends(v, calls, ok, marks, n + 1);
      assert CallOk(v, calls[n], ok[n], marks[n], marks[n + 1]);
      ExtendsTrans(marks[|calls|], marks[n + 1], marks[n]);
    }
  }

  /** The call a cut falls into: the last one that had begun. */
  lemma {:induction false} CutCall(v: Verifier, calls: seq<Call>, ok: seq<bool>, marks: seq<Run>, cut: Run, m: nat)
    returns (n: nat)
    requires IsHistory(v, calls, ok, marks) && m < |marks| && Extends(marks[m], cut) && Extends(cut, marks[0])
    ensures n <= m && Extends(cut, marks[n]) && (if n < m then Extends(marks[n + 1], cut) else cut == marks[n])
  {
    if m == 0 || cut == marks[m] {
      n := m;
      if m == 0 {
        BothWays(cut, marks[0]);
      }
    } else {
      assert CallOk(v, calls[m - 1], ok[m - 1], marks[m - 1], marks[m]);
      StagesCompare(marks[m], cut, marks[m - 1]);
      if Extends(cut, marks[m - 1]) {
        n := m - 1;
      } else {
        n := CutCall(v, calls, ok, marks, cut, m - 1);
      }
    }
  }

  lemma {:induction false} ExtendsLonger(r: Run, p: Run)
    requires Extends(r, p)
    ensures r == p || p < r
    decreases r
  {
    if r != p {
      ExtendsLonger(r.before, p);
    }
  }

  lemma BothWays(a: Run, b: Run)
    requires Extends(a, b) && Extends(b, a)
    ensures a == b
  {
    ExtendsLonger(a, b);
    ExtendsLonger(b, a);
  }

  /** The register over any sequence of writes and recoveries: wherever a crash cuts the calls,
      the disk stands for the value after the calls that had returned, or after one more. The disk
      it leaves is one a new process can start on with the same guarantees. */
  lemma CallsAreAtomic(v: Verifier, calls: seq<Call>, ok: seq<bool>, marks: seq<Run>, cut: Run) returns (n: nat)
    requires IsHistory(v, calls, ok, marks) && Extends(marks[|calls|], cut) && Extends(cut, marks[0])
    requires LegalRun(v, marks[|calls|]) && ConservativeRun(v, marks[|calls|])
    requires TargetVerifies(v, FirstDisk(marks[|calls|]))
    ensures n <= |calls| && Extends(cut, marks[n]) && (n < |calls| ==> Extends(marks[n + 1], cut))
    ensures Register(v, State(cut)) == Register(v, State(marks[n]))
      || (n < |calls| && Register(v, State(cut)) == Register(v, State(marks[n + 1])))
    ensures TargetVerifies(v, State(cut))
  {
    PrefixIsRun(v, marks[|calls|], cut);
    RunTargetVerifies(v, cut);
    n := CutCall(v, calls, ok, marks, cut, |calls|);
    if n < |calls| {
      assert CallOk(v, calls[n], ok[n], marks[n], marks[n + 1]);
      HistoryExtends(v, calls, ok, marks, n + 1);
      PrefixIsRun(v, marks[|calls|], marks[n + 1]);
      CallIsAtomic(v, marks[n], cut, marks[n + 1]);
    }
  }

  /** A write of a new bundle that stops at the sync right after its publishing rename: the call
      returns an error, and the register has changed. */
  lemma FailedWriteHasPublished(v: Verifier, options: VerifyOptions, b: Bundle, t: Stamp)
    requires v(options, b)
    ensures
      var start := Start(map[]);
      var run := Then(Then(start, TempSet(t, b)), Published(t, options));
      && LegalRun(v, run) && SyncFollows(run.event) && Publications(run) > Publications(start)
      && Register(v, State(start)) == None && Register(v, State(run)) == Some(b)
  {
    var start := Start(map[]);
    var written := Then(start, TempSet(t, b));
    var run := Then(written, Published(t, options));
    assert State(written) == map[Temp(t) := b];
    assert LegalRun(v, written);
    assert State(run) == map[Target := b];
    assert forall s :: !Restorable(v, State(start), s);
  }

  /** Without conservative options the guarantee is lost: a bundle that only its own, looser
      options accept is published, moved aside by the next write, and not recovered; the older
      backup that an interrupted removal left behind comes back instead. */
  lemma LooseOptionsLoseTheRegister(v: Verifier, options: VerifyOptions, first: Bundle, current: Bundle,
                                    t: Stamp, a: Stamp, b: Stamp)
    requires v(DEFAULT, first) && v(options, current) && !v(DEFAULT, current) && Newer(b, a)
    ensures
      var start := Start(map[Target := first, Temp(t) := current]);
      var published := Then(Then(start, MovedAside(a)), Published(t, options));
      var aside := Then(published, MovedAside(b));
      && LegalRun(v, aside)
      && Register(v, State(published)) == Some(current)
      && Register(v, State(aside)) == Some(first)
  {
    var r0 := Start(map[Target := first, Temp(t) := current]);
    var r1 := Then(r0, MovedAside(a));
    var r2 := Then(r1, Published(t, options));
    var r3 := Then(r2, MovedAside(b));
    assert State(r1) == map[Temp(t) := current, Backup(a) := first];
    assert LegalRun(v, r1);
    assert State(r2) == map[Target := current, Backup(a) := first];
    assert LegalRun(v, r2);
    assert State(r3) == map[Backup(b) := current, Backup(a) := first];
    OlderComesBack(v, State(r3), first, current, a, b);
  }

  lemma OlderComesBack(v: Verifier, disk: Disk, first: Bundle, current: Bundle, a: Stamp, b: Stamp)
    requires v(DEFAULT, first) && !v(DEFAULT, current) && a != b
    requires disk == map[Backup(b) := current, Backup(a) := first]
    ensures Register(v, disk) == Some(first)
  {
    assert IsNewest(v, disk, a);
    RestoredIs(v, disk, a);
  }
}
