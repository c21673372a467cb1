/** Backup candidates as a directory shows them: names, whose suffixes are parsed and compared as
    numbers. For backups with stamped names their order is the order of the stamps. */
module BackupNames {
  import opened Wrappers
  import opened BundleNames
  import BundleRegister

  function Prefix(fileName: string): string {
    "." + fileName + BAK
  }

  /** `unique_backup_bundle_path` */
  function BackupName(fileName: string, s: BundleRegister.Stamp): string {
    Decorate(fileName, Bak(s.pid, s.nanos))
  }

  // ----- The order of strings -----

  lemma {:induction false} StrTotal(a: string, b: string)
    ensures StrLess(a, b) || a == b || StrLess(b, a)
  {
    if a != [] && b != [] && a[0] == b[0] {
      StrTotal(a[1..], b[1..]);
      assert a == [a[0]] + a[1..] && b == [b[0]] + b[1..];
    }
  }

  lemma {:induction false} StrTransitive(a: string, b: string, c: string)
    requires StrLess(a, b) && StrLess(b, c)
    ensures StrLess(a, c)
  {
    if a != [] && a[0] == b[0] && b[0] == c[0] {
      StrTransitive(a[1..], b[1..], c[1..]);
    }
  }

  // ----- Sorting by key -----

  datatype Key = Key(nanos: nat, pid: nat, name: string)

  predicate KeyLess(a: Key, b: Key) {
    if a.nanos != b.nanos then a.nanos < b.nanos
    else if a.pid != b.pid then a.pid < b.pid
    else StrLess(a.name, b.name)
  }

  lemma KeyTotal(a: Key, b: Key)
    ensures KeyLess(a, b) || a == b || KeyLess(b, a)
    ensures !KeyLess(a, a)
  {
    StrTotal(a.name, b.name);
    StrLessIrreflexive(a.name);
  }

  lemma KeyTransitive(a: Key, b: Key, c: Key)
    requires KeyLess(a, b) && KeyLess(b, c)
    ensures KeyLess(a, c)
  {
    if a.nanos == b.nanos == c.nanos && a.pid == b.pid == c.pid {
      StrTransitive(a.name, b.name, c.name);
    }
  }

  /** The time and process id in the name, or else the time of modification. */
  function KeyOf(fileName: string, modified: map<string, nat>, name: string): (k: Key)
    ensures k.name == name
  {
    if !(Prefix(fileName) <= name) then Key(0, 0, name)
    else
      match ParseBackupSuffix(name[|Prefix(fileName)|..])
      case Some(stamp) => Key(stamp.0, stamp.1, name)
      case None => Key(if name in modified then modified[name] else 0, 0, name)
  }

  /** Newest first. */
  ghost predicate Sorted(fileName: string, modified: map<string, nat>, names: seq<string>) {
    forall i, j :: 0 <= i < j < |names| ==>
      KeyLess(KeyOf(fileName, modified, names[j]), KeyOf(fileName, modified, names[i]))
  }

  ghost predicate IsLast(fileName: string, modified: map<string, nat>, names: set<string>, m: string) {
    m in names
    && forall x :: x in names ==> x == m || KeyLess(KeyOf(fileName, modified, x), KeyOf(fileName, modified, m))
  }

  lemma {:induction false} LastExists(fileName: string, modified: map<string, nat>, names: set<string>)
    returns (m: string)
    requires names != {}
    ensures IsLast(fileName, modified, names, m)
  {
    m :| m in names;
    if names != {m} {
      var rest := names - {m};
      var k := LastExists(fileName, modified, rest);
      KeyTotal(KeyOf(fileName, modified, m), KeyOf(fileName, modified, k));
      if KeyLess(KeyOf(fileName, modified, k), KeyOf(fileName, modified, m)) {
        LastOfMore(fileName, modified, rest, k, m);
      } else {
        m := k;
      }
    }
  }

  lemma LastOfMore(fileName: string, modified: map<string, nat>, rest: set<string>, k: string, m: string)
    requires IsLast(fileName, modified, rest, k) && KeyLess(KeyOf(fileName, modified, k), KeyOf(fileName, modified, m))
    ensures forall x :: x in rest ==> KeyLess(KeyOf(fileName, modified, x), KeyOf(fileName, modified, m))
  {
    forall x | x in rest ensures KeyLess(KeyOf(fileName, modified, x), KeyOf(fileName, modified, m)) {
      if x != k {
        KeyTransitive(KeyOf(fileName, modified, x), KeyOf(fileName, modified, k), KeyOf(fileName, modified, m));
      }
    }
  }

  method Newest(fileName: string, modified: map<string, nat>, names: set<string>) returns (m: string)
    requires names != {}
    ensures IsLast(fileName, modified, names, m)
  {
    ghost var last := LastExists(fileName, modified, names);
    m :| m in names
      && forall x :: x in names ==> x == m || KeyLess(KeyOf(fileName, modified, x), KeyOf(fileName, modified, m));
  }

  /** Everything left is older than everything listed. */
  ghost predicate Precede(fileName: string, modified: map<string, nat>, names: seq<string>, left: set<string>) {
    forall i, x :: 0 <= i < |names| && x in left ==>
      KeyLess(KeyOf(fileName, modified, x), KeyOf(fileName, modified, names[i]))
  }

  lemma SortedNext(fileName: string, modified: map<string, nat>, names: seq<string>, left: set<string>, m: string)
    requires Sorted(fileName, modified, names) && Precede(fileName, modified, names, left)
    requires IsLast(fileName, modified, left, m)
    ensures Sorted(fileName, modified, names + [m]) && Precede(fileName, modified, names + [m], left - {m})
  {
  }

  /** `backup_bundle_candidates`: the directories with the backup prefix, newest first by the parsed
      time and process id, then by name; a name that does not parse ranks by its modification time. */
  method CandidateNames(fileName: string, modified: map<string, nat>) returns (names: seq<string>)
    ensures forall x :: x in names <==> x in modified && Prefix(fileName) <= x
    ensures Sorted(fileName, modified, names)
  {
    names := [];
    var left := set x | x in modified && Prefix(fileName) <= x;
    while left != {}
      invariant forall x :: x in modified && Prefix(fileName) <= x <==> x in names || x in left
      invariant Sorted(fileName, modified, names) && Precede(fileName, modified, names, left)
    {
      var m := Newest(fileName, modified, left);
      SortedNext(fileName, modified, names, left, m);
      names, left := names + [m], left - {m};
    }
  }

  // ----- Names and stamps -----

  predicate Fits(s: BundleRegister.Stamp) {
    s.nanos < U128_END && s.pid < U128_END
  }

  lemma NameKey(fileName: string, modified: map<string, nat>, s: BundleRegister.Stamp)
    requires Fits(s)
    ensures Prefix(fileName) <= BackupName(fileName, s)
    ensures KeyOf(fileName, modified, BackupName(fileName, s)) == Key(s.nanos, s.pid, BackupName(fileName, s))
  {
    BackupSuffixRoundTrip(Bak(s.pid, s.nanos));
    assert BackupName(fileName, s) == Prefix(fileName) + Stamp(Bak(s.pid, s.nanos));
  }

  /** Stamped names sort as their stamps do, and name one stamp each. */
  lemma NameOrderIsStampOrder(fileName: string, modified: map<string, nat>, a: BundleRegister.Stamp,
                              b: BundleRegister.Stamp)
    requires Fits(a) && Fits(b)
    ensures BundleRegister.Newer(b, a) <==>
      KeyLess(KeyOf(fileName, modified, BackupName(fileName, a)), KeyOf(fileName, modified, BackupName(fileName, b)))
    ensures BackupName(fileName, a) == BackupName(fileName, b) <==> a == b
  {
    NameKey(fileName, modified, a);
    NameKey(fileName, modified, b);
    StrLessIrreflexive(BackupName(fileName, a));
  }

  /** The directory entries that stand for the backups of the disk. */
  ghost predicate Shows(fileName: string, modified: map<string, nat>, disk: BundleRegister.Disk) {
    && (forall s :: BundleRegister.Backup(s) in disk ==> Fits(s))
    && forall x :: x in modified && Prefix(fileName) <= x <==>
      exists s :: BundleRegister.Backup(s) in disk && x == BackupName(fileName, s)
  }

  lemma {:induction false} SortedUnique(fileName: string, modified: map<string, nat>, a: seq<string>, b: seq<string>)
    requires Sorted(fileName, modified, a) && Sorted(fileName, modified, b) && forall x :: x in a <==> x in b
    ensures a == b
  {
    assert (a != [] ==> a[0] in a) && (b != [] ==> b[0] in b);
    if a != [] && b != [] {
      SameHead(fileName, modified, a, b);
      forall x ensures x in a[1..] <==> x in b[1..] {
        InTail(fileName, modified, a, x);
        InTail(fileName, modified, b, x);
      }
      SortedUnique(fileName, modified, a[1..], b[1..]);
      assert a == [a[0]] + a[1..] && b == [b[0]] + b[1..];
    }
  }

  lemma SameHead(fileName: string, modified: map<string, nat>, a: seq<string>, b: seq<string>)
    requires Sorted(fileName, modified, a) && Sorted(fileName, modified, b) && a != [] && b != []
    requires a[0] in b && b[0] in a
    ensures a[0] == b[0]
  {
    var i :| 0 <= i < |b| && b[i] == a[0];
    var j :| 0 <= j < |a| && a[j] == b[0];
    if i > 0 && j > 0 {
      KeyTransitive(KeyOf(fileName, modified, a[0]), KeyOf(fileName, modified, b[0]), KeyOf(fileName, modified, a[0]));
      KeyTotal(KeyOf(fileName, modified, a[0]), KeyOf(fileName, modified, a[0]));
    }
  }

  lemma InTail(fileName: string, modified: map<string, nat>, a: seq<string>, x: string)
    requires Sorted(fileName, modified, a) && a != []
    ensures x in a[1..] <==> x in a && x != a[0]
  {
    KeyTotal(KeyOf(fileName, modified, a[0]), KeyOf(fileName, modified, a[0]));
    if x in a && x != a[0] {
      var i :| 0 <= i < |a| && a[i] == x;
      assert a[1..][i - 1] == x;
    }
  }

  lemma NamedSorted(fileName: string, modified: map<string, nat>, disk: BundleRegister.Disk,
                    stamps: seq<BundleRegister.Stamp>,
                    named: seq<string>)
    requires Shows(fileName, modified, disk)
    requires forall s :: s in stamps <==> BundleRegister.Backup(s) in disk
    requires forall i, j :: 0 <= i < j < |stamps| ==> BundleRegister.Newer(stamps[i], stamps[j])
    requires |named| == |stamps| && forall i :: 0 <= i < |stamps| ==> named[i] == BackupName(fileName, stamps[i])
    ensures Sorted(fileName, modified, named) && forall x :: x in named <==> x in modified && Prefix(fileName) <= x
  {
    assert forall i :: 0 <= i < |stamps| ==> stamps[i] in stamps;
    forall i, j | 0 <= i < j < |named|
      ensures KeyLess(KeyOf(fileName, modified, named[j]), KeyOf(fileName, modified, named[i]))
    {
      NameOrderIsStampOrder(fileName, modified, stamps[j], stamps[i]);
    }
    forall x ensures x in named <==> x in modified && Prefix(fileName) <= x {
      if x in modified && Prefix(fileName) <= x {
        var s :| BundleRegister.Backup(s) in disk && x == BackupName(fileName, s);
        var i :| 0 <= i < |stamps| && stamps[i] == s;
        assert named[i] == x;
      }
    }
  }

  /** Sorting the names is sorting the stamps: recovery goes through the backups in the order in
      which `BundleRegister.Candidates` lists them. */
  lemma NamesAreChronological(fileName: string, modified: map<string, nat>, disk: BundleRegister.Disk,
                              stamps: seq<BundleRegister.Stamp>, names: seq<string>)
    requires Shows(fileName, modified, disk)
    requires forall s :: s in stamps <==> BundleRegister.Backup(s) in disk
    requires forall i, j :: 0 <= i < j < |stamps| ==> BundleRegister.Newer(stamps[i], stamps[j])
    requires Sorted(fileName, modified, names) && forall x :: x in names <==> x in modified && Prefix(fileName) <= x
    ensures |names| == |stamps| && forall i :: 0 <= i < |stamps| ==> names[i] == BackupName(fileName, stamps[i])
  {
    var named := seq(|stamps|, i requires 0 <= i < |stamps| => BackupName(fileName, stamps[i]));
    NamedSorted(fileName, modified, disk, stamps, named);
    SortedUnique(fileName, modified, names, named);
  }

  /** The names themselves do not sort that way: the digits are not padded. */
  lemma TextOrderIsNotChronological(fileName: string)
    ensures var older, newer := BundleRegister.Stamp(5, 9), BundleRegister.Stamp(6, 10);
            BundleRegister.Newer(newer, older) && StrLess(BackupName(fileName, newer), BackupName(fileName, older))
  {
    var older, newer := BundleRegister.Stamp(5, 9), BundleRegister.Stamp(6, 10);
    assert Decimal(9) == "9" && Decimal(10) == "10" && Decimal(5) == "5" && Decimal(6) == "6";
    assert BackupName(fileName, older) == Prefix(fileName) + "9-5";
    assert BackupName(fileName, newer) == Prefix(fileName) + "10-6";
    StrLessShared(Prefix(fileName), "10-6", "9-5");
  }
}
