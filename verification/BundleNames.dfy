/** Names on disk: generation directories, scratch and backup decorations, and their parsers. */
module BundleNames {
  import opened Wrappers

  // ----- Decimal numbers -----

  function DigitChar(d: nat): char
    requires d < 10
  {
    '0' + d as char
  }

  predicate IsDigit(c: char) {
    '0' <= c <= '9'
  }

  predicate AllDigits(s: string) {
    forall i :: 0 <= i < |s| ==> IsDigit(s[i])
  }

  function DigitValue(c: char): nat
    requires IsDigit(c)
  {
    c as int - '0' as int
  }

  /** `{}` of an unsigned integer. */
  function Decimal(n: nat): string {
    if n < 10 then [DigitChar(n)] else Decimal(n / 10) + [DigitChar(n % 10)]
  }

  /** The low `width` digits, padded with zeros; `{:012}` for ids below 10^12. */
  function Padded(n: nat, width: nat): string {
    if width == 0 then [] else Padded(n / 10, width - 1) + [DigitChar(n % 10)]
  }

  function ParseDigits(s: string): nat
    requires AllDigits(s)
  {
    if s == [] then 0 else 10 * ParseDigits(s[..|s| - 1]) + DigitValue(s[|s| - 1])
  }

  lemma ParseSnoc(s: string, d: nat)
    requires AllDigits(s) && d < 10
    ensures AllDigits(s + [DigitChar(d)]) && ParseDigits(s + [DigitChar(d)]) == 10 * ParseDigits(s) + d
  {
    assert (s + [DigitChar(d)])[..|s|] == s;
  }

  lemma {:induction false} DecimalParses(n: nat)
    ensures Decimal(n) != [] && AllDigits(Decimal(n)) && ParseDigits(Decimal(n)) == n
  {
    if n < 10 {
      ParseSnoc([], n);
      assert [] + [DigitChar(n)] == Decimal(n);
    } else {
      DecimalParses(n / 10);
      ParseSnoc(Decimal(n / 10), n % 10);
    }
  }

  function Pow10(n: nat): nat {
    if n == 0 then 1 else 10 * Pow10(n - 1)
  }

  lemma {:induction false} PaddedParses(n: nat, width: nat)
    requires n < Pow10(width)
    ensures |Padded(n, width)| == width && AllDigits(Padded(n, width)) && ParseDigits(Padded(n, width)) == n
    decreases width
  {
    if width > 0 {
      PaddedParses(n / 10, width - 1);
      ParseSnoc(Padded(n / 10, width - 1), n % 10);
    }
  }

  lemma {:induction false} DigitsArePadded(s: string)
    requires AllDigits(s)
    ensures ParseDigits(s) < Pow10(|s|) && Padded(ParseDigits(s), |s|) == s
  {
    if s != [] {
      var k := |s| - 1;
      DigitsArePadded(s[..k]);
      assert s == s[..k] + [s[k]];
      var v := ParseDigits(s[..k]);
      assert (10 * v + DigitValue(s[k])) / 10 == v && (10 * v + DigitValue(s[k])) % 10 == DigitValue(s[k]);
      assert DigitChar(DigitValue(s[k])) == s[k];
    }
  }

  // ----- Searching -----

  predicate OccursAt(s: string, i: nat, pattern: string) {
    i + |pattern| <= |s| && s[i..i + |pattern|] == pattern
  }

  /** First occurrence at or after `i`. */
  function FindFrom(s: string, i: nat, pattern: string): (r: Option<nat>)
    ensures r.Some? ==> i <= r.value && OccursAt(s, r.value, pattern) && forall j :: i <= j < r.value ==>
      !OccursAt(s, j, pattern)
    ensures r.None? ==> forall j :: i <= j ==> !OccursAt(s, j, pattern)
    decreases |s| - i
  {
    if i > |s| then None
    else if OccursAt(s, i, pattern) then Some(i)
    else if i == |s| then None
    else FindFrom(s, i + 1, pattern)
  }

  /** `str::split_once` */
  function SplitOnce(s: string, pattern: string): Option<(string, string)> {
    match FindFrom(s, 0, pattern)
    case Some(i) => Some((s[..i], s[i + |pattern|..]))
    case None => None
  }

  predicate Contains(s: string, pattern: string) {
    exists i :: 0 <= i <= |s| && OccursAt(s, i, pattern)
  }

  /** `trim_start_matches('.')` */
  function TrimDots(s: string): (r: string)
    ensures r == [] || r[0] != '.'
  {
    if s != [] && s[0] == '.' then TrimDots(s[1..]) else s
  }

  // ----- Decorations -----

  const TMP: string := ".tmp-"
  const BAK: string := ".bak-"

  datatype Mark = Tmp(pid: nat, nanos: nat) | Bak(pid: nat, nanos: nat)

  function Tag(m: Mark): string {
    if m.Tmp? then TMP else BAK
  }

  function Stamp(m: Mark): string {
    Decimal(m.pid) + "-" + Decimal(m.nanos)
  }

  /** `.{name}.tmp-{pid}-{nanos}` or `.{name}.bak-{pid}-{nanos}` */
  function Decorate(name: string, m: Mark): string {
    "." + name + Tag(m) + Stamp(m)
  }

  /** Decorations applied one after the other, the first of `marks` innermost. */
  function Decorated(name: string, marks: seq<Mark>): string
    decreases |marks|
  {
    if marks == [] then name else Decorated(Decorate(name, marks[0]), marks[1..])
  }

  /** `canonical_bundle_name` */
  function CanonicalName(fileName: string): string {
    var trimmed := TrimDots(fileName);
    if |trimmed| == |fileName| then fileName
    else
      match SplitOnce(trimmed, TMP)
      case Some(parts) => if parts.0 != [] && parts.1 != [] then parts.0 else fileName
      case None => fileName
  }

  function Tails(marks: seq<Mark>): string {
    if marks == [] then [] else Tag(marks[0]) + Stamp(marks[0]) + Tails(marks[1..])
  }

  function Dots(n: nat): string {
    if n == 0 then [] else "." + Dots(n - 1)
  }

  lemma {:induction false} DotsSnoc(n: nat)
    ensures Dots(n) + "." == "." + Dots(n) && |Dots(n)| == n
  {
    if n > 0 {
      DotsSnoc(n - 1);
      assert Dots(n) + "." == "." + (Dots(n - 1) + ".");
    }
  }

  lemma MoveDot(dots: string, name: string, tag: string, rest: string)
    requires dots + "." == "." + dots
    ensures dots + (("." + name + tag) + rest) == ("." + dots) + (name + (tag + rest))
  {
    assert dots + (("." + name + tag) + rest) == (dots + ".") + (name + (tag + rest));
  }

  /** A stack is its dots, the bare name and its tags in order. */
  lemma {:induction false} DecoratedShape(name: string, marks: seq<Mark>)
    ensures Decorated(name, marks) == Dots(|marks|) + (name + Tails(marks))
    decreases |marks|
  {
    if marks == [] {
      assert name + Tails(marks) == name;
    } else {
      var k := |marks| - 1;
      var tag := Tag(marks[0]) + Stamp(marks[0]);
      DecoratedShape(Decorate(name, marks[0]), marks[1..]);
      DotsSnoc(k);
      assert Decorate(name, marks[0]) == "." + name + tag;
      MoveDot(Dots(k), name, tag, Tails(marks[1..]));
    }
  }

  lemma {:induction false} TrimStack(n: nat, s: string)
    ensures TrimDots(Dots(n) + s) == TrimDots(s)
  {
    if n > 0 {
      TrimStack(n - 1, s);
      assert (Dots(n) + s)[1..] == Dots(n - 1) + s;
    } else {
      assert Dots(0) + s == s;
    }
  }

  // ----- First occurrence of a tag -----

  /** A tag starts with a dot and has no other, so it cannot straddle the end of `name`. */
  lemma NoStraddle(name: string, tag: string, rest: string, pattern: string, i: nat)
    requires (tag == TMP || tag == BAK) && (pattern == TMP || pattern == BAK)
    requires i < |name| && OccursAt(name + (tag + rest), i, pattern)
    ensures OccursAt(name, i, pattern)
  {
    var s := name + (tag + rest);
    var window := s[i..i + 5];
    assert forall k :: i <= k < i + 5 ==> s[k] == window[k - i];
    assert s[|name|] == '.' && forall k :: 1 <= k < 5 ==> pattern[k] != '.';
    assert i + 5 <= |name|;
    assert s[i..i + 5] == name[i..i + 5];
  }

  /** The first tag of `name` + tag is that tag when `name` has none. */
  lemma FirstTag(name: string, tag: string, rest: string)
    requires (tag == TMP || tag == BAK) && !Contains(name, tag)
    ensures SplitOnce(name + (tag + rest), tag) == Some((name, rest))
  {
    var s := name + (tag + rest);
    assert s[|name|..|name| + 5] == tag;
    assert OccursAt(s, |name|, tag);
    forall i | 0 <= i < |name| ensures !OccursAt(s, i, tag) {
      if OccursAt(s, i, tag) {
        NoStraddle(name, tag, rest, tag, i);
        assert false;
      }
    }
    assert s[..|name|] == name && s[|name| + 5..] == rest;
  }

  lemma SplitIsShorter(name: string, tag: string, rest: string)
    requires (tag == TMP || tag == BAK) && Contains(name, tag)
    ensures SplitOnce(name + (tag + rest), tag).Some? && |SplitOnce(name + (tag + rest), tag).value.0| < |name|
  {
    var s := name + (tag + rest);
    var i :| 0 <= i <= |name| && OccursAt(name, i, tag);
    assert s[i..i + 5] == name[i..i + 5];
    assert OccursAt(s, i, tag);
  }

  lemma StampNotEmpty(m: Mark)
    ensures Stamp(m) != []
  {
    DecimalParses(m.pid);
  }

  ghost predicate Plain(name: string) {
    name != [] && name[0] != '.' && !Contains(name, TMP)
  }

  lemma {:induction false} TrimIdentity(s: string)
    requires s == [] || s[0] != '.'
    ensures TrimDots(s) == s
  {
  }

  ghost predicate AllTmp(marks: seq<Mark>) {
    forall i :: 0 <= i < |marks| ==> marks[i].Tmp?
  }

  // ----- Scratch names -----

  lemma ScratchTrimmed(name: string, marks: seq<Mark>)
    requires name != [] && name[0] != '.'
    ensures TrimDots(Decorated(name, marks)) == name + Tails(marks)
    ensures |Decorated(name, marks)| == |marks| + |name + Tails(marks)|
  {
    DecoratedShape(name, marks);
    TrimStack(|marks|, name + Tails(marks));
    TrimIdentity(name + Tails(marks));
    DotsSnoc(|marks|);
  }

  lemma TailsSplit(name: string, marks: seq<Mark>)
    requires marks != []
    ensures name + Tails(marks) == name + (Tag(marks[0]) + (Stamp(marks[0]) + Tails(marks[1..])))
    ensures Stamp(marks[0]) + Tails(marks[1..]) != []
  {
    StampNotEmpty(marks[0]);
    assert Tails(marks) == Tag(marks[0]) + (Stamp(marks[0]) + Tails(marks[1..]));
  }

  lemma CanonicalIsShort(name: string, marks: seq<Mark>)
    requires marks != [] && (name == [] || name[0] == '.')
    ensures CanonicalName(Decorated(name, marks)) != name
  {
    DecoratedShape(name, marks);
    DotsSnoc(|marks|);
  }

  /** A stack of scratch decorations is undone exactly when the bare name is non-empty, has no
      leading dot and does not itself contain the scratch tag. */
  lemma CanonicalUndoesScratch(name: string, marks: seq<Mark>)
    requires marks != [] && AllTmp(marks)
    ensures CanonicalName(Decorated(name, marks)) == name <==> Plain(name)
  {
    if name == [] || name[0] == '.' {
      CanonicalIsShort(name, marks);
    } else {
      ScratchTrimmed(name, marks);
      TailsSplit(name, marks);
      var rest := Stamp(marks[0]) + Tails(marks[1..]);
      if Contains(name, TMP) {
        SplitIsShorter(name, TMP, rest);
      } else {
        FirstTag(name, TMP, rest);
      }
    }
  }

  /** `temp_bundle_path`: scratch names of scratch names do not stack. */
  function TempName(fileName: string, pid: nat, nanos: nat): string {
    Decorate(CanonicalName(fileName), Tmp(pid, nanos))
  }

  lemma TempNamesDoNotStack(name: string, marks: seq<Mark>, pid: nat, nanos: nat)
    requires Plain(name) && marks != [] && AllTmp(marks)
    ensures TempName(Decorated(name, marks), pid, nanos) == Decorated(name, [Tmp(pid, nanos)])
  {
    CanonicalUndoesScratch(name, marks);
    assert Decorated(Decorate(name, Tmp(pid, nanos)), []) == Decorate(name, Tmp(pid, nanos));
    assert [Tmp(pid, nanos)][1..] == [];
  }

  // ----- Backup suffixes -----

  /** `parse_backup_suffix`: `(nanos, pid)` */
  function ParseBackupSuffix(suffix: string): Option<(nat, nat)> {
    match SplitOnce(suffix, "-")
    case None => None
    case Some(parts) =>
      if parts.0 == [] || parts.1 == [] || !AllDigits(parts.0) || !AllDigits(parts.1) then None
      else if ParseDigits(parts.1) >= U128_END || ParseDigits(parts.0) >= U128_END then None
      else Some((ParseDigits(parts.1), ParseDigits(parts.0)))
  }

  lemma SplitAtDash(a: string, b: string)
    requires AllDigits(a)
    ensures SplitOnce(a + "-" + b, "-") == Some((a, b))
  {
    var s := a + "-" + b;
    assert s[|a|..|a| + 1] == "-";
    assert OccursAt(s, |a|, "-");
    forall i | 0 <= i < |a| ensures !OccursAt(s, i, "-") {
      assert s[i..i + 1][0] == a[i] && IsDigit(a[i]);
    }
    assert s[..|a|] == a && s[|a| + 1..] == b;
  }

  /** Formatting then parsing a backup stamp returns it, with the time first. */
  lemma BackupSuffixRoundTrip(m: Mark)
    requires m.pid < U128_END && m.nanos < U128_END
    ensures ParseBackupSuffix(Stamp(m)) == Some((m.nanos, m.pid))
  {
    DecimalParses(m.pid);
    DecimalParses(m.nanos);
    SplitAtDash(Decimal(m.pid), Decimal(m.nanos));
  }

  // ----- Generation names -----

  const ID_WIDTH: nat := 12

  /** `g{id:012}.odb` */
  function GenerationName(id: nat): string {
    "g" + Padded(id, ID_WIDTH) + ".odb"
  }

  /** `parse_generation_dir` */
  function ParseGenerationDir(name: string): Option<nat> {
    if |name| < 5 || name[0] != 'g' || name[|name| - 4..] != ".odb" then None
    else
      var digits := name[1..|name| - 4];
      if |digits| != ID_WIDTH || !AllDigits(digits) then None
      else if ParseDigits(digits) > 0 then Some(ParseDigits(digits)) else None
  }

  lemma GenerationNameParses(id: nat)
    requires 0 < id < Pow10(ID_WIDTH)
    ensures |GenerationName(id)| == 17 && ParseGenerationDir(GenerationName(id)) == Some(id)
  {
    PaddedParses(id, ID_WIDTH);
    assert GenerationName(id)[1..13] == Padded(id, ID_WIDTH);
  }

  /** Each id has one name: only its own formatting parses to it. */
  lemma ParsedIsGenerationName(name: string)
    requires ParseGenerationDir(name).Some?
    ensures var id := ParseGenerationDir(name).value; 0 < id < Pow10(ID_WIDTH) && name == GenerationName(id)
  {
    var digits := name[1..|name| - 4];
    DigitsArePadded(digits);
    assert name == "g" + digits + ".odb";
  }

  lemma GenerationNamePlain(id: nat)
    requires 0 < id < Pow10(ID_WIDTH)
    ensures Plain(GenerationName(id)) && !Contains(GenerationName(id), BAK)
  {
    PaddedParses(id, ID_WIDTH);
    var name := GenerationName(id);
    forall i, p | 0 <= i <= |name| && (p == TMP || p == BAK) ensures !OccursAt(name, i, p) {
      if i + 5 <= |name| {
        assert name[i..i + 5][0] == name[i];
        assert 1 <= i < 13 ==> name[i] == Padded(id, ID_WIDTH)[i - 1];
      }
    }
  }

  // ----- Debris -----

  /** `parse_generation_debris_name` */
  function ParseDebris(name: string): Option<nat> {
    var trimmed := TrimDots(name);
    if |trimmed| == |name| then None
    else
      var parts := if SplitOnce(trimmed, TMP).Some? then SplitOnce(trimmed, TMP) else SplitOnce(trimmed, BAK);
      if parts.None? || parts.value.1 == [] then None else ParseGenerationDir(parts.value.0)
  }

  ghost predicate NoTmp(marks: seq<Mark>) {
    forall i :: 0 <= i < |marks| ==> marks[i].Bak?
  }

  lemma StampHasNoDot(m: Mark)
    ensures forall i :: 0 <= i < |Stamp(m)| ==> Stamp(m)[i] != '.'
  {
    DecimalParses(m.pid);
    DecimalParses(m.nanos);
  }

  lemma BackupAddsNoTmp(name: string, m: Mark)
    requires m.Bak? && !Contains(name, TMP)
    ensures !Contains(name + (BAK + Stamp(m)), TMP)
  {
    var s := name + (BAK + Stamp(m));
    StampHasNoDot(m);
    forall i | 0 <= i <= |s| ensures !OccursAt(s, i, TMP) {
      if OccursAt(s, i, TMP) {
        assert s[i..i + 5][0] == s[i] && s[i..i + 5][1] == s[i + 1];
        if i < |name| {
          NoStraddle(name, BAK, Stamp(m), TMP, i);
        }
        assert false;
      }
    }
  }

  lemma Reassociate(a: string, b: string, c: string, d: string)
    ensures a + (b + c + d) == (a + (b + c)) + d
  {
  }

  lemma {:induction false} BackupsAddNoTmp(name: string, marks: seq<Mark>)
    requires NoTmp(marks) && !Contains(name, TMP)
    ensures !Contains(name + Tails(marks), TMP)
    decreases |marks|
  {
    if marks == [] {
      assert name + Tails(marks) == name;
    } else {
      BackupAddsNoTmp(name, marks[0]);
      BackupsAddNoTmp(name + (BAK + Stamp(marks[0])), marks[1..]);
      Reassociate(name, BAK, Stamp(marks[0]), Tails(marks[1..]));
      assert Tails(marks) == BAK + Stamp(marks[0]) + Tails(marks[1..]);
    }
  }

  lemma ContainsLater(before: string, s: string, pattern: string)
    requires Contains(s, pattern)
    ensures Contains(before + s, pattern)
  {
    var i :| 0 <= i <= |s| && OccursAt(s, i, pattern);
    assert (before + s)[|before| + i..|before| + i + |pattern|] == s[i..i + |pattern|];
    assert OccursAt(before + s, |before| + i, pattern);
  }

  lemma {:induction false} TmpInTails(marks: seq<Mark>)
    requires !NoTmp(marks)
    ensures Contains(Tails(marks), TMP)
  {
    if marks[0].Tmp? {
      assert Tails(marks)[0..5] == TMP;
      assert OccursAt(Tails(marks), 0, TMP);
    } else {
      TmpInTails(marks[1..]);
      ContainsLater(BAK + Stamp(marks[0]), Tails(marks[1..]), TMP);
    }
  }

  /** A scratch tag after a backup tag: what precedes it is no generation name. */
  lemma TmpAfterBackup(name: string, rest: string)
    requires |name| == 17 && !Contains(name, TMP) && Contains(name + (BAK + rest), TMP)
    ensures var parts := SplitOnce(name + (BAK + rest), TMP); parts.Some? && ParseGenerationDir(parts.value.0) == None
  {
    var s := name + (BAK + rest);
    var i := FindFrom(s, 0, TMP).value;
    if i < |name| {
      NoStraddle(name, BAK, rest, TMP, i);
      assert false;
    }
    assert s[i..i + 5][1] == s[i + 1];
    assert i > 17;
  }

  /** Which stacks on a generation name give its id back: those whose innermost decoration is a
      scratch tag, and those with backup tags only. A scratch tag outside a backup tag hides it. */
  lemma DebrisRecoversId(id: nat, marks: seq<Mark>)
    requires 0 < id < Pow10(ID_WIDTH) && marks != []
    ensures ParseDebris(Decorated(GenerationName(id), marks)) ==
      if marks[0].Tmp? || NoTmp(marks) then Some(id) else None
    ensures ParseGenerationDir(Decorated(GenerationName(id), marks)) == None
  {
    var name := GenerationName(id);
    GenerationNameParses(id);
    GenerationNamePlain(id);
    ScratchTrimmed(name, marks);
    TailsSplit(name, marks);
    DecoratedShape(name, marks);
    var rest := Stamp(marks[0]) + Tails(marks[1..]);
    if marks[0].Tmp? {
      FirstTag(name, TMP, rest);
    } else if NoTmp(marks) {
      BackupsAddNoTmp(name, marks);
      assert SplitOnce(name + Tails(marks), TMP) == None;
      FirstTag(name, BAK, rest);
    } else {
      TmpInTails(marks);
      ContainsLater(name, Tails(marks), TMP);
      TmpAfterBackup(name, rest);
    }
  }

  /** Debris never carries the name of a committed generation. */
  lemma DebrisIsNotCommitted(name: string)
    ensures ParseDebris(name).None? || ParseGenerationDir(name).None?
  {
    if ParseGenerationDir(name).Some? {
      TrimIdentity(name);
    }
  }

  // ----- Name order -----

  /** The order of `str::cmp`. */
  predicate StrLess(a: string, b: string) {
    if b == [] then false
    else if a == [] then true
    else if a[0] != b[0] then a[0] < b[0]
    else StrLess(a[1..], b[1..])
  }

  lemma {:induction false} StrLessSnoc(a: string, b: string, x: char, y: char)
    requires |a| == |b|
    ensures StrLess(a + [x], b + [y]) <==> StrLess(a, b) || (a == b && x < y)
  {
    if a == [] {
      assert a + [x] == [x] && b + [y] == [y];
    } else {
      assert (a + [x])[1..] == a[1..] + [x] && (b + [y])[1..] == b[1..] + [y];
      assert a == [a[0]] + a[1..] && b == [b[0]] + b[1..];
      StrLessSnoc(a[1..], b[1..], x, y);
    }
  }

  lemma {:induction false} StrLessShared(p: string, a: string, b: string)
    ensures StrLess(p + a, p + b) <==> StrLess(a, b)
  {
    if p == [] {
      assert p + a == a && p + b == b;
    } else {
      assert (p + a)[1..] == p[1..] + a && (p + b)[1..] == p[1..] + b;
      StrLessShared(p[1..], a, b);
    }
  }

  lemma {:induction false} StrLessSuffix(a: string, b: string, q: string)
    requires |a| == |b| && a != b
    ensures StrLess(a + q, b + q) <==> StrLess(a, b)
  {
    if a != [] {
      assert (a + q)[1..] == a[1..] + q && (b + q)[1..] == b[1..] + q;
      if a[0] == b[0] {
        assert a == [a[0]] + a[1..] && b == [b[0]] + b[1..];
        StrLessSuffix(a[1..], b[1..], q);
      }
    }
  }

  lemma {:induction false} PaddedOrder(m: nat, n: nat, width: nat)
    requires m < Pow10(width) && n < Pow10(width)
    ensures StrLess(Padded(m, width), Padded(n, width)) <==> m < n
    decreases width
  {
    if width > 0 {
      PaddedOrder(m / 10, n / 10, width - 1);
      PaddedParses(m / 10, width - 1);
      PaddedParses(n / 10, width - 1);
      StrLessSnoc(Padded(m / 10, width - 1), Padded(n / 10, width - 1), DigitChar(m % 10), DigitChar(n % 10));
    }
  }

  /** Names sort as their ids do: twelve padded digits make text order numeric order. */
  lemma GenerationNameOrder(m: nat, n: nat)
    requires m < Pow10(ID_WIDTH) && n < Pow10(ID_WIDTH)
    ensures StrLess(GenerationName(m), GenerationName(n)) <==> m < n
  {
    var a, b := Padded(m, ID_WIDTH), Padded(n, ID_WIDTH);
    PaddedOrder(m, n, ID_WIDTH);
    PaddedParses(m, ID_WIDTH);
    PaddedParses(n, ID_WIDTH);
    assert GenerationName(m) == "g" + (a + ".odb") && GenerationName(n) == "g" + (b + ".odb");
    StrLessShared("g", a + ".odb", b + ".odb");
    if m != n {
      StrLessSuffix(a, b, ".odb");
    } else {
      StrLessIrreflexive(a + ".odb");
    }
  }

  lemma {:induction false} StrLessIrreflexive(a: string)
    ensures !StrLess(a, a)
  {
    if a != [] {
      StrLessIrreflexive(a[1..]);
    }
  }
}
