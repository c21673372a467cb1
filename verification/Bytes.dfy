/** Byte strings: little-endian integers, concatenated sections and lexicographic order. */
module Bytes {
  import opened Wrappers

  type byte = x: int | 0 <= x < 256

  // ----- Little-endian integers -----

  function Pow256(n: nat): nat {
    if n == 0 then 1 else 256 * Pow256(n - 1)
  }

  lemma Widths()
    ensures Pow256(2) == U16_END && Pow256(4) == U32_END && Pow256(8) == U64_END
  {
    assert Pow256(2) == 256 * Pow256(1) == 65536;
    assert Pow256(4) == 256 * Pow256(3) == 256 * (256 * Pow256(2));
    assert Pow256(6) == 256 * Pow256(5) == 256 * (256 * Pow256(4));
    assert Pow256(8) == 256 * Pow256(7) == 256 * (256 * Pow256(6));
  }

  /** The `n` bytes of `to_le_bytes` (truncated as an `as` cast truncates), then `rest`. */
  function Put(n: nat, v: nat, rest: seq<byte>): (s: seq<byte>)
    ensures |s| == n + |rest|
  {
    if n == 0 then rest else [v % 256] + Put(n - 1, v / 256, rest)
  }

  // ----- Slices -----

  predicate SliceIs(bytes: seq<byte>, offset: nat, part: seq<byte>) {
    offset + |part| <= |bytes| && forall i :: 0 <= i < |part| ==> bytes[offset + i] == part[i]
  }

  lemma SliceEquals(bytes: seq<byte>, offset: nat, part: seq<byte>)
    ensures SliceIs(bytes, offset, part) <==>
      offset + |part| <= |bytes| && bytes[offset..offset + |part|] == part
  {
    if offset + |part| <= |bytes| {
      var slice := bytes[offset..offset + |part|];
      assert forall i :: 0 <= i < |part| ==> slice[i] == bytes[offset + i];
    }
  }

  /** `from_le_bytes` on the `n` bytes at `offset`. */
  function ReadLE(bytes: seq<byte>, offset: nat, n: nat): nat
    requires offset + n <= |bytes|
    decreases |bytes| - offset
  {
    if n == 0 then 0 else bytes[offset] + 256 * ReadLE(bytes, offset + 1, n - 1)
  }

  /** `le_u16_at`, `le_u32_at`, `le_u64_at` for `n` = 2, 4, 8. */
  function UintAt(bytes: seq<byte>, offset: nat, n: nat): Result<nat> {
    if offset + n <= |bytes| then Ok(ReadLE(bytes, offset, n)) else Err
  }

  lemma {:induction false} UintAtBound(bytes: seq<byte>, offset: nat, n: nat)
    requires offset + n <= |bytes|
    ensures UintAt(bytes, offset, n).Ok? && UintAt(bytes, offset, n).value < Pow256(n)
    decreases n
  {
    if n > 0 {
      UintAtBound(bytes, offset + 1, n - 1);
    }
  }

  lemma JoinSlices(bytes: seq<byte>, base: nat, p: seq<byte>, q: seq<byte>)
    ensures SliceIs(bytes, base, p + q) <==> SliceIs(bytes, base, p) && SliceIs(bytes, base + |p|, q)
  {
    if SliceIs(bytes, base, p + q) {
      forall i | 0 <= i < |p| ensures bytes[base + i] == p[i] { assert (p + q)[i] == p[i]; }
      forall i | 0 <= i < |q| ensures bytes[base + |p| + i] == q[i] {
        assert (p + q)[|p| + i] == q[i];
        assert bytes[base + (|p| + i)] == (p + q)[|p| + i];
      }
    }
    if SliceIs(bytes, base, p) && SliceIs(bytes, base + |p|, q) {
      forall i | 0 <= i < |p + q| ensures bytes[base + i] == (p + q)[i] {
        if i >= |p| {
          assert bytes[base + |p| + (i - |p|)] == q[i - |p|];
        }
      }
    }
  }

  lemma OneByte(bytes: seq<byte>, offset: nat, b: byte)
    ensures SliceIs(bytes, offset, [b]) <==> offset < |bytes| && bytes[offset] == b
  {
    var part := [b];
    assert part[0] == b;
    assert offset < |bytes| ==> bytes[offset + 0] == bytes[offset];
  }

  lemma Digits(b: byte, high: nat, v: nat)
    ensures b + 256 * high == v <==> b == v % 256 && high == v / 256
  {
  }

  lemma UintNext(bytes: seq<byte>, offset: nat, n: nat, v: nat)
    requires n > 0 && offset < |bytes|
    ensures UintAt(bytes, offset, n) == Ok(v) <==>
      bytes[offset] == v % 256 && UintAt(bytes, offset + 1, n - 1) == Ok(v / 256)
  {
    if offset + n <= |bytes| {
      Digits(bytes[offset], ReadLE(bytes, offset + 1, n - 1), v);
    }
  }

  /** An integer is read at an offset exactly when its encoding stands there. */
  lemma {:induction false} PutReads(bytes: seq<byte>, offset: nat, n: nat, v: nat, rest: seq<byte>)
    requires v < Pow256(n)
    ensures SliceIs(bytes, offset, Put(n, v, rest)) <==>
      UintAt(bytes, offset, n) == Ok(v) && SliceIs(bytes, offset + n, rest)
    decreases n
  {
    if n > 0 {
      JoinSlices(bytes, offset, [v % 256], Put(n - 1, v / 256, rest));
      PutReads(bytes, offset + 1, n - 1, v / 256, rest);
      OneByte(bytes, offset, v % 256);
      if offset < |bytes| {
        UintNext(bytes, offset, n, v);
      }
    }
  }

  // ----- The widths in use -----

  lemma Put2Reads(bytes: seq<byte>, offset: nat, v: u16, rest: seq<byte>)
    ensures SliceIs(bytes, offset, Put(2, v, rest)) <==>
      UintAt(bytes, offset, 2) == Ok(v) && SliceIs(bytes, offset + 2, rest)
  {
    Widths();
    PutReads(bytes, offset, 2, v, rest);
  }

  lemma Put4Reads(bytes: seq<byte>, offset: nat, v: u32, rest: seq<byte>)
    ensures SliceIs(bytes, offset, Put(4, v, rest)) <==>
      UintAt(bytes, offset, 4) == Ok(v) && SliceIs(bytes, offset + 4, rest)
  {
    Widths();
    PutReads(bytes, offset, 4, v, rest);
  }

  lemma Put8Reads(bytes: seq<byte>, offset: nat, v: u64, rest: seq<byte>)
    ensures SliceIs(bytes, offset, Put(8, v, rest)) <==>
      UintAt(bytes, offset, 8) == Ok(v) && SliceIs(bytes, offset + 8, rest)
  {
    Widths();
    PutReads(bytes, offset, 8, v, rest);
  }

  /** Five consecutive sections. */
  lemma JoinFive(bytes: seq<byte>, o0: nat, a: seq<byte>, b: seq<byte>, c: seq<byte>, d: seq<byte>, e: seq<byte>,
                 o1: nat, o2: nat, o3: nat, o4: nat)
    requires o1 == o0 + |a| && o2 == o1 + |b| && o3 == o2 + |c| && o4 == o3 + |d|
    ensures SliceIs(bytes, o0, a + (b + (c + (d + e)))) <==> (
      && SliceIs(bytes, o0, a) && SliceIs(bytes, o1, b) && SliceIs(bytes, o2, c)
      && SliceIs(bytes, o3, d) && SliceIs(bytes, o4, e))
  {
    JoinSlices(bytes, o0, a, b + (c + (d + e)));
    JoinSlices(bytes, o1, b, c + (d + e));
    JoinSlices(bytes, o2, c, d + e);
    JoinSlices(bytes, o3, d, e);
  }

  lemma WholeSlice(bytes: seq<byte>, part: seq<byte>)
    ensures bytes == part <==> |bytes| == |part| && SliceIs(bytes, 0, part)
  {
    SliceEquals(bytes, 0, part);
    assert bytes[0..|bytes|] == bytes;
  }

  // ----- Lexicographic order -----

  /** The order of `[u8]::cmp`. */
  predicate LexLess(a: seq<byte>, b: seq<byte>) {
    if b == [] then false
    else if a == [] then true
    else if a[0] != b[0] then a[0] < b[0]
    else LexLess(a[1..], b[1..])
  }

  lemma {:induction false} LexTransitive(a: seq<byte>, b: seq<byte>, c: seq<byte>)
    requires LexLess(a, b) && LexLess(b, c)
    ensures LexLess(a, c)
  {
    if a != [] && a[0] == b[0] == c[0] {
      LexTransitive(a[1..], b[1..], c[1..]);
    }
  }

  lemma {:induction false} LexTotal(a: seq<byte>, b: seq<byte>)
    ensures !(LexLess(a, b) && LexLess(b, a)) && (LexLess(a, b) || LexLess(b, a) || a == b)
    ensures !LexLess(a, a)
  {
    if a != [] && b != [] {
      LexTotal(a[1..], b[1..]);
      assert a == [a[0]] + a[1..] && b == [b[0]] + b[1..];
    }
    if a != [] {
      LexIrreflexive(a);
    }
  }

  lemma {:induction false} LexIrreflexive(a: seq<byte>)
    ensures !LexLess(a, a)
  {
    if a != [] {
      LexIrreflexive(a[1..]);
    }
  }

  ghost predicate StrictlySorted(terms: seq<seq<byte>>) {
    forall i, j :: 0 <= i < j < |terms| ==> LexLess(terms[i], terms[j])
  }

  lemma SortedSnoc(terms: seq<seq<byte>>, t: seq<byte>)
    requires StrictlySorted(terms)
    ensures StrictlySorted(terms + [t]) <==> terms == [] || LexLess(terms[|terms| - 1], t)
  {
    var longer := terms + [t];
    if terms != [] {
      var last := |terms| - 1;
      assert longer[last] == terms[last] && longer[|terms|] == t;
      if LexLess(terms[last], t) {
        forall i | 0 <= i < |terms| ensures LexLess(terms[i], t) {
          if i < last {
            LexTransitive(terms[i], terms[last], t);
          }
        }
      }
    }
  }
}
