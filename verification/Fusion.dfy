/** Ranked batches and reciprocal rank fusion. */
module Fusion {
  import opened Wrappers
  import opened Floats
  import opened Ranking

  // ----- Normal form of a ranked list -----

  /** For every id of `s`, its best row: none with the same id comes strictly before it. */
  ghost function Best(s: seq<ScoredRow>): set<ScoredRow> {
    set r | r in s && forall q :: q in s && q.id == r.id ==> !Before(q, r)
  }

  ghost function NormalForm(s: seq<ScoredRow>): (r: seq<ScoredRow>)
    ensures Ranked(r) && Lists(r, Best(s)) && DistinctIds(r)
  {
    ScoredRowsSeparated(Best(s));
    var r := RankingOf(Best(s));
    BestHasDistinctIds(s, r);
    r
  }

  lemma BestHasDistinctIds(s: seq<ScoredRow>, r: seq<ScoredRow>)
    requires Ranked(r) && Lists(r, Best(s))
    ensures DistinctIds(r)
  {
    forall i, j | 0 <= i < j < |r| ensures r[i].id != r[j].id {
      assert Before(r[i], r[j]) && r[i] in r && r[j] in r;
    }
  }

  ghost function Ids<T>(s: seq<Row<T>>): set<u64> {
    set r | r in s :: r.id
  }

  predicate AllFinite(s: seq<ScoredRow>) {
    forall r :: r in s ==> IsFinite(r.score)
  }

  ghost predicate DistinctIds<T>(s: seq<Row<T>>) {
    forall i, j :: 0 <= i < j < |s| ==> s[i].id != s[j].id
  }

  lemma {:induction false} BestExists(s: seq<ScoredRow>, r: ScoredRow) returns (b: ScoredRow)
    requires r in s
    ensures b in Best(s) && b.id == r.id && !Before(r, b)
  {
    var mine := set q | q in s && q.id == r.id;
    assert r in mine;
    ScoredRowsSeparated(mine);
    b := FirstExists(mine);
    forall q | q in s && q.id == b.id ensures !Before(q, b) {
      assert q in mine;
    }
  }

  /** The normal form keeps every id, once, and with its best score. */
  lemma NormalFormKeepsBest(s: seq<ScoredRow>)
    ensures Ids(NormalForm(s)) == Ids(s)
    ensures forall r, q :: r in s && q in NormalForm(s) && q.id == r.id ==> q == r || Before(q, r)
  {
    var n := NormalForm(s);
    forall id | id in Ids(s) ensures id in Ids(n) {
      var r :| r in s && r.id == id;
      var b := BestExists(s, r);
      assert b in n;
    }
    forall r, q | r in s && q in n && q.id == r.id ensures q == r || Before(q, r) {
      assert q in Best(s);
      ScoredRowsSeparated({q, r});
      assert TotalKey(q.score) == TotalKey(r.score) ==> q.score == r.score;
    }
  }

  /** Only the set of rows matters: any permutation, and any repetition, normalizes alike. */
  lemma NormalFormIgnoresOrder(s: seq<ScoredRow>, t: seq<ScoredRow>)
    requires forall r :: r in s <==> r in t
    ensures NormalForm(s) == NormalForm(t)
  {
    assert Best(s) == Best(t);
  }

  /** A list with distinct ids is its own set of best rows. */
  lemma BestOfDistinct(s: seq<ScoredRow>)
    requires DistinctIds(s)
    ensures Lists(s, Best(s))
  {
    forall r | r in s ensures r in Best(s) {
      forall q | q in s && q.id == r.id ensures !Before(q, r) {
        var i :| 0 <= i < |s| && s[i] == r;
        var j :| 0 <= j < |s| && s[j] == q;
      }
    }
  }

  lemma NormalFormIdempotent(s: seq<ScoredRow>)
    ensures NormalForm(NormalForm(s)) == NormalForm(s)
  {
    NormalFormKeepsBest(s);
    BestOfDistinct(NormalForm(s));
    RankedUnique(NormalForm(NormalForm(s)), NormalForm(s), Best(NormalForm(s)));
  }

  /** A list is its own normal form exactly when it is sorted and repeats no id. */
  lemma NormalFormFixedPoint(s: seq<ScoredRow>)
    ensures s == NormalForm(s) <==> Sorted(s) && DistinctIds(s)
  {
    if s == NormalForm(s) {
      NormalFormKeepsBest(s);
    }
    if Sorted(s) && DistinctIds(s) {
      SortedDistinctIsRanked(s);
      BestOfDistinct(s);
      RankedUnique(s, NormalForm(s), Best(s));
    }
  }

  lemma IdsSnoc<T>(s: seq<Row<T>>, x: Row<T>)
    ensures Ids(s + [x]) == Ids(s) + {x.id}
  {
    assert x in s + [x];
    forall r | r in s ensures r in s + [x] {}
  }

  /** What one compaction pass keeps: the first row of each id. */
  ghost function FirstPerId(s: seq<ScoredRow>): (r: seq<ScoredRow>)
    ensures Ids(r) == Ids(s) && |r| <= |s|
  {
    if s == [] then []
    else
      var k := |s| - 1;
      var r := FirstPerId(s[..k]);
      IdsSnoc(s[..k], s[k]);
      IdsSnoc(r, s[k]);
      assert s == s[..k] + [s[k]];
      if s[k].id in Ids(r) then r else r + [s[k]]
  }

  lemma {:induction false} FirstPerIdComesFirst(s: seq<ScoredRow>, b: ScoredRow)
    requires Sorted(s) && b in FirstPerId(s)
    ensures b in Best(s)
  {
    var k := |s| - 1;
    var r := FirstPerId(s[..k]);
    assert s == s[..k] + [s[k]];
    if b in r {
      FirstPerIdComesFirst(s[..k], b);
      var j :| 0 <= j < k && s[j] == b;
      assert !Before(s[k], s[j]);
    } else {
      forall q | q in s && q.id == b.id ensures !Before(q, b) {
        var front := s[..k];
        assert q == s[k] || q in front;
        assert q in front ==> q.id in Ids(front);
      }
    }
  }

  lemma {:induction false} FirstPerIdRanked(s: seq<ScoredRow>)
    requires Sorted(s)
    ensures Ranked(FirstPerId(s))
  {
    if s != [] {
      var k := |s| - 1;
      FirstPerIdRanked(s[..k]);
      var r := FirstPerId(s[..k]);
      if s[k].id !in Ids(r) {
        forall b | b in r ensures Before(b, s[k]) {
          KeptComesBefore(s, b);
        }
        RankedSnoc(r, s[k]);
      }
    }
  }

  lemma KeptComesBefore(s: seq<ScoredRow>, b: ScoredRow)
    requires Sorted(s) && s != [] && b in FirstPerId(s[..|s| - 1]) && s[|s| - 1].id !in Ids(FirstPerId(s[..|s| - 1]))
    ensures Before(b, s[|s| - 1])
  {
    var k := |s| - 1;
    FirstPerIdComesFirst(s[..k], b);
    var j :| 0 <= j < k && s[j] == b;
    assert !Before(s[k], s[j]) && b.id in Ids(FirstPerId(s[..k]));
  }

  lemma RankedSnoc(r: seq<ScoredRow>, x: ScoredRow)
    requires Ranked(r) && forall b :: b in r ==> Before(b, x)
    ensures Ranked(r + [x])
  {
    forall i | 0 <= i < |r| ensures Before(r[i], x) {
      assert r[i] in r;
    }
  }

  lemma FirstPerIdIsNormalForm(s: seq<ScoredRow>)
    requires Sorted(s)
    ensures FirstPerId(s) == NormalForm(s)
  {
    var r := FirstPerId(s);
    forall b | b in r ensures b in Best(s) { FirstPerIdComesFirst(s, b); }
    forall b | b in Best(s) ensures b in r {
      assert b.id in Ids(s);
      var c :| c in r && c.id == b.id;
      FirstPerIdComesFirst(s, c);
      ScoredRowsSeparated({b, c});
      assert TotalKey(b.score) == TotalKey(c.score) ==> b.score == c.score;
    }
    FirstPerIdRanked(s);
    RankedUnique(r, NormalForm(s), Best(s));
  }

  lemma SameRows<T>(a: seq<Row<T>>, b: seq<Row<T>>)
    requires multiset(a) == multiset(b)
    ensures |a| == |b| && (forall r :: r in a ==> r in b) && (forall r :: r in b ==> r in a)
  {
    assert |a| == |multiset(a)| && |b| == |multiset(b)|;
    forall r | r in a ensures r in b { assert r in multiset(b); }
    forall r | r in b ensures r in a { assert r in multiset(a); }
  }

  /** `sort_ranked_slice`: refuse a non-finite score, then sort in place. */
  method SortRankedSlice(rows: array<ScoredRow>) returns (ok: bool)
    modifies rows
    ensures ok <==> AllFinite(old(rows[..]))
    ensures !ok ==> rows[..] == old(rows[..])
    ensures ok ==> Sorted(rows[..]) && multiset(rows[..]) == multiset(old(rows[..]))
  {
    for n := 0 to rows.Length
      invariant rows[..] == old(rows[..])
      invariant AllFinite(rows[..n])
    {
      assert rows[n] in rows[..];
      if !IsFinite(rows[n].score) {
        return false;
      }
      assert rows[..n + 1] == rows[..n] + [rows[n]];
    }
    assert rows[..rows.Length] == rows[..];
    var sorted := SortRows(rows[..]);
    SameRows(sorted, rows[..]);
    for n := 0 to rows.Length
      invariant rows[..n] == sorted[..n]
    {
      rows[n] := sorted[n];
      assert rows[..n + 1] == rows[..n] + [rows[n]];
    }
    assert rows[..] == rows[..rows.Length] == sorted;
    return true;
  }

  lemma CompactNext(sorted: seq<ScoredRow>, read: nat)
    requires read < |sorted|
    ensures Ids(sorted[..read + 1]) == Ids(sorted[..read]) + {sorted[read].id}
    ensures FirstPerId(sorted[..read + 1]) ==
      FirstPerId(sorted[..read]) + if sorted[read].id in Ids(sorted[..read]) then [] else [sorted[read]]
  {
    assert sorted[..read + 1][..read] == sorted[..read];
    assert sorted[..read + 1] == sorted[..read] + [sorted[read]];
    IdsSnoc(sorted[..read], sorted[read]);
  }

  /** The compaction loop of `normalize_ranked_list`: one read and one write index. */
  method CompactRankedSlice(rows: array<ScoredRow>) returns (write: nat)
    modifies rows
    ensures write <= rows.Length && rows[..write] == FirstPerId(old(rows[..]))
  {
    ghost var sorted := rows[..];
    var seen: set<u64> := {};
    write := 0;
    for read := 0 to rows.Length
      invariant write <= read
      invariant seen == Ids(sorted[..read])
      invariant rows[..write] == FirstPerId(sorted[..read])
      invariant forall i :: read <= i < rows.Length ==> rows[i] == sorted[i]
    {
      var row := rows[read];
      CompactNext(sorted, read);
      if row.id !in seen {
        seen := seen + {row.id};
        rows[write] := row;
        assert rows[..write + 1] == rows[..write] + [row];
        write := write + 1;
      }
    }
    assert sorted[..rows.Length] == sorted;
  }

  /** `normalize_ranked_list`: sort the vector in place, then compact it. The first `len` cells
      are what `truncate` leaves. */
  method NormalizeRankedList(rows: array<ScoredRow>) returns (len: Result<nat>)
    modifies rows
    ensures len.Ok? <==> AllFinite(old(rows[..]))
    ensures len.Ok? ==> len.value <= rows.Length && rows[..len.value] == NormalForm(old(rows[..]))
    ensures len.Err? ==> rows[..] == old(rows[..])
  {
    ghost var was := rows[..];
    var ok := SortRankedSlice(rows);
    if !ok {
      return Err;
    }
    ghost var sorted := rows[..];
    var write := CompactRankedSlice(rows);
    FirstPerIdIsNormalForm(sorted);
    SameRows(sorted, was);
    NormalFormIgnoresOrder(sorted, was);
    return Ok(write);
  }

  /** `validate_no_duplicate_rows` */
  method ValidateNoDuplicateRows(rows: seq<ScoredRow>) returns (ok: bool)
    ensures ok <==> DistinctIds(rows)
  {
    var seen: set<u64> := {};
    for n := 0 to |rows|
      invariant forall i :: 0 <= i < n ==> rows[i].id in seen
      invariant forall id :: id in seen ==> exists i :: 0 <= i < n && rows[i].id == id
      invariant forall i, j :: 0 <= i < j < n ==> rows[i].id != rows[j].id
    {
      if rows[n].id in seen {
        return false;
      }
      seen := seen + {rows[n].id};
    }
    return true;
  }

  method ScoresAreFinite(rows: seq<ScoredRow>) returns (ok: bool)
    ensures ok <==> AllFinite(rows)
  {
    for n := 0 to |rows|
      invariant forall i :: 0 <= i < n ==> IsFinite(rows[i].score)
    {
      assert rows[n] in rows;
      if !IsFinite(rows[n].score) {
        return false;
      }
    }
    return true;
  }

  /** The `windows(2)` loop of `validate_sorted_ranked_slice`. */
  method NeighboursInOrder(rows: seq<ScoredRow>) returns (ok: bool)
    ensures ok <==> Sorted(rows)
  {
    var n := 1;
    while n < |rows|
      invariant 1 <= n
      invariant forall i :: 1 <= i < n && i < |rows| ==> !Before(rows[i], rows[i - 1])
    {
      if Before(rows[n], rows[n - 1]) {
        return false;
      }
      n := n + 1;
    }
    AdjacentSorted(rows);
    return true;
  }

  /** `validate_sorted_ranked_slice`: accepts exactly the finite lists that are their own
      normal form. */
  method ValidateSortedRankedSlice(rows: seq<ScoredRow>) returns (ok: bool)
    ensures ok <==> AllFinite(rows) && rows == NormalForm(rows)
  {
    NormalFormFixedPoint(rows);
    var finite := ScoresAreFinite(rows);
    if !finite {
      return false;
    }
    var ordered := NeighboursInOrder(rows);
    if !ordered {
      return false;
    }
    ok := ValidateNoDuplicateRows(rows);
  }

  // ----- Ranked batches -----

  /** `offsets` has one entry more than there are queries; query `q` owns
      `hits[offsets[q]..offsets[q + 1]]`. */
  datatype Batch<+T> = Batch(offsets: seq<nat>, hits: seq<Row<T>>) {
    ghost predicate WellShaped() {
      && |offsets| > 0 && offsets[0] == 0 && offsets[|offsets| - 1] == |hits|
      && forall i, j :: 0 <= i <= j < |offsets| ==> offsets[i] <= offsets[j]
    }

    function QueryCount(): nat {
      if |offsets| == 0 then 0 else |offsets| - 1
    }

    function HitsForQuery(q: nat): seq<Row<T>>
      requires WellShaped() && q < QueryCount()
    {
      hits[offsets[q]..offsets[q + 1]]
    }
  }

  type RankedBatch = Batch<NoInfo>

  /** What the constructors of a ranked batch guarantee of every window. */
  ghost predicate IsRankedBatch(b: RankedBatch) {
    b.WellShaped() && forall q :: 0 <= q < b.QueryCount() ==>
      AllFinite(b.HitsForQuery(q)) && b.HitsForQuery(q) == NormalForm(b.HitsForQuery(q))
  }

  lemma {:induction false} MonotoneOffsets(offsets: seq<nat>, n: nat)
    requires n <= |offsets|
    requires forall i :: 1 <= i < n ==> offsets[i - 1] <= offsets[i]
    ensures forall i, j :: 0 <= i <= j < n ==> offsets[i] <= offsets[j]
  {
    if n > 0 {
      MonotoneOffsets(offsets, n - 1);
      assert forall i :: 0 <= i < n - 1 ==> offsets[i] <= offsets[n - 2];
    }
  }

  /** `validate_offsets` */
  method ValidateOffsets<T>(b: Batch<T>) returns (ok: bool)
    ensures ok <==> b.WellShaped()
  {
    if |b.offsets| == 0 || b.offsets[0] != 0 {
      return false;
    }
    for n := 1 to |b.offsets|
      invariant forall i :: 1 <= i < n ==> b.offsets[i - 1] <= b.offsets[i]
    {
      if b.offsets[n - 1] > b.offsets[n] {
        return false;
      }
    }
    MonotoneOffsets(b.offsets, |b.offsets|);
    return b.offsets[|b.offsets| - 1] == |b.hits|;
  }

  /** `b` holds exactly the windows `ws`, in order. */
  ghost predicate HasWindows<T>(b: Batch<T>, ws: seq<seq<Row<T>>>) {
    b.WellShaped() && b.QueryCount() == |ws| && forall q :: 0 <= q < |ws| ==> b.HitsForQuery(q) == ws[q]
  }

  /** Appending a window leaves the earlier windows where they were. */
  lemma AppendWindow<T>(b: Batch<T>, ws: seq<seq<Row<T>>>, w: seq<Row<T>>)
    requires HasWindows(b, ws)
    ensures HasWindows(Batch(b.offsets + [|b.hits + w|], b.hits + w), ws + [w])
  {
    var c := Batch(b.offsets + [|b.hits + w|], b.hits + w);
    assert c.WellShaped();
    forall q | 0 <= q < |ws| ensures c.HitsForQuery(q) == ws[q] {
      assert b.offsets[q + 1] <= |b.hits|;
      assert b.HitsForQuery(q) == ws[q];
    }
  }

  /** `ws` are the normal forms of the first windows of `b`. */
  ghost predicate NormalWindows(b: RankedBatch, ws: seq<seq<ScoredRow>>)
    requires b.WellShaped()
  {
    |ws| <= b.QueryCount()
    && forall q :: 0 <= q < |ws| ==> AllFinite(b.HitsForQuery(q)) && ws[q] == NormalForm(b.HitsForQuery(q))
  }

  lemma NormalWindowsNext(b: RankedBatch, ws: seq<seq<ScoredRow>>, w: seq<ScoredRow>)
    requires b.WellShaped() && NormalWindows(b, ws) && |ws| < b.QueryCount()
    requires AllFinite(b.HitsForQuery(|ws|)) && w == NormalForm(b.HitsForQuery(|ws|))
    ensures NormalWindows(b, ws + [w])
  {
  }

  lemma NormalWindowsEnd(b: RankedBatch, ws: seq<seq<ScoredRow>>, out: RankedBatch)
    requires b.WellShaped() && NormalWindows(b, ws) && |ws| == b.QueryCount() && HasWindows(out, ws)
    ensures IsRankedBatch(out) && out.QueryCount() == b.QueryCount()
    ensures forall q :: 0 <= q < b.QueryCount() ==> out.HitsForQuery(q) == NormalForm(b.HitsForQuery(q))
  {
    forall q | 0 <= q < out.QueryCount()
      ensures AllFinite(out.HitsForQuery(q)) && out.HitsForQuery(q) == NormalForm(out.HitsForQuery(q))
    {
      assert out.HitsForQuery(q) == ws[q];
      NormalFormIdempotent(b.HitsForQuery(q));
      assert forall x :: x in NormalForm(b.HitsForQuery(q)) ==> x in b.HitsForQuery(q);
    }
  }

  /** `RankedBatch::from_offsets_hits`: every window is normalized. */
  method FromOffsetsHits(b: RankedBatch) returns (r: Result<RankedBatch>)
    ensures r.Ok? <==> b.WellShaped() && forall q :: 0 <= q < b.QueryCount() ==> AllFinite(b.HitsForQuery(q))
    ensures r.Ok? ==> IsRankedBatch(r.value) && r.value.QueryCount() == b.QueryCount()
    ensures r.Ok? ==> forall q :: 0 <= q < b.QueryCount() ==>
      r.value.HitsForQuery(q) == NormalForm(b.HitsForQuery(q))
  {
    var ok := ValidateOffsets(b);
    if !ok {
      return Err;
    }
    var out: RankedBatch := Batch([0], []);
    ghost var ws := [];
    for n := 0 to b.QueryCount()
      invariant HasWindows(out, ws) && |ws| == n && NormalWindows(b, ws)
    {
      var list := NormalizedWindow(b.HitsForQuery(n));
      if list.Err? {
        return Err;
      }
      AppendWindow(out, ws, list.value);
      NormalWindowsNext(b, ws, list.value);
      ws := ws + [list.value];
      out := Batch(out.offsets + [|out.hits + list.value|], out.hits + list.value);
    }
    NormalWindowsEnd(b, ws, out);
    return Ok(out);
  }

  /** A window copied to a vector of its own and normalized there. */
  method NormalizedWindow(window: seq<ScoredRow>) returns (r: Result<seq<ScoredRow>>)
    ensures r == if AllFinite(window) then Ok(NormalForm(window)) else Err
    ensures r.Ok? ==> AllFinite(r.value) && r.value == NormalForm(r.value)
  {
    var list := new ScoredRow[|window|](i requires 0 <= i < |window| => window[i]);
    assert list[..] == window;
    var len := NormalizeRankedList(list);
    NormalFormIdempotent(window);
    assert forall x :: x in NormalForm(window) ==> x in window;
    return if len.Ok? then Ok(list[..len.value]) else Err;
  }

  /** `RankedBatch::from_sorted_offsets_hits`: accepts exactly the batches that are already
      in normal form, unchanged. */
  method FromSortedOffsetsHits(b: RankedBatch) returns (r: Result<RankedBatch>)
    ensures r == if IsRankedBatch(b) then Ok(b) else Err
  {
    var ok := ValidateOffsets(b);
    if !ok {
      return Err;
    }
    for n := 0 to b.QueryCount()
      invariant forall q :: 0 <= q < n ==>
        AllFinite(b.HitsForQuery(q)) && b.HitsForQuery(q) == NormalForm(b.HitsForQuery(q))
    {
      ok := ValidateSortedRankedSlice(b.HitsForQuery(n));
      if !ok {
        return Err;
      }
    }
    return Ok(b);
  }

  // ----- Reciprocal rank fusion -----

  datatype RrfConfig = RrfConfig(rankConstant: F32, denseWindow: nat, sparseWindow: nat, topK: nat)

  /** The rank and score a source gave a row. */
  datatype SourceHit = SourceHit(rank: nat, score: F32)

  /** What a fused row remembers of its two sources. */
  datatype Sources = Sources(dense: Option<SourceHit>, sparse: Option<SourceHit>)

  type FusedRow = Row<Sources>

  datatype Source = Dense | Sparse

  datatype Accumulator = Accumulator(fusedScore: F32, sources: Sources)

  const EMPTY_ACCUMULATOR := Accumulator(ZERO, Sources(None, None))

  /** The hit a source list holds for an id, with its rank counted from one. */
  ghost function HitOf(rows: seq<ScoredRow>, id: u64): (h: Option<SourceHit>)
    requires DistinctIds(rows)
    ensures h == None <==> forall i :: 0 <= i < |rows| ==> rows[i].id != id
    ensures forall i :: 0 <= i < |rows| && rows[i].id == id ==> h == Some(SourceHit(i + 1, rows[i].score))
  {
    if i :| 0 <= i < |rows| && rows[i].id == id then Some(SourceHit(i + 1, rows[i].score)) else None
  }

  /** One source adds at most one term, the reciprocal of its rank. */
  function AddTerm(fp: FloatOps, rankConstant: F32, score: F32, hit: Option<SourceHit>): F32 {
    match hit
    case None => score
    case Some(h) => fp.add(score, fp.div(ONE, fp.add(rankConstant, fp.fromNat(h.rank))))
  }

  ghost function Visit(fp: FloatOps, rankConstant: F32, acc: Accumulator, hit: Option<SourceHit>,
                       source: Source): Accumulator {
    if hit == None then acc
    else Accumulator(AddTerm(fp, rankConstant, acc.fusedScore, hit),
                     if source == Dense then acc.sources.(dense := hit) else acc.sources.(sparse := hit))
  }

  /** The fused row of an id: dense term first, sparse term second, starting from zero. */
  ghost function FusedRowOf(fp: FloatOps, rankConstant: F32, dense: seq<ScoredRow>, sparse: seq<ScoredRow>,
                            id: u64): FusedRow
    requires DistinctIds(dense) && DistinctIds(sparse)
  {
    var d := HitOf(dense, id);
    var s := HitOf(sparse, id);
    Row(id, AddTerm(fp, rankConstant, AddTerm(fp, rankConstant, ZERO, d), s), Sources(d, s))
  }

  /** The union of both windows, one fused row an id. */
  ghost function FusedRows(fp: FloatOps, rankConstant: F32, dense: seq<ScoredRow>,
                           sparse: seq<ScoredRow>): (s: set<FusedRow>)
    requires DistinctIds(dense) && DistinctIds(sparse)
    ensures Separated(s)
  {
    set id | id in Ids(dense) + Ids(sparse) :: FusedRowOf(fp, rankConstant, dense, sparse, id)
  }

  /** The loop body of `add_rrf_source`: add the term, keep the first rank and score. */
  function VisitRow(fp: FloatOps, rankConstant: F32, entry: Accumulator, row: ScoredRow, rank: nat,
                    source: Source): Accumulator {
    var contribution := fp.div(ONE, fp.add(rankConstant, fp.fromNat(rank)));
    var hit := SourceHit(rank, row.score);
    var sources := match source
      case Dense => if entry.sources.dense == None then entry.sources.(dense := Some(hit)) else entry.sources
      case Sparse => if entry.sources.sparse == None then entry.sources.(sparse := Some(hit)) else entry.sources;
    Accumulator(fp.add(entry.fusedScore, contribution), sources)
  }

  ghost predicate Unseen(accum: map<u64, Accumulator>, source: Source) {
    forall id :: id in accum ==>
      if source == Dense then accum[id].sources.dense == None else accum[id].sources.sparse == None
  }

  function Entry(accum: map<u64, Accumulator>, id: u64): Accumulator {
    if id in accum then accum[id] else EMPTY_ACCUMULATOR
  }

  /** The specification of one fused query: rank the union of the windows, cut at `topK`. */
  ghost function FusedHits(fp: FloatOps, dense: seq<ScoredRow>, sparse: seq<ScoredRow>,
                           config: RrfConfig): seq<FusedRow>
    requires DistinctIds(dense) && DistinctIds(sparse)
  {
    var d := Take(dense, config.denseWindow);
    var s := Take(sparse, config.sparseWindow);
    Take(RankingOf(FusedRows(fp, config.rankConstant, d, s)), config.topK)
  }

  /** `out` is `accum` after every row of `rows` was visited once. */
  ghost predicate Visited(fp: FloatOps, rankConstant: F32, accum: map<u64, Accumulator>, rows: seq<ScoredRow>,
                          source: Source, out: map<u64, Accumulator>)
    requires DistinctIds(rows)
  {
    out.Keys == accum.Keys + Ids(rows)
    && forall id :: id in out ==> out[id] == VisitedEntry(fp, rankConstant, accum, rows, source, id)
  }

  ghost function VisitedEntry(fp: FloatOps, rankConstant: F32, accum: map<u64, Accumulator>, rows: seq<ScoredRow>,
                              source: Source, id: u64): Accumulator
    requires DistinctIds(rows)
  {
    Visit(fp, rankConstant, Entry(accum, id), HitOf(rows, id), source)
  }

  lemma VisitedNextEntry(fp: FloatOps, rankConstant: F32, accum: map<u64, Accumulator>, rows: seq<ScoredRow>,
                         row: ScoredRow, source: Source, id: u64)
    requires DistinctIds(rows) && DistinctIds(rows + [row]) && Unseen(accum, source)
    ensures VisitedEntry(fp, rankConstant, accum, rows + [row], source, id)
         == if id == row.id then VisitRow(fp, rankConstant, Entry(accum, id), row, |rows| + 1, source)
            else VisitedEntry(fp, rankConstant, accum, rows, source, id)
    ensures id == row.id ==>
      id !in Ids(rows) && VisitedEntry(fp, rankConstant, accum, rows, source, id) == Entry(accum, id)
  {
    HitOfNext(rows, row);
    if id == row.id {
      VisitRowOfUnseen(fp, rankConstant, Entry(accum, id), row, |rows| + 1, source);
    }
  }

  /** The map after one more row. */
  function WithVisit(fp: FloatOps, rankConstant: F32, out: map<u64, Accumulator>, row: ScoredRow, rank: nat,
                     source: Source): map<u64, Accumulator> {
    out[row.id := VisitRow(fp, rankConstant, Entry(out, row.id), row, rank, source)]
  }

  lemma VisitedAt(fp: FloatOps, rankConstant: F32, accum: map<u64, Accumulator>, rows: seq<ScoredRow>,
                  row: ScoredRow, source: Source, out: map<u64, Accumulator>, id: u64)
    requires DistinctIds(rows) && DistinctIds(rows + [row]) && Unseen(accum, source)
    requires Visited(fp, rankConstant, accum, rows, source, out) && (id in out || id == row.id)
    ensures WithVisit(fp, rankConstant, out, row, |rows| + 1, source)[id]
         == VisitedEntry(fp, rankConstant, accum, rows + [row], source, id)
  {
    VisitedNextEntry(fp, rankConstant, accum, rows, row, source, id);
  }

  lemma VisitedKeys(fp: FloatOps, rankConstant: F32, accum: map<u64, Accumulator>, rows: seq<ScoredRow>,
                    row: ScoredRow, source: Source, out: map<u64, Accumulator>)
    requires out.Keys == accum.Keys + Ids(rows)
    ensures WithVisit(fp, rankConstant, out, row, |rows| + 1, source).Keys == accum.Keys + Ids(rows + [row])
  {
    IdsSnoc(rows, row);
  }

  lemma VisitedNext(fp: FloatOps, rankConstant: F32, accum: map<u64, Accumulator>, rows: seq<ScoredRow>,
                    row: ScoredRow, source: Source, out: map<u64, Accumulator>)
    requires DistinctIds(rows) && DistinctIds(rows + [row]) && Unseen(accum, source)
    requires Visited(fp, rankConstant, accum, rows, source, out)
    ensures Visited(fp, rankConstant, accum, rows + [row], source,
                    WithVisit(fp, rankConstant, out, row, |rows| + 1, source))
  {
    var after := WithVisit(fp, rankConstant, out, row, |rows| + 1, source);
    VisitedKeys(fp, rankConstant, accum, rows, row, source, out);
    forall id | id in after ensures after[id] == VisitedEntry(fp, rankConstant, accum, rows + [row], source, id) {
      assert id in out || id == row.id;
      VisitedAt(fp, rankConstant, accum, rows, row, source, out, id);
    }
  }

  lemma VisitRowOfUnseen(fp: FloatOps, rankConstant: F32, entry: Accumulator, row: ScoredRow, rank: nat, source: Source)
    requires if source == Dense then entry.sources.dense == None else entry.sources.sparse == None
    ensures VisitRow(fp, rankConstant, entry, row, rank, source)
         == Visit(fp, rankConstant, entry, Some(SourceHit(rank, row.score)), source)
  {
  }

  lemma VisitedStart(fp: FloatOps, rankConstant: F32, accum: map<u64, Accumulator>, source: Source)
    ensures Visited(fp, rankConstant, accum, [], source, accum)
  {
  }

  lemma VisitedStep(fp: FloatOps, rankConstant: F32, accum: map<u64, Accumulator>, taken: seq<ScoredRow>, n: nat,
                    source: Source, out: map<u64, Accumulator>)
    requires DistinctIds(taken) && n < |taken| && DistinctIds(taken[..n]) && Unseen(accum, source)
    requires Visited(fp, rankConstant, accum, taken[..n], source, out)
    ensures DistinctIds(taken[..n + 1])
    ensures Visited(fp, rankConstant, accum, taken[..n + 1], source,
                    WithVisit(fp, rankConstant, out, taken[n], n + 1, source))
  {
    assert taken[..n + 1] == taken[..n] + [taken[n]];
    VisitedNext(fp, rankConstant, accum, taken[..n], taken[n], source, out);
  }

  /** `add_rrf_source`: `accum` has an entry for exactly the ids seen; each id of the window
      receives one term. The map's own order plays no part. */
  method AddRrfSource(fp: FloatOps, accum: map<u64, Accumulator>, rows: seq<ScoredRow>, rankConstant: F32,
                      window: nat, source: Source) returns (out: map<u64, Accumulator>)
    requires DistinctIds(rows) && Unseen(accum, source)
    ensures DistinctIds(Take(rows, window))
    ensures Visited(fp, rankConstant, accum, Take(rows, window), source, out)
  {
    var taken := Take(rows, window);
    out := accum;
    assert taken[..0] == [];
    VisitedStart(fp, rankConstant, accum, source);
    for n := 0 to |taken|
      invariant DistinctIds(taken) && DistinctIds(taken[..n])
      invariant Visited(fp, rankConstant, accum, taken[..n], source, out)
    {
      VisitedStep(fp, rankConstant, accum, taken, n, source, out);
      out := WithVisit(fp, rankConstant, out, taken[n], n + 1, source);
    }
    assert taken[..|taken|] == taken;
  }

  lemma HitOfNext(rows: seq<ScoredRow>, row: ScoredRow)
    requires DistinctIds(rows) && DistinctIds(rows + [row])
    ensures row.id !in Ids(rows) && HitOf(rows, row.id) == None
    ensures HitOf(rows + [row], row.id) == Some(SourceHit(|rows| + 1, row.score))
    ensures forall id: u64 :: id != row.id ==> HitOf(rows + [row], id) == HitOf(rows, id)
  {
    var longer := rows + [row];
    assert longer[|rows|] == row;
    forall i | 0 <= i < |rows| ensures rows[i].id != row.id { assert longer[i] == rows[i]; }
    forall id: u64 | id != row.id ensures HitOf(longer, id) == HitOf(rows, id) {
      if HitOf(rows, id) != None {
        var i :| 0 <= i < |rows| && rows[i].id == id;
        assert longer[i].id == id;
      }
    }
  }

  function RowOf(accum: map<u64, Accumulator>, id: u64): FusedRow
    requires id in accum
  {
    Row(id, accum[id].fusedScore, accum[id].sources)
  }

  lemma NoHitOutside(rows: seq<ScoredRow>, id: u64)
    requires DistinctIds(rows) && id !in Ids(rows)
    ensures HitOf(rows, id) == None
  {
    forall i | 0 <= i < |rows| ensures rows[i] in rows {}
  }

  /** Dense pass, then sparse pass: the two terms of an id end up in its entry. */
  lemma TwoVisits(fp: FloatOps, rc: F32, d: seq<ScoredRow>, s: seq<ScoredRow>, id: u64, first: Accumulator)
    requires DistinctIds(d) && DistinctIds(s)
    requires first == VisitedEntry(fp, rc, map[], d, Dense, id)
    ensures first.sources.sparse == None
    ensures var second := Visit(fp, rc, first, HitOf(s, id), Sparse);
            Row(id, second.fusedScore, second.sources) == FusedRowOf(fp, rc, d, s, id)
  {
  }

  /** The accumulator holds the fused rows. */
  lemma AccumHoldsFusedRows(fp: FloatOps, rc: F32, d: seq<ScoredRow>, s: seq<ScoredRow>,
                            first: map<u64, Accumulator>, second: map<u64, Accumulator>)
    requires DistinctIds(d) && DistinctIds(s)
    requires Visited(fp, rc, map[], d, Dense, first) && Visited(fp, rc, first, s, Sparse, second)
    ensures Unseen(first, Sparse)
    ensures second.Keys == Ids(d) + Ids(s)
    ensures forall id :: id in second ==> RowOf(second, id) == FusedRowOf(fp, rc, d, s, id)
  {
    forall id: u64
      ensures id in first ==> first[id].sources.sparse == None
      ensures id in second ==> RowOf(second, id) == FusedRowOf(fp, rc, d, s, id)
    {
      if id !in first {
        NoHitOutside(d, id);
      }
      assert Entry(first, id) == VisitedEntry(fp, rc, map[], d, Dense, id);
      TwoVisits(fp, rc, d, s, id, Entry(first, id));
    }
  }

  /** One query of `rrf_fuse_batch`. */
  method FuseQuery(fp: FloatOps, dense: seq<ScoredRow>, sparse: seq<ScoredRow>, config: RrfConfig)
    returns (hits: seq<FusedRow>)
    requires DistinctIds(dense) && DistinctIds(sparse)
    ensures hits == FusedHits(fp, dense, sparse, config)
  {
    var first := AddRrfSource(fp, map[], dense, config.rankConstant, config.denseWindow, Dense);
    assert Unseen(first, Sparse);
    var accum := AddRrfSource(fp, first, sparse, config.rankConstant, config.sparseWindow, Sparse);
    ghost var d, s := Take(dense, config.denseWindow), Take(sparse, config.sparseWindow);
    AccumHoldsFusedRows(fp, config.rankConstant, d, s, first, accum);
    var list := RowsOfMap(accum);
    var sorted := SortRows(list);
    RankingOfList(list, sorted, FusedRows(fp, config.rankConstant, d, s));
    hits := Take(sorted, config.topK);
  }

  /** Sorting any listing without repeats gives the ranking. */
  lemma RankingOfList(list: seq<FusedRow>, sorted: seq<FusedRow>, rows: set<FusedRow>)
    requires DistinctIds(list) && Lists(list, rows) && Separated(rows)
    requires Sorted(sorted) && multiset(sorted) == multiset(list)
    ensures sorted == RankingOf(rows)
  {
    SameRows(sorted, list);
    PermutationKeepsDistinct(list, sorted);
    SortedDistinctIsRanked(sorted);
    RankedUnique(sorted, RankingOf(rows), rows);
  }

  /** The accumulator entries in whatever order the hash map yields them. */
  method RowsOfMap(accum: map<u64, Accumulator>) returns (list: seq<FusedRow>)
    ensures DistinctIds(list)
    ensures Lists(list, set id | id in accum :: RowOf(accum, id))
  {
    list := [];
    var left := accum.Keys;
    while left != {}
      invariant left <= accum.Keys
      invariant DistinctIds(list)
      invariant forall r :: r in list ==> r.id in accum.Keys - left && r == RowOf(accum, r.id)
      invariant forall id :: id in accum.Keys - left ==> RowOf(accum, id) in list
      decreases left
    {
      var id :| id in left;
      left := left - {id};
      assert forall i :: 0 <= i < |list| ==> list[i] in list;
      list := list + [RowOf(accum, id)];
    }
  }

  predicate ValidConfig(config: RrfConfig) {
    IsFinite(config.rankConstant) && Less(ZERO, config.rankConstant)
  }

  ghost predicate DistinctWindows(b: RankedBatch) {
    b.WellShaped() && forall q :: 0 <= q < b.QueryCount() ==> DistinctIds(b.HitsForQuery(q))
  }

  lemma RankedBatchesAreDistinct(b: RankedBatch)
    requires IsRankedBatch(b)
    ensures DistinctWindows(b)
  {
  }

  /** The windows `rrf_fuse_batch` must produce, one a query. */
  ghost function FusedWindow(fp: FloatOps, dense: RankedBatch, sparse: RankedBatch, config: RrfConfig,
                             q: nat): seq<FusedRow>
    requires DistinctWindows(dense) && DistinctWindows(sparse)
    requires q < dense.QueryCount() && q < sparse.QueryCount()
  {
    FusedHits(fp, dense.HitsForQuery(q), sparse.HitsForQuery(q), config)
  }

  ghost predicate AllFused(fp: FloatOps, dense: RankedBatch, sparse: RankedBatch, config: RrfConfig,
                           ws: seq<seq<FusedRow>>)
    requires DistinctWindows(dense) && DistinctWindows(sparse) && dense.QueryCount() == sparse.QueryCount()
  {
    |ws| <= dense.QueryCount() && forall q :: 0 <= q < |ws| ==> ws[q] == FusedWindow(fp, dense, sparse, config, q)
  }

  lemma AllFusedNext(fp: FloatOps, dense: RankedBatch, sparse: RankedBatch, config: RrfConfig, ws: seq<seq<FusedRow>>,
                     hits: seq<FusedRow>)
    requires DistinctWindows(dense) && DistinctWindows(sparse) && dense.QueryCount() == sparse.QueryCount()
    requires |ws| < dense.QueryCount() && AllFused(fp, dense, sparse, config, ws)
    requires hits == FusedWindow(fp, dense, sparse, config, |ws|)
    ensures AllFused(fp, dense, sparse, config, ws + [hits])
  {
  }

  method FuseWindow(fp: FloatOps, dense: RankedBatch, sparse: RankedBatch, config: RrfConfig, n: nat)
    returns (hits: seq<FusedRow>)
    requires DistinctWindows(dense) && DistinctWindows(sparse)
    requires n < dense.QueryCount() && n < sparse.QueryCount()
    ensures hits == FusedWindow(fp, dense, sparse, config, n)
  {
    hits := FuseQuery(fp, dense.HitsForQuery(n), sparse.HitsForQuery(n), config);
  }

  /** The query loop of `rrf_fuse_batch`. */
  method FuseQueries(fp: FloatOps, dense: RankedBatch, sparse: RankedBatch, config: RrfConfig)
    returns (out: Batch<Sources>)
    requires DistinctWindows(dense) && DistinctWindows(sparse) && dense.QueryCount() == sparse.QueryCount()
    ensures out.WellShaped() && out.QueryCount() == dense.QueryCount()
    ensures forall q :: 0 <= q < dense.QueryCount() ==> out.HitsForQuery(q) == FusedWindow(fp, dense, sparse, config, q)
  {
    out := Batch([0], []);
    ghost var ws: seq<seq<FusedRow>> := [];
    for n := 0 to dense.QueryCount()
      invariant HasWindows(out, ws) && |ws| == n && AllFused(fp, dense, sparse, config, ws)
    {
      var hits := FuseWindow(fp, dense, sparse, config, n);
      AppendWindow(out, ws, hits);
      AllFusedNext(fp, dense, sparse, config, ws, hits);
      ws := ws + [hits];
      out := Batch(out.offsets + [|out.hits + hits|], out.hits + hits);
    }
  }

  /** `rrf_fuse_batch`: per query, the best `topK` fused rows of the two windows. */
  method RrfFuseBatch(fp: FloatOps, dense: RankedBatch, sparse: RankedBatch, config: RrfConfig)
      returns (r: Result<Batch<Sources>>)
    requires IsRankedBatch(dense) && IsRankedBatch(sparse)
    ensures DistinctWindows(dense) && DistinctWindows(sparse)
    ensures r.Ok? <==> ValidConfig(config) && dense.QueryCount() == sparse.QueryCount()
    ensures r.Ok? ==> r.value.WellShaped() && r.value.QueryCount() == dense.QueryCount()
    ensures r.Ok? ==> forall q :: 0 <= q < dense.QueryCount() ==>
      r.value.HitsForQuery(q) == FusedWindow(fp, dense, sparse, config, q)
  {
    RankedBatchesAreDistinct(dense);
    RankedBatchesAreDistinct(sparse);
    if !ValidConfig(config) || dense.QueryCount() != sparse.QueryCount() {
      return Err;
    }
    var out := FuseQueries(fp, dense, sparse, config);
    return Ok(out);
  }
}
