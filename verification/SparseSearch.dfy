/** BM25 search over the raw bytes of an open sidecar, against a naive scan of its content. */
module SparseSearch {
  import opened Wrappers
  import opened Floats
  import opened Bytes
  import opened Ranking
  import opened SparseFormat
  import opened SparseReader
  import opened Tokenizer
  import SparseWriter

  // ----- The naive scan -----

  /** How often document `d` contains `w`. */
  ghost function Tf(c: Content, w: Term, d: nat): nat {
    if exists t: nat :: IsTerm(c, t, w) then
      var t: nat :| IsTerm(c, t, w);
      TfIn(c.postings[t], |c.postings[t]|, d)
    else 0
  }

  ghost predicate IsTerm(c: Content, t: nat, w: Term) {
    t < |c.terms| == |c.postings| && c.terms[t] == w
  }

  ghost function DocsWith(c: Content, w: Term): set<nat> {
    set d: nat | d < |c.rowIds| && Tf(c, w, d) > 0
  }

  ghost function DocFreq(c: Content, w: Term): nat {
    |DocsWith(c, w)|
  }

  /** What one query term adds to the score of a document that contains it `tf` times. */
  function Contribution(fp: FloatOps, f: Fields, docCount: nat, df: nat, tf: nat, docLen: nat): F32 {
    var idf := Idf(fp, docCount, df);
    var freq := fp.fromNat(tf);
    var avg := fp.max(f.avgDocLen, ONE);
    var denom := fp.add(freq, fp.mul(f.k1, fp.add(fp.sub(ONE, f.b), fp.div(fp.mul(f.b, fp.fromNat(docLen)), avg))));
    fp.div(fp.mul(idf, fp.mul(freq, fp.add(f.k1, ONE))), fp.max(denom, EPSILON))
  }

  function Idf(fp: FloatOps, docCount: nat, df: nat): F32 {
    var n, k := fp.fromNat(docCount), fp.fromNat(df);
    fp.ln(fp.add(fp.div(fp.add(fp.sub(n, k), HALF), fp.add(k, HALF)), ONE))
  }

  /** The score of document `d` over the first `n` query terms; `None` while none occurs in it. */
  ghost function ScoreOf(fp: FloatOps, c: Content, f: Fields, query: seq<Term>, n: nat, d: nat): Option<F32>
    requires n <= |query| && d < |c.docLens|
  {
    if n == 0 then None
    else
      AddTerm(fp, ScoreOf(fp, c, f, query, n - 1, d), Tf(c, query[n - 1], d),
              Contribution(fp, f, |c.rowIds|, DocFreq(c, query[n - 1]), Tf(c, query[n - 1], d), c.docLens[d]))
  }

  function AddTerm(fp: FloatOps, score: Option<F32>, tf: nat, contribution: F32): Option<F32> {
    if tf == 0 then score else Some(fp.add(if score.Some? then score.value else ZERO, contribution))
  }

  predicate Allows(allowed: Option<set<nat>>, d: nat) {
    allowed.Some? ==> d in allowed.value
  }

  ghost predicate Matches(fp: FloatOps, c: Content, f: Fields, query: seq<Term>, allowed: Option<set<nat>>, d: nat) {
    d < |c.rowIds| == |c.docLens| && Allows(allowed, d) && ScoreOf(fp, c, f, query, |query|, d).Some?
  }

  ghost function RowOf(fp: FloatOps, c: Content, f: Fields, query: seq<Term>, d: nat): ScoredRow
    requires d < |c.rowIds| == |c.docLens| && ScoreOf(fp, c, f, query, |query|, d).Some?
  {
    Row(c.rowIds[d], ScoreOf(fp, c, f, query, |query|, d).value, NoInfo)
  }

  /** Every allowed document that contains a query term, with its score. */
  ghost function MatchingRows(fp: FloatOps, c: Content, f: Fields, query: seq<Term>,
                              allowed: Option<set<nat>>): set<ScoredRow> {
    set d | 0 <= d < |c.rowIds| && Matches(fp, c, f, query, allowed, d) :: RowOf(fp, c, f, query, d)
  }

  /** The one ranked listing of a set of scored rows. */
  ghost function Listing(s: set<ScoredRow>): seq<ScoredRow> {
    ScoredRowsSeparated(s);
    RankingOf(s)
  }

  // ----- Reading terms and postings from the bytes -----

  ghost predicate Opened(x: Index, c: Content, f: Fields) {
    IndexFor(x, c, f) && ContentOk(c)
  }

  lemma OpenedTerm(x: Index, c: Content, f: Fields, t: nat)
    requires Opened(x, c, f) && t < |c.terms|
    ensures TermStored(x.bytes, x.header, c.terms, c.postings, t)
    ensures TermCursor(x.header, c.terms, t) + |c.terms[t]| <= |x.bytes|
    ensures PostingCursor(x.header, c.postings, t) + 8 * |c.postings[t]| <= |x.bytes|
  {
    DescribedIsScannable(x.bytes, c, f);
    ScannableRanges(x.bytes, x.header, c, t);
  }

  lemma OpenedShape(x: Index, c: Content, f: Fields)
    requires Opened(x, c, f)
    ensures x.header.termCount == |c.terms| == |c.postings| && x.header.docCount == |c.rowIds| == |c.docLens|
    ensures x.header.fields == f && x.header.tokenizer == c.tokenizer && x.docToRowId == c.rowIds
    ensures UintsAt(x.bytes, x.header.docLenOffset, 4, c.docLens, |c.docLens|)
  {
  }

  /** Entry `idx` and the bytes of its term; on an accepted file none of the checks can fail. */
  method ReadEntry(x: Index, idx: nat, ghost c: Content, ghost f: Fields) returns (e: TermEntry, term: Term)
    requires Opened(x, c, f) && idx < |c.terms|
    ensures term == c.terms[idx]
    ensures e ==
      TermEntry(TermCursor(x.header, c.terms, idx), |term|, PostingCursor(x.header, c.postings, idx), |c.postings[idx]|)
  {
    OpenedTerm(x, c, f, idx);
    var entry := EntryAt(x.bytes, x.header.termTableOffset + idx * 32);
    e := entry.value;
    term := x.bytes[e.termOffset..e.termOffset + e.termLen];
    SliceEquals(x.bytes, e.termOffset, c.terms[idx]);
  }

  lemma SortedNotIn(terms: seq<Term>, lo: nat, hi: nat, mid: nat, w: Term)
    requires StrictlySorted(terms) && lo <= mid < hi <= |terms|
    ensures LexLess(terms[mid], w) ==> forall t :: 0 <= t <= mid ==> terms[t] != w
    ensures LexLess(w, terms[mid]) ==> forall t :: mid <= t < |terms| ==> terms[t] != w
  {
    forall t | 0 <= t < |terms| ensures t <= mid && LexLess(terms[mid], w) ==> terms[t] != w
      ensures t >= mid && LexLess(w, terms[mid]) ==> terms[t] != w
    {
      LexTotal(terms[t], w);
      if t < mid && LexLess(terms[mid], w) {
        LexTransitive(terms[t], terms[mid], w);
      }
      if t > mid && LexLess(w, terms[mid]) {
        LexTransitive(w, terms[mid], terms[t]);
      }
    }
  }

  /** `find_term`: binary search over the entry table. */
  method FindTerm(x: Index, w: Term, ghost c: Content, ghost f: Fields) returns (r: Option<TermEntry>, ghost t: nat)
    requires Opened(x, c, f)
    ensures r.Some? <==> w in c.terms
    ensures r.Some? ==> IsTerm(c, t, w) && r.value.postingsOffset == PostingCursor(x.header, c.postings, t)
    ensures r.Some? ==> r.value.postingsLen == |c.postings[t]|
  {
    OpenedShape(x, c, f);
    t := 0;
    var lo: nat, hi: nat := 0, x.header.termCount;
    while lo < hi
      invariant lo <= hi <= |c.terms|
      invariant forall i :: 0 <= i < |c.terms| && !(lo <= i < hi) ==> c.terms[i] != w
    {
      var mid := lo + (hi - lo) / 2;
      var e, term := ReadEntry(x, mid, c, f);
      SortedNotIn(c.terms, lo, hi, mid, w);
      LexTotal(term, w);
      if LexLess(term, w) {
        lo := mid + 1;
      } else if LexLess(w, term) {
        hi := mid;
      } else {
        t := mid;
        return Some(e), t;
      }
    }
    r := None;
  }

  // ----- Frequencies in a posting list -----

  lemma TfOfTerm(c: Content, t: nat, w: Term, d: nat)
    requires StrictlySorted(c.terms) && IsTerm(c, t, w)
    ensures Tf(c, w, d) == TfIn(c.postings[t], |c.postings[t]|, d)
  {
    forall u: nat | IsTerm(c, u, w) ensures u == t {
      LexTotal(w, w);
    }
  }

  lemma TfOfNoTerm(c: Content, w: Term, d: nat)
    requires w !in c.terms
    ensures Tf(c, w, d) == 0
  {
  }

  lemma {:induction false} TfInAbsent(list: seq<Posting>, m: nat, d: nat)
    requires m <= |list| && forall i :: 0 <= i < m ==> list[i].doc != d
    ensures TfIn(list, m, d) == 0
  {
    if m > 0 {
      TfInAbsent(list, m - 1, d);
    }
  }

  lemma TfInFresh(list: seq<Posting>, docCount: nat, j: nat)
    requires ListOk(list, docCount) && j < |list|
    ensures TfIn(list, j, list[j].doc) == 0
  {
    TfInAbsent(list, j, list[j].doc);
  }

  ghost function ListedDocs(list: seq<Posting>, docCount: nat, m: nat): set<nat>
    requires m <= |list|
  {
    set d: nat | d < docCount && TfIn(list, m, d) > 0
  }

  lemma {:induction false} ListedDocsCount(list: seq<Posting>, docCount: nat, m: nat)
    requires ListOk(list, docCount) && m <= |list|
    ensures |ListedDocs(list, docCount, m)| == m
  {
    if m > 0 {
      ListedDocsCount(list, docCount, m - 1);
      TfInFresh(list, docCount, m - 1);
      assert ListedDocs(list, docCount, m) == ListedDocs(list, docCount, m - 1) + {list[m - 1].doc};
    } else {
      assert ListedDocs(list, docCount, m) == {};
    }
  }

  /** The length of a posting list is the number of documents with its term. */
  lemma DocFreqOfTerm(c: Content, t: nat, w: Term)
    requires ContentOk(c) && IsTerm(c, t, w)
    ensures DocFreq(c, w) == |c.postings[t]|
  {
    var list := c.postings[t];
    ListedDocsCount(list, |c.rowIds|, |list|);
    forall d: nat ensures Tf(c, w, d) == TfIn(list, |list|, d) {
      TfOfTerm(c, t, w, d);
    }
    assert DocsWith(c, w) == ListedDocs(list, |c.rowIds|, |list|);
  }

  // ----- Accumulating scores -----

  function ScoreAt(scores: map<nat, F32>, d: nat): Option<F32> {
    if d in scores then Some(scores[d]) else None
  }

  ghost predicate KeysBelow(scores: map<nat, F32>, docCount: nat) {
    forall d :: d in scores ==> d < docCount
  }

  /** The scores after `n` query terms. */
  ghost predicate ScoresHold(fp: FloatOps, c: Content, f: Fields, query: seq<Term>, n: nat, allowed: Option<set<nat>>,
                             scores: map<nat, F32>)
    requires n <= |query|
  {
    && KeysBelow(scores, |c.docLens|)
    && forall d :: 0 <= d < |c.docLens| ==>
      ScoreAt(scores, d) == if Allows(allowed, d) then ScoreOf(fp, c, f, query, n, d) else None
  }

  /** The score of `d` when `m` postings of the current list have been added to `before`. */
  ghost function Partial(fp: FloatOps, c: Content, f: Fields, list: seq<Posting>, m: nat, allowed: Option<set<nat>>,
                         before: map<nat, F32>, d: nat): Option<F32>
    requires m <= |list| && d < |c.docLens|
  {
    if Allows(allowed, d) then
      AddTerm(fp, ScoreAt(before, d), TfIn(list, m, d),
              Contribution(fp, f, |c.rowIds|, |list|, TfIn(list, m, d), c.docLens[d]))
    else ScoreAt(before, d)
  }

  /** One posting: its ordinal, its frequency and the length of its document, from the bytes. */
  method ReadHit(x: Index, offset: nat, ghost c: Content, ghost f: Fields, ghost p: Posting)
    returns (doc: nat, tf: nat, docLen: nat)
    requires UintsAt(x.bytes, x.header.docLenOffset, 4, c.docLens, |c.docLens|)
    requires PostingIs(x.bytes, offset, p) && p.doc < |c.docLens|
    ensures doc == p.doc && tf == p.tf && docLen == c.docLens[doc]
  {
    doc := UintAt(x.bytes, offset, 4).value;
    tf := UintAt(x.bytes, offset + 4, 2).value;
    assert UintAt(x.bytes, x.header.docLenOffset + doc * 4, 4) == Ok(c.docLens[doc]);
    docLen := UintAt(x.bytes, x.header.docLenOffset + doc * 4, 4).value;
  }

  lemma PartialNext(fp: FloatOps, c: Content, f: Fields, list: seq<Posting>, m: nat, allowed: Option<set<nat>>,
                    before: map<nat, F32>, d: nat)
    requires ListOk(list, |c.docLens|) && m < |list| && d < |c.docLens|
    ensures Partial(fp, c, f, list, m + 1, allowed, before, d) ==
      if d == list[m].doc && Allows(allowed, d) then
        AddTerm(fp, Partial(fp, c, f, list, m, allowed, before, d), list[m].tf,
                Contribution(fp, f, |c.rowIds|, |list|, list[m].tf, c.docLens[d]))
      else Partial(fp, c, f, list, m, allowed, before, d)
  {
    TfInFresh(list, |c.docLens|, m);
  }

  ghost predicate PartialHolds(fp: FloatOps, c: Content, f: Fields, list: seq<Posting>, m: nat,
                               allowed: Option<set<nat>>,
                               before: map<nat, F32>, scores: map<nat, F32>)
    requires m <= |list|
  {
    forall d :: 0 <= d < |c.docLens| ==> ScoreAt(scores, d) == Partial(fp, c, f, list, m, allowed, before, d)
  }

  lemma PartialHoldsNext(fp: FloatOps, c: Content, f: Fields, list: seq<Posting>, m: nat, allowed: Option<set<nat>>,
                         before: map<nat, F32>, scores: map<nat, F32>, next: map<nat, F32>)
    requires ListOk(list, |c.docLens|) && m < |list| && PartialHolds(fp, c, f, list, m, allowed, before, scores)
    requires var p := list[m];
             var score := Contribution(fp, f, |c.rowIds|, |list|, p.tf, c.docLens[p.doc]);
             next == if Allows(allowed, p.doc) then
               scores[p.doc := fp.add(if p.doc in scores then scores[p.doc] else ZERO, score)] else scores
    ensures PartialHolds(fp, c, f, list, m + 1, allowed, before, next)
  {
    forall d | 0 <= d < |c.docLens| ensures ScoreAt(next, d) == Partial(fp, c, f, list, m + 1, allowed, before, d) {
      PartialNext(fp, c, f, list, m, allowed, before, d);
      assert ScoreAt(scores, d) == Partial(fp, c, f, list, m, allowed, before, d);
    }
  }

  /** The posting loop of one query term. */
  method AddPostings(fp: FloatOps, x: Index, offset: nat, len: nat, allowed: Option<set<nat>>, before: map<nat, F32>,
                     ghost c: Content, ghost f: Fields, ghost list: seq<Posting>)
    returns (scores: map<nat, F32>)
    requires x.header.fields == f && x.header.docCount == |c.rowIds| == |c.docLens|
    requires UintsAt(x.bytes, x.header.docLenOffset, 4, c.docLens, |c.docLens|)
    requires len == |list| && ListAt(x.bytes, offset, list, len) && ListOk(list, |c.docLens|)
    requires KeysBelow(before, |c.docLens|)
    ensures KeysBelow(scores, |c.docLens|) && PartialHolds(fp, c, f, list, len, allowed, before, scores)
  {
    scores := before;
    for m := 0 to len
      invariant KeysBelow(scores, |c.docLens|) && PartialHolds(fp, c, f, list, m, allowed, before, scores)
    {
      var doc, tf, docLen := ReadHit(x, offset + m * 8, c, f, list[m]);
      ghost var current := scores;
      if Allows(allowed, doc) {
        var score := Contribution(fp, x.header.fields, x.header.docCount, len, tf, docLen);
        scores := scores[doc := fp.add(if doc in scores then scores[doc] else ZERO, score)];
      }
      PartialHoldsNext(fp, c, f, list, m, allowed, before, current, scores);
    }
  }

  // ----- The loop over query terms -----

  lemma ScoresAfterTerm(fp: FloatOps, c: Content, f: Fields, query: seq<Term>, n: nat, allowed: Option<set<nat>>,
                        before: map<nat, F32>, scores: map<nat, F32>, t: nat)
    requires ContentOk(c) && n < |query| && IsTerm(c, t, query[n])
    requires ScoresHold(fp, c, f, query, n, allowed, before) && KeysBelow(scores, |c.docLens|)
    requires PartialHolds(fp, c, f, c.postings[t], |c.postings[t]|, allowed, before, scores)
    ensures ScoresHold(fp, c, f, query, n + 1, allowed, scores)
  {
    var w, list := query[n], c.postings[t];
    DocFreqOfTerm(c, t, w);
    forall d | 0 <= d < |c.docLens|
      ensures ScoreAt(scores, d) == if Allows(allowed, d) then ScoreOf(fp, c, f, query, n + 1, d) else None
    {
      TfOfTerm(c, t, w, d);
      assert ScoreAt(scores, d) == Partial(fp, c, f, list, |list|, allowed, before, d);
    }
  }

  lemma ScoresAfterMiss(fp: FloatOps, c: Content, f: Fields, query: seq<Term>, n: nat, allowed: Option<set<nat>>,
                        scores: map<nat, F32>)
    requires n < |query| && query[n] !in c.terms && ScoresHold(fp, c, f, query, n, allowed, scores)
    ensures ScoresHold(fp, c, f, query, n + 1, allowed, scores)
  {
    forall d: nat ensures Tf(c, query[n], d) == 0 {
      TfOfNoTerm(c, query[n], d);
    }
  }

  method ScoreTerms(fp: FloatOps, x: Index, query: seq<Term>, allowed: Option<set<nat>>, ghost c: Content,
                    ghost f: Fields)
    returns (scores: map<nat, F32>)
    requires Opened(x, c, f)
    ensures ScoresHold(fp, c, f, query, |query|, allowed, scores)
  {
    OpenedShape(x, c, f);
    scores := map[];
    for n := 0 to |query|
      invariant ScoresHold(fp, c, f, query, n, allowed, scores)
    {
      ghost var t;
      var found;
      found, t := FindTerm(x, query[n], c, f);
      if found.Some? {
        ghost var before := scores;
        OpenedTerm(x, c, f, t);
        scores := AddPostings(fp, x, found.value.postingsOffset, found.value.postingsLen, allowed, scores, c, f,
                              c.postings[t]);
        ScoresAfterTerm(fp, c, f, query, n, allowed, before, scores, t);
      } else {
        ScoresAfterMiss(fp, c, f, query, n, allowed, scores);
      }
    }
  }

  // ----- Rows -----

  ghost predicate Distinct<T>(rows: seq<T>) {
    forall i, j :: 0 <= i < j < |rows| ==> rows[i] != rows[j]
  }

  /** Rows of a hash map, in whatever order it yields its entries. */
  method CollectRows(scores: map<nat, F32>, ids: seq<u64>) returns (rows: seq<ScoredRow>)
    requires KeysBelow(scores, |ids|) && NoRepeat(ids)
    ensures forall r :: r in rows <==> exists d :: d in scores && r == Row(ids[d], scores[d], NoInfo)
    ensures Distinct(rows)
  {
    rows := [];
    var left := scores.Keys;
    while left != {}
      invariant left <= scores.Keys && Distinct(rows)
      invariant forall i :: 0 <= i < |rows| ==> FromEntry(scores, ids, left, rows[i])
      invariant forall d :: d in scores && d !in left ==> Row(ids[d], scores[d], NoInfo) in rows
    {
      var d :| d in left;
      var row: ScoredRow := Row(ids[d], scores[d], NoInfo);
      forall i | 0 <= i < |rows| ensures rows[i] != row && FromEntry(scores, ids, left - {d}, rows[i]) {
        FromEntryNext(scores, ids, left, d, rows[i]);
      }
      rows, left := rows + [row], left - {d};
    }
    forall r ensures r in rows <==> exists d :: d in scores && r == Row(ids[d], scores[d], NoInfo) {
      if r in rows {
        assert FromEntry(scores, ids, {}, r);
      }
    }
  }

  ghost predicate FromEntry(scores: map<nat, F32>, ids: seq<u64>, left: set<nat>, row: ScoredRow)
    requires KeysBelow(scores, |ids|)
  {
    exists d :: d in scores && d !in left && row == Row(ids[d], scores[d], NoInfo)
  }

  lemma FromEntryNext(scores: map<nat, F32>, ids: seq<u64>, left: set<nat>, d: nat, row: ScoredRow)
    requires KeysBelow(scores, |ids|) && NoRepeat(ids) && d in left && d in scores && FromEntry(scores, ids, left, row)
    ensures row != Row(ids[d], scores[d], NoInfo) && FromEntry(scores, ids, left - {d}, row)
  {
    var e :| e in scores && e !in left && row == Row(ids[e], scores[e], NoInfo);
    assert ids[e] != ids[d] by {
      if e < d {
      } else {
        assert ids[d] != ids[e];
      }
    }
  }

  /** `select_nth_unstable_by`: some order in which no row from `k` on goes before one of the first `k`. */
  method SelectNth(rows: seq<ScoredRow>, k: nat) returns (r: seq<ScoredRow>)
    requires k <= |rows|
    ensures multiset(r) == multiset(rows) && |r| == |rows|
    ensures forall i, j :: 0 <= i < k <= j < |r| ==> !Before(r[j], r[i])
  {
    r := SortRows(rows);
    assert |multiset(r)| == |multiset(rows)|;
  }

  lemma NotBeforeIsAfter(a: ScoredRow, b: ScoredRow)
    requires a != b && !Before(b, a)
    ensures Before(a, b)
  {
    assert a.info == NoInfo && b.info == NoInfo;
  }

  lemma RankedAppend(top: seq<ScoredRow>, rest: seq<ScoredRow>)
    requires Ranked(top) && Ranked(rest) && forall a, b :: a in top && b in rest ==> Before(a, b)
    ensures Ranked(top + rest)
  {
    var all := top + rest;
    forall i, j | 0 <= i < j < |all| ensures Before(all[i], all[j]) {
      assert i < |top| ==> top[i] in top;
      assert j >= |top| ==> rest[j - |top|] in rest;
    }
  }

  /** Rows of which none is before one of `top`, after the sorted `top`: the whole listing. */
  lemma CutThenSort(top: seq<ScoredRow>, s: set<ScoredRow>)
    requires Sorted(top) && Distinct(top) && forall a :: a in top ==> a in s
    requires forall a, b :: a in top && b in s && b !in top ==> !Before(b, a)
    ensures |top| <= |Listing(s)| && Listing(s)[..|top|] == top
  {
    ScoredRowsSeparated(set x | x in top);
    SortedDistinctIsRanked(top);
    var others := set x | x in s && x !in top;
    var rest := Listing(others);
    forall a, b | a in top && b in rest ensures Before(a, b) {
      assert b in others;
      NotBeforeIsAfter(a, b);
    }
    RankedAppend(top, rest);
    assert Lists(top + rest, s) by {
      forall x | x in s ensures x in top + rest {
        assert x !in top ==> x in others;
      }
    }
    RankedUnique(top + rest, Listing(s), s);
  }

  lemma DistinctPrefix(p: seq<ScoredRow>, k: nat)
    requires Distinct(p) && k <= |p|
    ensures Distinct(p[..k]) && forall b :: b in p && b !in p[..k] ==> b in p[k..]
  {
    assert p == p[..k] + p[k..];
  }

  /** The tail of the search: keep `topK` rows, then sort them. */
  method TopSorted(rows: seq<ScoredRow>, topK: nat, ghost s: set<ScoredRow>) returns (r: seq<ScoredRow>)
    requires Distinct(rows) && Lists(rows, s)
    ensures r == Take(Listing(s), topK)
  {
    var kept := rows;
    if |rows| > topK {
      var p := SelectNth(rows, topK);
      kept := p[..topK];
      ListedByPermutation(rows, p, s);
      DistinctPrefix(p, topK);
      forall a, b | a in kept && b in s && b !in kept ensures !Before(b, a) {
        assert b in p[topK..];
      }
    }
    r := SortRows(kept);
    ListedByPermutation(kept, r, set x | x in kept);
    CutThenSort(r, s);
    SizeOfListed(rows, s);
  }

  lemma ListedByPermutation(a: seq<ScoredRow>, b: seq<ScoredRow>, s: set<ScoredRow>)
    requires Distinct(a) && Lists(a, s) && multiset(a) == multiset(b)
    ensures Distinct(b) && Lists(b, s) && |a| == |b|
  {
    PermutationKeepsDistinct(a, b);
    forall x ensures x in a <==> x in b {
      assert x in multiset(a) <==> x in multiset(b);
    }
    assert |multiset(a)| == |multiset(b)|;
  }

  lemma {:induction false} SizeOfListed(rows: seq<ScoredRow>, s: set<ScoredRow>)
    requires Distinct(rows) && Lists(rows, s)
    ensures |rows| == |s|
  {
    if rows == [] {
      assert s == {};
    } else {
      var k := |rows| - 1;
      forall x | x in s - {rows[k]} ensures x in rows[..k] {
        var i :| 0 <= i < |rows| && rows[i] == x;
        assert rows[..k][i] == x;
      }
      assert rows[k] in rows;
      forall x | x in rows[..k] ensures x in s - {rows[k]} {
        assert x in rows;
      }
      SizeOfListed(rows[..k], s - {rows[k]});
    }
  }

  // ----- Search -----

  /** First occurrences, in order. */
  ghost function Deduped(terms: seq<Term>, n: nat): seq<Term>
    requires n <= |terms|
  {
    if n == 0 then []
    else if terms[n - 1] in terms[..n - 1] then Deduped(terms, n - 1)
    else Deduped(terms, n - 1) + [terms[n - 1]]
  }

  /** `dedupe_preserving_order` */
  method Dedupe(terms: seq<Term>) returns (r: seq<Term>)
    ensures r == Deduped(terms, |terms|)
  {
    var seen: set<Term> := {};
    r := [];
    for n := 0 to |terms|
      invariant r == Deduped(terms, n)
      invariant forall w :: w in seen <==> w in terms[..n]
    {
      assert terms[..n + 1] == terms[..n] + [terms[n]];
      if terms[n] !in seen {
        r := r + [terms[n]];
        seen := seen + {terms[n]};
      }
    }
  }

  lemma {:induction false} DedupedKeeps(terms: seq<Term>, n: nat, w: Term)
    requires n <= |terms|
    ensures w in Deduped(terms, n) <==> w in terms[..n]
  {
    if n > 0 {
      DedupedKeeps(terms, n - 1, w);
      assert terms[..n] == terms[..n - 1] + [terms[n - 1]];
    }
  }

  lemma {:induction false} DedupedDistinct(terms: seq<Term>, n: nat)
    requires n <= |terms|
    ensures Distinct(Deduped(terms, n))
  {
    if n > 0 {
      DedupedDistinct(terms, n - 1);
      DedupedKeeps(terms, n - 1, terms[n - 1]);
      var shorter := Deduped(terms, n - 1);
      forall i | 0 <= i < |shorter| ensures shorter[i] in shorter {
      }
    }
  }

  /** The documents whose row id is listed. */
  ghost function OrdinalsOf(c: Content, rowIds: seq<u64>): set<nat> {
    set d: nat | d < |c.rowIds| && c.rowIds[d] in rowIds
  }

  lemma OrdinalsNext(c: Content, inverse: map<u64, nat>, rowIds: seq<u64>, i: nat)
    requires Inverts(inverse, c.rowIds) && i < |rowIds| && rowIds[i] in inverse
    ensures OrdinalsOf(c, rowIds[..i + 1]) == OrdinalsOf(c, rowIds[..i]) + {inverse[rowIds[i]]}
  {
    assert rowIds[..i + 1] == rowIds[..i] + [rowIds[i]];
  }

  lemma InverseHas(inverse: map<u64, nat>, ids: seq<u64>, id: u64)
    requires Inverts(inverse, ids)
    ensures id in inverse <==> id in ids
  {
  }

  /** `prepare_allowlist`: every listed id must be present. */
  method PrepareAllowlist(x: Index, rowIds: seq<u64>, ghost c: Content) returns (r: Result<set<nat>>)
    requires Inverts(x.rowIdToDoc, c.rowIds)
    ensures r.Ok? <==> forall id :: id in rowIds ==> id in c.rowIds
    ensures r.Ok? ==> r.value == OrdinalsOf(c, rowIds)
  {
    var ordinals: set<nat> := {};
    for i := 0 to |rowIds|
      invariant forall j :: 0 <= j < i ==> rowIds[j] in c.rowIds
      invariant ordinals == OrdinalsOf(c, rowIds[..i])
    {
      InverseHas(x.rowIdToDoc, c.rowIds, rowIds[i]);
      if rowIds[i] !in x.rowIdToDoc {
        return Err;
      }
      OrdinalsNext(c, x.rowIdToDoc, rowIds, i);
      ordinals := ordinals + {x.rowIdToDoc[rowIds[i]]};
    }
    assert rowIds[..|rowIds|] == rowIds;
    r := Ok(ordinals);
  }

  lemma CollectedMatches(fp: FloatOps, c: Content, f: Fields, query: seq<Term>, allowed: Option<set<nat>>,
                         scores: map<nat, F32>, rows: seq<ScoredRow>)
    requires |c.rowIds| == |c.docLens| && ScoresHold(fp, c, f, query, |query|, allowed, scores)
    requires forall r :: r in rows <==> exists d :: d in scores && r == Row(c.rowIds[d], scores[d], NoInfo)
    ensures Lists(rows, MatchingRows(fp, c, f, query, allowed))
  {
    var s := MatchingRows(fp, c, f, query, allowed);
    forall r | r in rows ensures r in s {
      var d :| d in scores && r == Row(c.rowIds[d], scores[d], NoInfo);
      assert ScoreAt(scores, d).Some?;
      assert Matches(fp, c, f, query, allowed, d) && RowOf(fp, c, f, query, d) == r;
    }
    forall r | r in s ensures r in rows {
      var d :| 0 <= d < |c.rowIds| && Matches(fp, c, f, query, allowed, d) && r == RowOf(fp, c, f, query, d);
      assert ScoreAt(scores, d) == ScoreOf(fp, c, f, query, |query|, d);
      assert d in scores && r == Row(c.rowIds[d], scores[d], NoInfo);
    }
  }

  lemma NothingMatches(fp: FloatOps, c: Content, f: Fields, query: seq<Term>, allowed: Option<set<nat>>, topK: nat)
    requires |c.rowIds| == |c.docLens| && (c.rowIds == [] || topK == 0 || query == [])
    ensures Take(Listing(MatchingRows(fp, c, f, query, allowed)), topK) == []
  {
    var s := MatchingRows(fp, c, f, query, allowed);
    if topK > 0 {
      forall r ensures r !in s {
        assert forall d :: !Matches(fp, c, f, query, allowed, d);
      }
      assert s == {};
    }
  }

  /** `search_with_prepared_allowlist`: the first `topK` rows, by score and then row id, of all
      allowed documents that contain a query term. */
  method Search(fp: FloatOps, x: Index, text: seq<byte>, topK: nat, allowed: Option<set<nat>>, ghost c: Content,
                ghost f: Fields)
    returns (r: seq<ScoredRow>)
    requires Opened(x, c, f)
    ensures var query := Deduped(Tokens(c.tokenizer, text), |Tokens(c.tokenizer, text)|);
            r == Take(Listing(MatchingRows(fp, c, f, query, allowed)), topK)
  {
    OpenedShape(x, c, f);
    ghost var query := Deduped(Tokens(c.tokenizer, text), |Tokens(c.tokenizer, text)|);
    if x.header.docCount == 0 || topK == 0 {
      NothingMatches(fp, c, f, query, allowed, topK);
      return [];
    }
    var terms := TokenizeText(x.header.tokenizer, text);
    var queryTerms := Dedupe(terms);
    if queryTerms == [] {
      NothingMatches(fp, c, f, query, allowed, topK);
      return [];
    }
    var scores := ScoreTerms(fp, x, queryTerms, allowed, c, f);
    var rows := CollectRows(scores, x.docToRowId);
    CollectedMatches(fp, c, f, query, allowed, scores, rows);
    r := TopSorted(rows, topK, MatchingRows(fp, c, f, query, allowed));
  }

  /** `search_with_allowlist`: an unknown id is an error; otherwise only listed rows compete. */
  method SearchWithAllowlist(fp: FloatOps, x: Index, text: seq<byte>, topK: nat, allowlist: Option<seq<u64>>,
                             ghost c: Content, ghost f: Fields)
    returns (r: Result<seq<ScoredRow>>)
    requires Opened(x, c, f)
    ensures r.Ok? <==> (allowlist.Some? ==> forall id :: id in allowlist.value ==> id in c.rowIds)
    ensures var query := Deduped(Tokens(c.tokenizer, text), |Tokens(c.tokenizer, text)|);
            var allowed := if allowlist.Some? then Some(OrdinalsOf(c, allowlist.value)) else None;
            r.Ok? ==> r.value == Take(Listing(MatchingRows(fp, c, f, query, allowed)), topK)
  {
    var allowed: Option<set<nat>> := None;
    if allowlist.Some? {
      var prepared := PrepareAllowlist(x, allowlist.value, c);
      if prepared.Err? {
        return Err;
      }
      allowed := Some(prepared.value);
    }
    var rows := Search(fp, x, text, topK, allowed, c, f);
    r := Ok(rows);
  }

  // ----- What the results mean -----

  /** The listed rows of a ranking, in order. */
  ghost function FilterRows(rows: seq<ScoredRow>, ids: seq<u64>): seq<ScoredRow> {
    if rows == [] then []
    else
      var k := |rows| - 1;
      FilterRows(rows[..k], ids) + if rows[k].id in ids then [rows[k]] else []
  }

  lemma {:induction false} FilterRanked(rows: seq<ScoredRow>, ids: seq<u64>)
    requires Ranked(rows)
    ensures Ranked(FilterRows(rows, ids))
    ensures forall r :: r in FilterRows(rows, ids) <==> r in rows && r.id in ids
  {
    if rows != [] {
      var k := |rows| - 1;
      var shorter := FilterRows(rows[..k], ids);
      FilterRanked(rows[..k], ids);
      assert rows == rows[..k] + [rows[k]];
      forall a | a in shorter ensures Before(a, rows[k]) {
        assert a in rows[..k];
        var i :| 0 <= i < k && rows[i] == a;
      }
      forall i | 0 <= i < |shorter| ensures shorter[i] in shorter {
      }
    }
  }

  /** Allowlisted search is the full ranking, filtered and then cut. */
  lemma AllowlistFilters(fp: FloatOps, c: Content, f: Fields, query: seq<Term>, ids: seq<u64>)
    requires |c.rowIds| == |c.docLens|
    ensures Listing(MatchingRows(fp, c, f, query, Some(OrdinalsOf(c, ids)))) ==
      FilterRows(Listing(MatchingRows(fp, c, f, query, None)), ids)
  {
    var all := MatchingRows(fp, c, f, query, None);
    var some := MatchingRows(fp, c, f, query, Some(OrdinalsOf(c, ids)));
    FilterRanked(Listing(all), ids);
    forall r ensures r in some <==> r in all && r.id in ids {
      if r in some {
        var d :| 0 <= d < |c.rowIds| && Matches(fp, c, f, query, Some(OrdinalsOf(c, ids)), d)
          && r == RowOf(fp, c, f, query, d);
        assert Matches(fp, c, f, query, None, d);
      }
      if r in all && r.id in ids {
        var d :| 0 <= d < |c.rowIds| && Matches(fp, c, f, query, None, d) && r == RowOf(fp, c, f, query, d);
        assert Matches(fp, c, f, query, Some(OrdinalsOf(c, ids)), d);
      }
    }
    RankedUnique(Listing(some), FilterRows(Listing(all), ids), some);
  }

  /** A document scores exactly when it contains one of the query terms. */
  lemma {:induction false} ScoredIffContains(fp: FloatOps, c: Content, f: Fields, query: seq<Term>, n: nat, d: nat)
    requires n <= |query| && d < |c.docLens|
    ensures ScoreOf(fp, c, f, query, n, d).Some? <==> exists i :: 0 <= i < n && Tf(c, query[i], d) > 0
  {
    if n > 0 {
      ScoredIffContains(fp, c, f, query, n - 1, d);
    }
  }

  lemma {:induction false} CoveredSize<T>(s: set<T>, q: seq<T>)
    requires forall x :: x in s ==> x in q
    ensures |s| <= |q|
  {
    if q != [] {
      var k := |q| - 1;
      assert q == q[..k] + [q[k]];
      CoveredSize(s - {q[k]}, q[..k]);
      assert s <= (s - {q[k]}) + {q[k]};
    } else {
      assert s == {};
    }
  }

  lemma RowsBound(fp: FloatOps, c: Content, f: Fields, query: seq<Term>, allowed: Option<set<nat>>)
    requires |c.rowIds| == |c.docLens|
    ensures |MatchingRows(fp, c, f, query, allowed)| <= |c.rowIds|
  {
    var s := MatchingRows(fp, c, f, query, allowed);
    var q := seq(|c.rowIds|, d requires 0 <= d < |c.rowIds| =>
      if Matches(fp, c, f, query, allowed, d) then RowOf(fp, c, f, query, d) else Row(0, ZERO, NoInfo));
    forall x | x in s ensures x in q {
      var d :| 0 <= d < |c.rowIds| && Matches(fp, c, f, query, allowed, d) && x == RowOf(fp, c, f, query, d);
      assert q[d] == x;
    }
    CoveredSize(s, q);
  }

  /** A text with at least one token retrieves its own row when `topK` covers the corpus. */
  lemma TextFindsItself(fp: FloatOps, c: Content, f: Fields, text: seq<byte>, d: nat, topK: nat)
    requires ContentOk(c) && d < |c.rowIds| <= topK
    requires Tokens(c.tokenizer, text) != []
    requires forall w :: w in Tokens(c.tokenizer, text) ==> Tf(c, w, d) > 0
    ensures var query := Deduped(Tokens(c.tokenizer, text), |Tokens(c.tokenizer, text)|);
            exists r :: r in Take(Listing(MatchingRows(fp, c, f, query, None)), topK) && r.id == c.rowIds[d]
  {
    var terms := Tokens(c.tokenizer, text);
    var query := Deduped(terms, |terms|);
    assert terms[..|terms|] == terms && terms[0] in terms;
    DedupedKeeps(terms, |terms|, terms[0]);
    var i :| 0 <= i < |query| && query[i] == terms[0];
    assert Tf(c, query[i], d) > 0;
    ScoredIffContains(fp, c, f, query, |query|, d);
    assert Matches(fp, c, f, query, None, d);
    var rows := MatchingRows(fp, c, f, query, None);
    assert RowOf(fp, c, f, query, d) in rows;
    RowsBound(fp, c, f, query, None);
    assert RowOf(fp, c, f, query, d) in Listing(rows);
    assert Take(Listing(rows), topK) == Listing(rows);
  }

  /** On a built index the frequencies are those of the added documents. */
  lemma BuiltFrequencies(c: Content, docs: seq<SparseWriter.PendingDoc>, w: Term, d: nat)
    requires |docs| < U32_END && SparseWriter.DocsFit(docs, |docs|) && SparseWriter.IsIndexOf(c, c.tokenizer, docs)
    requires d < |docs|
    ensures Tf(c, w, d) == SparseWriter.Count(docs[d], w)
  {
    var counts := SparseWriter.CountsOf(docs, |docs|, w);
    SparseWriter.ListOfFrequency(counts, |docs|, d);
    SparseWriter.PostingsOfMention(docs, w);
    if w in c.terms {
      var t: nat :| t < |c.terms| && c.terms[t] == w;
      TfOfTerm(c, t, w, d);
    } else {
      TfOfNoTerm(c, w, d);
    }
  }

  /** Any added text with a non-empty tokenization retrieves its own row. */
  lemma AddedTextFindsItself(fp: FloatOps, c: Content, f: Fields, docs: seq<SparseWriter.PendingDoc>, text: seq<byte>,
                             d: nat, topK: nat)
    requires |docs| < U32_END && SparseWriter.DocsFit(docs, |docs|) && SparseWriter.IsIndexOf(c, c.tokenizer, docs)
    requires ContentOk(c) && d < |docs| <= topK && docs[d].terms == Tokens(c.tokenizer, text) != []
    ensures var query := Deduped(Tokens(c.tokenizer, text), |Tokens(c.tokenizer, text)|);
            exists r :: r in Take(Listing(MatchingRows(fp, c, f, query, None)), topK) && r.id == docs[d].rowId
  {
    forall w | w in Tokens(c.tokenizer, text) ensures Tf(c, w, d) > 0 {
      BuiltFrequencies(c, docs, w, d);
      assert w in multiset(docs[d].terms);
    }
    TextFindsItself(fp, c, f, text, d, topK);
  }
}
