/** Opening a sidecar: the layout validator accepts exactly the encodings of well-formed content. */
module SparseReader {
  import opened Wrappers
  import opened Floats
  import opened Bytes
  import opened SparseFormat
  import opened SparseCodec
  import opened Tokenizer

  // ----- Well-formed content -----

  ghost predicate ListOk(list: seq<Posting>, docCount: nat) {
    && 0 < |list| < U32_END
    && (forall j :: 0 <= j < |list| ==> list[j].doc < docCount && list[j].tf > 0)
    && forall i, j :: 0 <= i < j < |list| ==> list[i].doc < list[j].doc
  }

  /** The frequency of document `d` in the first `m` postings. */
  ghost function TfIn(list: seq<Posting>, m: nat, d: nat): nat
    requires m <= |list|
  {
    if m == 0 then 0 else TfIn(list, m - 1, d) + if list[m - 1].doc == d then list[m - 1].tf else 0
  }

  /** The length of document `d` that the first `n` posting lists imply. */
  ghost function DocLenOf(postings: seq<seq<Posting>>, n: nat, d: nat): nat
    requires n <= |postings|
  {
    if n == 0 then 0 else DocLenOf(postings, n - 1, d) + TfIn(postings[n - 1], |postings[n - 1]|, d)
  }

  ghost function TotalLen(lens: seq<u32>, n: nat): nat
    requires n <= |lens|
  {
    if n == 0 then 0 else TotalLen(lens, n - 1) + lens[n - 1]
  }

  ghost predicate NoRepeat(ids: seq<u64>) {
    forall i, j :: 0 <= i < j < |ids| ==> ids[i] != ids[j]
  }

  function ExpectedAvg(fp: FloatOps, docCount: nat, total: nat): F32 {
    if docCount == 0 then ZERO else fp.div(fp.fromNat(total), fp.fromNat(docCount))
  }

  /** The stored average is within one epsilon of the recomputed one. */
  predicate AvgMatches(fp: FloatOps, avg: F32, docCount: nat, total: nat) {
    var expected := ExpectedAvg(fp, docCount, total);
    !Less(fp.mul(EPSILON, fp.max(expected, ONE)), fp.abs(fp.sub(avg, expected)))
  }

  predicate FloatsInRange(f: Fields, termCount: nat) {
    && IsFinite(f.avgDocLen) && !Less(f.avgDocLen, ZERO) && (termCount > 0 ==> Less(ZERO, f.avgDocLen))
    && IsFinite(f.k1) && Less(ZERO, f.k1)
    && IsFinite(f.b) && !Less(f.b, ZERO) && !Less(ONE, f.b)
  }

  ghost predicate ContentOk(c: Content) {
    && |c.rowIds| == |c.docLens| < U32_END && NoRepeat(c.rowIds)
    && |c.terms| == |c.postings| && StrictlySorted(c.terms)
    && (forall t :: 0 <= t < |c.terms| ==> IsNormalized(c.terms[t]) && |c.terms[t]| < U32_END)
    && (forall t :: 0 <= t < |c.postings| ==> ListOk(c.postings[t], |c.rowIds|))
    && (forall d :: 0 <= d < |c.docLens| ==> c.docLens[d] == DocLenOf(c.postings, |c.postings|, d))
    && FileLen(c) < U64_END
  }

  /** The free header fields only have to be plausible: the declared posting count must fit
      in the file, it is not compared with the postings present. */
  ghost predicate FieldsOk(fp: FloatOps, c: Content, f: Fields) {
    && PostingsOffset(c) + 8 * f.postingsCount <= FileLen(c)
    && FloatsInRange(f, |c.terms|)
    && AvgMatches(fp, f.avgDocLen, |c.rowIds|, TotalLen(c.docLens, |c.docLens|))
  }

  ghost predicate WellFormed(fp: FloatOps, c: Content, f: Fields) {
    ContentOk(c) && FieldsOk(fp, c, f)
  }

  // ----- Header checks -----

  /** `checked_offset` */
  function CheckedOffset(base: nat, count: nat, elemLen: nat): Result<nat> {
    if base + count * elemLen < U64_END then Ok(base + count * elemLen) else Err
  }

  /** `checked_section` */
  predicate SectionFits(fileLen: nat, base: nat, count: nat, elemLen: nat) {
    var end := CheckedOffset(base, count, elemLen);
    end.Ok? && base <= fileLen && end.value <= fileLen
  }

  /** The part of `validate_layout` that looks at the header only. */
  predicate LayoutOk(fileLen: nat, h: Header) {
    && h.fileLen == fileLen && h.rowIdsOffset == HEADER_LEN && h.docCount < U32_END
    && CheckedOffset(h.rowIdsOffset, h.docCount, 8) == Ok(h.docLenOffset)
    && CheckedOffset(h.docLenOffset, h.docCount, 4) == Ok(h.termTableOffset)
    && CheckedOffset(h.termTableOffset, h.termCount, 32) == Ok(h.termBytesOffset)
    && SectionFits(fileLen, h.rowIdsOffset, h.docCount, 8)
    && SectionFits(fileLen, h.docLenOffset, h.docCount, 4)
    && SectionFits(fileLen, h.termTableOffset, h.termCount, 32)
    && SectionFits(fileLen, h.postingsOffset, h.fields.postingsCount, 8)
    && h.termBytesOffset <= h.postingsOffset <= fileLen
    && FloatsInRange(h.fields, h.termCount)
  }

  lemma WellFormedLayout(fp: FloatOps, c: Content, f: Fields)
    requires WellFormed(fp, c, f)
    ensures LayoutOk(FileLen(c), HeaderOf(c, f))
  {
  }

  // ----- Row ids -----

  /** The row-id loop: the table and its inverse, or a repeated id. */
  method ReadRowIds(bytes: seq<byte>, n: nat) returns (r: Result<seq<u64>>, rowIdToDoc: map<u64, nat>)
    requires HEADER_LEN + 8 * n <= |bytes|
    ensures r.Ok? ==> |r.value| == n && NoRepeat(r.value) && UintsAt(bytes, HEADER_LEN, 8, r.value, n)
    ensures r.Ok? ==> forall id :: id in rowIdToDoc ==> rowIdToDoc[id] < n && r.value[rowIdToDoc[id]] == id
    ensures r.Ok? ==> forall d :: 0 <= d < n ==> r.value[d] in rowIdToDoc && rowIdToDoc[r.value[d]] == d
    ensures r.Err? ==>
      exists i, j :: 0 <= i < j < n && UintAt(bytes, HEADER_LEN + i * 8, 8) == UintAt(bytes, HEADER_LEN + j * 8, 8)
  {
    var ids: seq<u64> := [];
    rowIdToDoc := map[];
    for idx := 0 to n
      invariant |ids| == idx && UintsAt(bytes, HEADER_LEN, 8, ids, idx)
      invariant forall id :: id in rowIdToDoc ==> rowIdToDoc[id] < idx && ids[rowIdToDoc[id]] == id
      invariant forall d :: 0 <= d < idx ==> ids[d] in rowIdToDoc && rowIdToDoc[ids[d]] == d
    {
      var id := U64At(bytes, HEADER_LEN + idx * 8);
      if id in rowIdToDoc {
        assert UintAt(bytes, HEADER_LEN + rowIdToDoc[id] * 8, 8) == UintAt(bytes, HEADER_LEN + idx * 8, 8);
        return Err, rowIdToDoc;
      }
      rowIdToDoc := rowIdToDoc[id := idx];
      ids := ids + [id];
    }
    return Ok(ids), rowIdToDoc;
  }

  // ----- One posting list -----

  lemma {:induction false} TfInMonotone(list: seq<Posting>, i: nat, j: nat, d: nat)
    requires i <= j <= |list|
    ensures TfIn(list, i, d) <= TfIn(list, j, d)
    decreases j
  {
    if i < j {
      TfInMonotone(list, i, j - 1, d);
    }
  }

  lemma {:induction false} TfInPrefix(a: seq<Posting>, b: seq<Posting>, m: nat, d: nat)
    requires m <= |a| && m <= |b| && forall i :: 0 <= i < m ==> a[i] == b[i]
    ensures TfIn(a, m, d) == TfIn(b, m, d)
  {
    if m > 0 {
      TfInPrefix(a, b, m - 1, d);
    }
  }

  /** Reads determine a list. */
  lemma ListAtUnique(bytes: seq<byte>, base: nat, a: seq<Posting>, b: seq<Posting>, n: nat)
    requires n <= |a| && n <= |b| && ListAt(bytes, base, a, n) && ListAt(bytes, base, b, n)
    ensures forall i :: 0 <= i < n ==> a[i] == b[i]
  {
    forall i | 0 <= i < n ensures a[i] == b[i] {
      assert PostingIs(bytes, base + i * 8, a[i]) && PostingIs(bytes, base + i * 8, b[i]);
    }
  }

  /** `list` is a valid list at `start`, and counting it does not overflow the lengths. */
  ghost predicate CountableList(bytes: seq<byte>, start: nat, list: seq<Posting>, docCount: nat, before: seq<nat>)
    requires |before| == docCount
  {
    && ListAt(bytes, start, list, |list|) && ListOk(list, docCount)
    && forall d :: 0 <= d < docCount ==> before[d] + TfIn(list, |list|, d) < U64_END
  }

  ghost predicate PostingOk(p: Posting, docCount: nat, previous: Option<nat>) {
    p.doc < docCount && p.tf > 0 && (previous.Some? ==> previous.value < p.doc)
  }

  /** One posting of a loop whose last ordinal was `previous`. */
  method ReadPosting(bytes: seq<byte>, offset: nat, docCount: nat, previous: Option<nat>) returns (r: Result<Posting>)
    requires offset + 8 <= |bytes|
    ensures r.Ok? ==> PostingIs(bytes, offset, r.value) && PostingOk(r.value, docCount, previous)
    ensures r.Err? ==> forall p :: PostingIs(bytes, offset, p) ==> !PostingOk(p, docCount, previous)
  {
    Widths();
    UintAtBound(bytes, offset, 4);
    UintAtBound(bytes, offset + 4, 2);
    UintAtBound(bytes, offset + 6, 2);
    var doc := UintAt(bytes, offset, 4).value;
    if doc >= docCount {
      return Err;
    }
    if previous.Some? && previous.value >= doc {
      return Err;
    }
    var tf := UintAt(bytes, offset + 4, 2).value;
    if tf == 0 {
      return Err;
    }
    if UintAt(bytes, offset + 6, 2) != Ok(0) {
      return Err;
    }
    return Ok(Posting(doc, tf));
  }

  lemma {:induction false} TfInSnoc(list: seq<Posting>, p: Posting, m: nat, d: nat)
    requires m <= |list|
    ensures TfIn(list + [p], m, d) == TfIn(list, m, d)
  {
    TfInPrefix(list + [p], list, m, d);
  }

  /** The posting read next is the claimed one, and counting it does not overflow. */
  lemma ClaimedPosting(bytes: seq<byte>, start: nat, claim: seq<Posting>, j: nat, p: Posting, docCount: nat,
                       before: seq<nat>)
    requires |before| == docCount && CountableList(bytes, start, claim, docCount, before)
    requires j < |claim| && PostingIs(bytes, start + j * 8, p)
    ensures p == claim[j] && p.doc < docCount && before[p.doc] + TfIn(claim, j, p.doc) + p.tf < U64_END
  {
    assert PostingIs(bytes, start + j * 8, claim[j]);
    TfInMonotone(claim, j + 1, |claim|, p.doc);
  }

  ghost function LastDoc(list: seq<Posting>): Option<nat> {
    if list == [] then None else Some(list[|list| - 1].doc)
  }

  lemma ListOkNext(list: seq<Posting>, p: Posting, docCount: nat)
    requires list == [] || ListOk(list, docCount)
    requires PostingOk(p, docCount, LastDoc(list)) && |list| + 1 < U32_END
    ensures ListOk(list + [p], docCount)
  {
    var longer := list + [p];
    assert forall j :: 0 <= j < |list| ==> longer[j] == list[j];
  }

  /** The lengths after the postings of `list` were counted. */
  ghost predicate Counted(before: seq<nat>, lens: seq<nat>, list: seq<Posting>) {
    |lens| == |before| && forall d :: 0 <= d < |lens| ==> lens[d] == before[d] + TfIn(list, |list|, d)
  }

  lemma CountedNext(before: seq<nat>, lens: seq<nat>, list: seq<Posting>, p: Posting)
    requires Counted(before, lens, list) && p.doc < |lens|
    ensures Counted(before, lens[p.doc := lens[p.doc] + p.tf], list + [p])
  {
    forall d | 0 <= d < |lens| ensures TfIn(list + [p], |list|, d) == TfIn(list, |list|, d) {
      TfInSnoc(list, p, |list|, d);
    }
  }

  ghost predicate ListAgrees(claim: Option<seq<Posting>>, list: seq<Posting>) {
    claim.Some? ==> |list| <= |claim.value| && list == claim.value[..|list|]
  }

  /** The next posting of a claimed list is accepted, and counting it does not overflow. */
  lemma ClaimedNext(bytes: seq<byte>, start: nat, claim: seq<Posting>, list: seq<Posting>, before: seq<nat>,
                    lens: seq<nat>)
    requires CountableList(bytes, start, claim, |before|, before) && |list| < |claim| && ListAgrees(Some(claim), list)
    requires Counted(before, lens, list)
    ensures var p := claim[|list|];
            && PostingIs(bytes, start + |list| * 8, p) && PostingOk(p, |before|, LastDoc(list))
            && lens[p.doc] + p.tf < U64_END
  {
    var j := |list|;
    assert PostingIs(bytes, start + j * 8, claim[j]);
    ClaimedPosting(bytes, start, claim, j, claim[j], |before|, before);
    TfInPrefix(claim, list, j, claim[j].doc);
  }

  /** Adds a posting to the length of its document, unless that overflows. */
  method CountPosting(lens: array<nat>, p: Posting, ghost before: seq<nat>, ghost list: seq<Posting>) returns (ok: bool)
    requires p.doc < lens.Length && Counted(before, lens[..], list)
    modifies lens
    ensures ok <==> old(lens[p.doc]) + p.tf < U64_END
    ensures ok ==> Counted(before, lens[..], list + [p])
  {
    if lens[p.doc] + p.tf >= U64_END {
      return false;
    }
    CountedNext(before, lens[..], list, p);
    ghost var now := lens[..];
    lens[p.doc] := lens[p.doc] + p.tf;
    assert lens[..] == now[p.doc := now[p.doc] + p.tf];
    ok := true;
  }

  /** One round: the next posting, counted. */
  method ReadNext(bytes: seq<byte>, start: nat, j: nat, previous: Option<nat>, lens: array<nat>,
                  ghost claim: Option<seq<Posting>>, ghost before: seq<nat>, ghost list: seq<Posting>)
    returns (r: Result<Posting>)
    requires start + j * 8 + 8 <= |bytes| && |list| == j && previous == LastDoc(list) && Counted(before, lens[..], list)
    requires claim.Some? ==> CountableList(bytes, start, claim.value, |before|, before) && j < |claim.value|
    requires ListAgrees(claim, list)
    modifies lens
    ensures claim.Some? ==> r == Ok(claim.value[j])
    ensures r.Ok? ==> PostingIs(bytes, start + j * 8, r.value) && PostingOk(r.value, lens.Length, previous)
    ensures r.Ok? ==> Counted(before, lens[..], list + [r.value])
  {
    if claim.Some? {
      ClaimedNext(bytes, start, claim.value, list, before, lens[..]);
    }
    r := ReadPosting(bytes, start + j * 8, lens.Length, previous);
    if r.Err? {
      return;
    }
    if claim.Some? {
      ClaimedPosting(bytes, start, claim.value, j, r.value, |before|, before);
    }
    var ok := CountPosting(lens, r.value, before, list);
    if !ok {
      r := Err;
    }
  }

  /** Reads `len` postings and adds their frequencies to the document lengths. Whatever list
      stands there validly, the loop accepts it. */
  method ReadPostings(bytes: seq<byte>, start: nat, len: nat, lens: array<nat>, ghost claim: Option<seq<Posting>>)
    returns (ok: bool, ghost list: seq<Posting>)
    requires start + 8 * len <= |bytes| && 0 < len < U32_END
    requires claim.Some? ==> |claim.value| == len && CountableList(bytes, start, claim.value, lens.Length, lens[..])
    modifies lens
    ensures claim.Some? ==> ok && list == claim.value
    ensures ok ==> |list| == len && ListAt(bytes, start, list, len) && ListOk(list, lens.Length)
    ensures ok ==> Counted(old(lens[..]), lens[..], list)
  {
    list := [];
    ghost var before := lens[..];
    var previous: Option<nat> := None;
    for j := 0 to len
      invariant |list| == j && ListAt(bytes, start, list, j) && (j > 0 ==> ListOk(list, lens.Length))
      invariant previous == LastDoc(list)
      invariant Counted(before, lens[..], list)
      invariant ListAgrees(claim, list)
    {
      var r := ReadNext(bytes, start, j, previous, lens, claim, before, list);
      if r.Err? {
        return false, list;
      }
      ListOkNext(list, r.value, lens.Length);
      previous := Some(r.value.doc);
      list := list + [r.value];
    }
    ok := true;
  }

  // ----- The term table -----

  /** Term `idx` and the range of its postings, at the running cursors. */
  ghost predicate TermReads(bytes: seq<byte>, h: Header, idx: nat, termCursor: nat, postingCursor: nat, term: Term,
                            len: nat) {
    && EntryAt(bytes, h.termTableOffset + idx * 32) == Ok(TermEntry(termCursor, |term|, postingCursor, len))
    && SliceIs(bytes, termCursor, term) && h.termBytesOffset <= termCursor && termCursor + |term| <= h.postingsOffset
    && h.postingsOffset <= postingCursor && 0 < len && postingCursor + 8 * len <= |bytes|
  }

  ghost predicate TermOk(term: Term, previous: Option<Term>) {
    IsNormalized(term) && (previous.Some? ==> LexLess(previous.value, term))
  }

  lemma EntryBounds(bytes: seq<byte>, o: nat)
    requires o + 32 <= |bytes| && EntryAt(bytes, o).Ok?
    ensures EntryAt(bytes, o).value.termLen < U32_END && EntryAt(bytes, o).value.postingsLen < U32_END
  {
    Widths();
    UintAtBound(bytes, o + 8, 4);
    UintAtBound(bytes, o + 24, 4);
  }

  lemma SliceUnique(bytes: seq<byte>, o: nat, a: seq<byte>, b: seq<byte>)
    requires SliceIs(bytes, o, a) && SliceIs(bytes, o, b) && |a| == |b|
    ensures a == b
  {
    SliceEquals(bytes, o, a);
    SliceEquals(bytes, o, b);
  }

  /** The checks of one term entry, up to its postings. */
  method ReadTerm(bytes: seq<byte>, h: Header, idx: nat, termCursor: nat, postingCursor: nat, previous: Option<Term>)
    returns (r: Result<(Term, nat)>)
    requires h.termTableOffset + 32 * h.termCount <= |bytes| < U64_END && idx < h.termCount
    requires h.postingsOffset <= |bytes|
    ensures r.Ok? ==>
      TermReads(bytes, h, idx, termCursor, postingCursor, r.value.0, r.value.1) && TermOk(r.value.0, previous)
    ensures r.Ok? ==> |r.value.0| < U32_END && r.value.1 < U32_END
    ensures forall term, len: nat ::
      TermReads(bytes, h, idx, termCursor, postingCursor, term, len) && TermOk(term, previous) ==> r == Ok((term, len))
  {
    var entry := EntryAt(bytes, h.termTableOffset + idx * 32);
    if entry.Err? {
      return Err;
    }
    var e := entry.value;
    EntryBounds(bytes, h.termTableOffset + idx * 32);
    if e.termOffset != termCursor || e.termLen == 0 {
      return Err;
    }
    if e.termOffset < h.termBytesOffset || e.termOffset + e.termLen > h.postingsOffset {
      return Err;
    }
    var term := bytes[e.termOffset..e.termOffset + e.termLen];
    SliceEquals(bytes, e.termOffset, term);
    forall other | |other| == e.termLen && SliceIs(bytes, e.termOffset, other) ensures other == term {
      SliceUnique(bytes, e.termOffset, other, term);
    }
    if !IsNormalized(term) || (previous.Some? && !LexLess(previous.value, term)) {
      return Err;
    }
    var end := CheckedOffset(e.postingsOffset, e.postingsLen, 8);
    if end.Err? || e.postingsOffset < h.postingsOffset || end.value > |bytes| {
      return Err;
    }
    if e.postingsOffset != postingCursor || e.postingsLen == 0 {
      return Err;
    }
    return Ok((term, e.postingsLen));
  }

  lemma {:induction false} TermLensSnoc(terms: seq<Term>, x: Term, n: nat)
    requires n <= |terms|
    ensures TermLensBefore(terms + [x], n) == TermLensBefore(terms, n)
  {
    if n > 0 {
      TermLensSnoc(terms, x, n - 1);
    }
  }

  lemma {:induction false} PostingsBeforeSnoc(postings: seq<seq<Posting>>, x: seq<Posting>, n: nat)
    requires n <= |postings|
    ensures PostingsBefore(postings + [x], n) == PostingsBefore(postings, n)
  {
    if n > 0 {
      PostingsBeforeSnoc(postings, x, n - 1);
    }
  }

  lemma {:induction false} DocLenOfSnoc(postings: seq<seq<Posting>>, x: seq<Posting>, n: nat, d: nat)
    requires n <= |postings|
    ensures DocLenOf(postings + [x], n, d) == DocLenOf(postings, n, d)
  {
    if n > 0 {
      DocLenOfSnoc(postings, x, n - 1, d);
    }
  }

  lemma {:induction false} TermLensPrefix(a: seq<Term>, b: seq<Term>, n: nat)
    requires n <= |a| && n <= |b| && forall i :: 0 <= i < n ==> a[i] == b[i]
    ensures TermLensBefore(a, n) == TermLensBefore(b, n)
  {
    if n > 0 {
      TermLensPrefix(a, b, n - 1);
    }
  }

  lemma {:induction false} PostingsBeforePrefix(a: seq<seq<Posting>>, b: seq<seq<Posting>>, n: nat)
    requires n <= |a| && n <= |b| && forall i :: 0 <= i < n ==> a[i] == b[i]
    ensures PostingsBefore(a, n) == PostingsBefore(b, n)
  {
    if n > 0 {
      PostingsBeforePrefix(a, b, n - 1);
    }
  }

  lemma {:induction false} DocLenOfPrefix(a: seq<seq<Posting>>, b: seq<seq<Posting>>, n: nat, d: nat)
    requires n <= |a| && n <= |b| && forall i :: 0 <= i < n ==> a[i] == b[i]
    ensures DocLenOf(a, n, d) == DocLenOf(b, n, d)
  {
    if n > 0 {
      DocLenOfPrefix(a, b, n - 1, d);
    }
  }

  lemma {:induction false} DocLenMonotone(postings: seq<seq<Posting>>, i: nat, j: nat, d: nat)
    requires i <= j <= |postings|
    ensures DocLenOf(postings, i, d) <= DocLenOf(postings, j, d)
    decreases j
  {
    if i < j {
      DocLenMonotone(postings, i, j - 1, d);
    }
  }

  /** The entry, the bytes and the postings of one term. */
  ghost predicate StoredAt(bytes: seq<byte>, entryOffset: nat, termOffset: nat, postingOffset: nat, term: Term,
                           list: seq<Posting>) {
    && EntryAt(bytes, entryOffset) == Ok(TermEntry(termOffset, |term|, postingOffset, |list|))
    && SliceIs(bytes, termOffset, term) && ListAt(bytes, postingOffset, list, |list|)
  }

  ghost function TermCursor(h: Header, terms: seq<Term>, t: nat): nat
    requires t <= |terms|
  {
    h.termBytesOffset + TermLensBefore(terms, t)
  }

  ghost function PostingCursor(h: Header, postings: seq<seq<Posting>>, t: nat): nat
    requires t <= |postings|
  {
    h.postingsOffset + 8 * PostingsBefore(postings, t)
  }

  ghost predicate TermStored(bytes: seq<byte>, h: Header, terms: seq<Term>, postings: seq<seq<Posting>>, t: nat)
    requires t < |terms| == |postings|
  {
    StoredAt(bytes, h.termTableOffset + t * 32, TermCursor(h, terms, t), PostingCursor(h, postings, t), terms[t],
             postings[t])
  }

  ghost predicate TermValid(terms: seq<Term>, postings: seq<seq<Posting>>, docCount: nat, t: nat)
    requires t < |terms| == |postings|
  {
    IsNormalized(terms[t]) && |terms[t]| < U32_END && ListOk(postings[t], docCount)
  }

  /** What the term loop has established after `|terms|` rounds. */
  ghost predicate Scanned(bytes: seq<byte>, h: Header, terms: seq<Term>, postings: seq<seq<Posting>>) {
    && |terms| == |postings| && StrictlySorted(terms)
    && (forall t :: 0 <= t < |terms| ==> TermStored(bytes, h, terms, postings, t))
    && (forall t :: 0 <= t < |terms| ==> TermValid(terms, postings, h.docCount, t))
  }

  lemma TermStoredSnoc(bytes: seq<byte>, h: Header, terms: seq<Term>, postings: seq<seq<Posting>>, term: Term,
                       list: seq<Posting>, t: nat)
    requires t < |terms| == |postings|
    ensures TermStored(bytes, h, terms + [term], postings + [list], t) == TermStored(bytes, h, terms, postings, t)
  {
    TermLensSnoc(terms, term, t);
    PostingsBeforeSnoc(postings, list, t);
    assert (terms + [term])[t] == terms[t] && (postings + [list])[t] == postings[t];
  }

  lemma TermStoredLast(bytes: seq<byte>, h: Header, terms: seq<Term>, postings: seq<seq<Posting>>, term: Term,
                       list: seq<Posting>)
    requires |terms| == |postings|
    requires StoredAt(bytes, h.termTableOffset + |terms| * 32, TermCursor(h, terms, |terms|),
                      PostingCursor(h, postings, |postings|), term, list)
    ensures TermStored(bytes, h, terms + [term], postings + [list], |terms|)
  {
    TermLensSnoc(terms, term, |terms|);
    PostingsBeforeSnoc(postings, list, |terms|);
    assert (terms + [term])[|terms|] == term && (postings + [list])[|terms|] == list;
  }

  lemma ScannedNext(bytes: seq<byte>, h: Header, terms: seq<Term>, postings: seq<seq<Posting>>, term: Term,
                    list: seq<Posting>)
    requires Scanned(bytes, h, terms, postings)
    requires TermStored(bytes, h, terms + [term], postings + [list], |terms|)
    requires TermOk(term, if terms == [] then None else Some(terms[|terms| - 1])) && |term| < U32_END
    requires ListOk(list, h.docCount)
    ensures Scanned(bytes, h, terms + [term], postings + [list])
  {
    SortedSnoc(terms, term);
    forall t | 0 <= t < |terms| ensures TermStored(bytes, h, terms + [term], postings + [list], t) {
      TermStoredSnoc(bytes, h, terms, postings, term, list, t);
    }
    forall t | 0 <= t < |terms| ensures TermValid(terms + [term], postings + [list], h.docCount, t) {
      assert TermValid(terms, postings, h.docCount, t);
    }
  }

  /** Content that the loop has to accept: all of it well-formed and standing in the file. */
  ghost predicate Scannable(bytes: seq<byte>, h: Header, c: Content) {
    && ContentOk(c) && |c.docLens| == h.docCount && |c.terms| == h.termCount
    && h.postingsOffset == TermCursor(h, c.terms, |c.terms|) && |bytes| == PostingCursor(h, c.postings, |c.postings|)
    && forall t :: 0 <= t < |c.terms| ==> TermStored(bytes, h, c.terms, c.postings, t)
  }

  lemma ScannableRanges(bytes: seq<byte>, h: Header, c: Content, t: nat)
    requires Scannable(bytes, h, c) && t < |c.terms|
    ensures TermCursor(h, c.terms, t) + |c.terms[t]| <= h.postingsOffset
    ensures PostingCursor(h, c.postings, t) + 8 * |c.postings[t]| <= |bytes| && |c.postings[t]| > 0
  {
    TermLensMonotone(c.terms, t + 1, |c.terms|);
    PostingsBeforeMonotone(c.postings, t + 1, |c.postings|);
    assert ListOk(c.postings[t], |c.rowIds|);
  }

  lemma ScannableTerm(bytes: seq<byte>, h: Header, c: Content, t: nat, previous: Option<Term>)
    requires Scannable(bytes, h, c) && t < |c.terms|
    requires previous == if t == 0 then None else Some(c.terms[t - 1])
    ensures TermReads(bytes, h, t, TermCursor(h, c.terms, t), PostingCursor(h, c.postings, t), c.terms[t],
                      |c.postings[t]|)
    ensures TermOk(c.terms[t], previous)
  {
    assert TermStored(bytes, h, c.terms, c.postings, t);
    ScannableRanges(bytes, h, c, t);
  }

  lemma ScannableList(bytes: seq<byte>, h: Header, c: Content, t: nat)
    requires Scannable(bytes, h, c) && t < |c.terms|
    ensures ListAt(bytes, PostingCursor(h, c.postings, t), c.postings[t], |c.postings[t]|)
    ensures ListOk(c.postings[t], h.docCount)
  {
    assert TermStored(bytes, h, c.terms, c.postings, t);
  }

  lemma LengthBound(c: Content, t: nat, d: nat)
    requires ContentOk(c) && t < |c.terms| && d < |c.docLens|
    ensures DocLenOf(c.postings, t, d) + TfIn(c.postings[t], |c.postings[t]|, d) < U64_END
  {
    DocLenMonotone(c.postings, t + 1, |c.postings|, d);
    assert c.docLens[d] == DocLenOf(c.postings, |c.postings|, d);
  }

  lemma ScannableCounts(bytes: seq<byte>, h: Header, c: Content, t: nat, before: seq<nat>)
    requires Scannable(bytes, h, c) && t < |c.terms| && |before| == h.docCount
    requires forall d :: 0 <= d < |before| ==> before[d] == DocLenOf(c.postings, t, d)
    ensures CountableList(bytes, PostingCursor(h, c.postings, t), c.postings[t], h.docCount, before)
  {
    ScannableList(bytes, h, c, t);
    forall d | 0 <= d < |before| ensures before[d] + TfIn(c.postings[t], |c.postings[t]|, d) < U64_END {
      LengthBound(c, t, d);
    }
  }

  ghost predicate CountsUpTo(lens: seq<nat>, postings: seq<seq<Posting>>) {
    forall d :: 0 <= d < |lens| ==> lens[d] == DocLenOf(postings, |postings|, d)
  }

  lemma CountsNext(before: seq<nat>, after: seq<nat>, postings: seq<seq<Posting>>, list: seq<Posting>)
    requires CountsUpTo(before, postings) && Counted(before, after, list)
    ensures CountsUpTo(after, postings + [list])
  {
    forall d | 0 <= d < |after| ensures after[d] == DocLenOf(postings + [list], |postings| + 1, d) {
      DocLenOfSnoc(postings, list, |postings|, d);
    }
  }

  /** Term `n` of claimed content, after `n` rounds that read the terms before it. */
  lemma ClaimedTerm(bytes: seq<byte>, h: Header, c: Content, n: nat, lens: seq<nat>, previous: Option<Term>)
    requires Scannable(bytes, h, c) && n < |c.terms| && |lens| == h.docCount && CountsUpTo(lens, c.postings[..n])
    requires previous == if n == 0 then None else Some(c.terms[n - 1])
    ensures TermReads(bytes, h, n, TermCursor(h, c.terms[..n], n), PostingCursor(h, c.postings[..n], n), c.terms[n],
                      |c.postings[n]|)
    ensures TermOk(c.terms[n], previous)
    ensures CountableList(bytes, PostingCursor(h, c.postings[..n], n), c.postings[n], h.docCount, lens)
  {
    TermLensPrefix(c.terms[..n], c.terms, n);
    PostingsBeforePrefix(c.postings[..n], c.postings, n);
    forall d | 0 <= d < |lens| ensures lens[d] == DocLenOf(c.postings, n, d) {
      DocLenOfPrefix(c.postings[..n], c.postings, n, d);
    }
    ScannableTerm(bytes, h, c, n, previous);
    ScannableCounts(bytes, h, c, n, lens);
  }

  lemma CursorsNext(h: Header, terms: seq<Term>, postings: seq<seq<Posting>>, term: Term, list: seq<Posting>)
    requires |terms| == |postings|
    ensures TermCursor(h, terms + [term], |terms| + 1) == TermCursor(h, terms, |terms|) + |term|
    ensures PostingCursor(h, postings + [list], |postings| + 1) == PostingCursor(h, postings, |postings|) + 8 * |list|
  {
    TermLensSnoc(terms, term, |terms|);
    PostingsBeforeSnoc(postings, list, |postings|);
  }

  /** The loop's variables after `|terms|` rounds. */
  ghost predicate TermLoop(bytes: seq<byte>, h: Header, terms: seq<Term>, postings: seq<seq<Posting>>, lens: seq<nat>,
                           termCursor: nat, postingCursor: nat, previous: Option<Term>) {
    && |terms| == |postings| && Scanned(bytes, h, terms, postings) && |lens| == h.docCount && CountsUpTo(lens, postings)
    && termCursor == TermCursor(h, terms, |terms|) && postingCursor == PostingCursor(h, postings, |postings|)
    && previous == if terms == [] then None else Some(terms[|terms| - 1])
  }

  lemma TermLoopNext(bytes: seq<byte>, h: Header, terms: seq<Term>, postings: seq<seq<Posting>>, before: seq<nat>,
                     termCursor: nat, postingCursor: nat, previous: Option<Term>, term: Term, list: seq<Posting>,
                     after: seq<nat>)
    requires TermLoop(bytes, h, terms, postings, before, termCursor, postingCursor, previous)
    requires TermReads(bytes, h, |terms|, termCursor, postingCursor, term, |list|) && TermOk(term, previous)
    requires |term| < U32_END
    requires ListAt(bytes, postingCursor, list, |list|) && ListOk(list, h.docCount)
    requires Counted(before, after, list)
    ensures TermLoop(bytes, h, terms + [term], postings + [list], after, termCursor + |term|,
                     postingCursor + 8 * |list|, Some(term))
  {
    CountsNext(before, after, postings, list);
    TermStoredLast(bytes, h, terms, postings, term, list);
    ScannedNext(bytes, h, terms, postings, term, list);
    CursorsNext(h, terms, postings, term, list);
  }

  ghost predicate Agrees(claim: Option<Content>, terms: seq<Term>, postings: seq<seq<Posting>>) {
    claim.Some? ==> (
      && |terms| <= |claim.value.terms| && |postings| <= |claim.value.postings|
      && terms == claim.value.terms[..|terms|] && postings == claim.value.postings[..|postings|])
  }

  lemma ClaimedRound(bytes: seq<byte>, h: Header, c: Content, terms: seq<Term>, postings: seq<seq<Posting>>,
                     lens: seq<nat>,
                     termCursor: nat, postingCursor: nat, previous: Option<Term>)
    requires Scannable(bytes, h, c) && Agrees(Some(c), terms, postings) && |terms| < |c.terms|
    requires TermLoop(bytes, h, terms, postings, lens, termCursor, postingCursor, previous)
    ensures TermReads(bytes, h, |terms|, termCursor, postingCursor, c.terms[|terms|], |c.postings[|terms|]|)
    ensures TermOk(c.terms[|terms|], previous)
    ensures CountableList(bytes, postingCursor, c.postings[|terms|], h.docCount, lens)
  {
    assert terms != [] ==> terms[|terms| - 1] == c.terms[|terms| - 1];
    ClaimedTerm(bytes, h, c, |terms|, lens, previous);
  }

  /** One round: the term, its postings and their share of the document lengths. */
  method ReadTermAndPostings(bytes: seq<byte>, h: Header, idx: nat, termCursor: nat, postingCursor: nat,
                             previous: Option<Term>,
                             lens: array<nat>, ghost claim: Option<(Term, seq<Posting>)>)
    returns (r: Result<(Term, nat)>, ghost list: seq<Posting>)
    requires h.termTableOffset + 32 * h.termCount <= |bytes| < U64_END && idx < h.termCount
    requires h.postingsOffset <= |bytes|
    requires lens.Length == h.docCount
    requires claim.Some? ==>
      && TermReads(bytes, h, idx, termCursor, postingCursor, claim.value.0, |claim.value.1|)
      && TermOk(claim.value.0, previous)
      && CountableList(bytes, postingCursor, claim.value.1, h.docCount, lens[..])
    modifies lens
    ensures claim.Some? ==> r.Ok? && r.value.0 == claim.value.0 && list == claim.value.1
    ensures r.Ok? ==> TermReads(bytes, h, idx, termCursor, postingCursor, r.value.0, |list|) && r.value.1 == |list|
    ensures r.Ok? ==> TermOk(r.value.0, previous) && |r.value.0| < U32_END
    ensures r.Ok? ==> ListAt(bytes, postingCursor, list, |list|) && ListOk(list, h.docCount)
    ensures r.Ok? ==> Counted(old(lens[..]), lens[..], list)
  {
    list := [];
    r := ReadTerm(bytes, h, idx, termCursor, postingCursor, previous);
    if r.Ok? {
      var ok;
      ghost var claimed := if claim.Some? then Some(claim.value.1) else None;
      ok, list := ReadPostings(bytes, postingCursor, r.value.1, lens, claimed);
      if !ok {
        r := Err;
      }
    }
  }

  lemma AgreesNext(c: Content, terms: seq<Term>, postings: seq<seq<Posting>>)
    requires Agrees(Some(c), terms, postings) && |terms| == |postings| < |c.terms| == |c.postings|
    ensures Agrees(Some(c), terms + [c.terms[|terms|]], postings + [c.postings[|terms|]])
  {
  }

  /** One round, with what it means for the loop's variables. */
  method ReadRound(bytes: seq<byte>, h: Header, idx: nat, termCursor: nat, postingCursor: nat, previous: Option<Term>,
                   lens: array<nat>, ghost claim: Option<Content>, ghost terms: seq<Term>,
                   ghost postings: seq<seq<Posting>>)
    returns (r: Result<(Term, nat)>, ghost list: seq<Posting>)
    requires h.termTableOffset + 32 * h.termCount <= |bytes| < U64_END && h.postingsOffset <= |bytes|
    requires lens.Length == h.docCount && |terms| == idx < h.termCount
    requires TermLoop(bytes, h, terms, postings, lens[..], termCursor, postingCursor, previous)
    requires claim.Some? ==> Scannable(bytes, h, claim.value)
    requires Agrees(claim, terms, postings)
    modifies lens
    ensures claim.Some? ==> r.Ok?
    ensures r.Ok? ==>
      TermLoop(bytes, h, terms + [r.value.0], postings + [list], lens[..], termCursor + |r.value.0|,
               postingCursor + 8 * r.value.1, Some(r.value.0))
    ensures r.Ok? ==> Agrees(claim, terms + [r.value.0], postings + [list])
  {
    ghost var claimed := None;
    if claim.Some? {
      ClaimedRound(bytes, h, claim.value, terms, postings, lens[..], termCursor, postingCursor, previous);
      AgreesNext(claim.value, terms, postings);
      claimed := Some((claim.value.terms[idx], claim.value.postings[idx]));
    }
    ghost var before := lens[..];
    r, list := ReadTermAndPostings(bytes, h, idx, termCursor, postingCursor, previous, lens, claimed);
    if r.Ok? {
      TermLoopNext(bytes, h, terms, postings, before, termCursor, postingCursor, previous, r.value.0, list, lens[..]);
    }
  }

  lemma AgreesToTheEnd(bytes: seq<byte>, h: Header, c: Content, terms: seq<Term>, postings: seq<seq<Posting>>)
    requires Scannable(bytes, h, c) && Agrees(Some(c), terms, postings) && |terms| == |postings| == h.termCount
    ensures terms == c.terms && postings == c.postings
    ensures h.postingsOffset == TermCursor(h, terms, |terms|) && |bytes| == PostingCursor(h, postings, |postings|)
  {
  }

  /** The term loop. Content that stands in the file and is well-formed is read back exactly. */
  method ReadTerms(bytes: seq<byte>, h: Header, lens: array<nat>, ghost claim: Option<Content>)
    returns (ok: bool, ghost terms: seq<Term>, ghost postings: seq<seq<Posting>>)
    requires h.termTableOffset + 32 * h.termCount <= |bytes| < U64_END && h.postingsOffset <= |bytes|
    requires lens.Length == h.docCount && forall d :: 0 <= d < lens.Length ==> lens[d] == 0
    requires claim.Some? ==> Scannable(bytes, h, claim.value)
    modifies lens
    ensures claim.Some? ==> ok && terms == claim.value.terms && postings == claim.value.postings
    ensures ok ==>
      |terms| == |postings| == h.termCount && Scanned(bytes, h, terms, postings) && CountsUpTo(lens[..], postings)
    ensures ok ==>
      h.postingsOffset == TermCursor(h, terms, |terms|) && |bytes| == PostingCursor(h, postings, |postings|)
  {
    terms, postings := [], [];
    var previous: Option<Term> := None;
    var termCursor: nat, postingCursor: nat := h.termBytesOffset, h.postingsOffset;
    for idx := 0 to h.termCount
      invariant |terms| == idx && TermLoop(bytes, h, terms, postings, lens[..], termCursor, postingCursor, previous)
      invariant Agrees(claim, terms, postings)
    {
      var r;
      ghost var list;
      r, list := ReadRound(bytes, h, idx, termCursor, postingCursor, previous, lens, claim, terms, postings);
      if r.Err? {
        return false, terms, postings;
      }
      var (term, len) := r.value;
      previous := Some(term);
      termCursor := termCursor + |term|;
      postingCursor := postingCursor + 8 * len;
      terms, postings := terms + [term], postings + [list];
    }
    if claim.Some? {
      AgreesToTheEnd(bytes, h, claim.value, terms, postings);
    }
    ok := termCursor == h.postingsOffset && postingCursor == |bytes|;
  }

  // ----- Document lengths -----

  lemma {:induction false} TotalLenBound(lens: seq<u32>, n: nat)
    requires n <= |lens|
    ensures TotalLen(lens, n) <= n * (U32_END - 1)
  {
    if n > 0 {
      TotalLenBound(lens, n - 1);
    }
  }

  lemma {:induction false} TotalLenSnoc(lens: seq<u32>, x: u32, n: nat)
    requires n <= |lens|
    ensures TotalLen(lens + [x], n) == TotalLen(lens, n)
  {
    if n > 0 {
      TotalLenSnoc(lens, x, n - 1);
    }
  }

  /** Compares every stored length with the computed one. The checked sum cannot overflow. */
  method CheckDocLens(bytes: seq<byte>, base: nat, lens: seq<nat>) returns (r: Result<nat>, ghost docLens: seq<u32>)
    requires base + 4 * |lens| <= |bytes| && |lens| < U32_END
    ensures r.Ok? ==> |docLens| == |lens| && UintsAt(bytes, base, 4, docLens, |docLens|)
    ensures r.Ok? ==> (forall d :: 0 <= d < |lens| ==> docLens[d] == lens[d]) && r.value == TotalLen(docLens, |docLens|)
    ensures r.Err? ==> exists d :: 0 <= d < |lens| && UintAt(bytes, base + d * 4, 4) != Ok(lens[d])
  {
    docLens := [];
    var total := 0;
    Widths();
    for idx := 0 to |lens|
      invariant |docLens| == idx && UintsAt(bytes, base, 4, docLens, idx)
      invariant forall d :: 0 <= d < idx ==> docLens[d] == lens[d]
      invariant total == TotalLen(docLens, idx)
    {
      UintAtBound(bytes, base + idx * 4, 4);
      var stored := UintAt(bytes, base + idx * 4, 4).value;
      if stored != lens[idx] {
        return Err, docLens;
      }
      TotalLenBound(docLens, idx);
      assert total + stored < U64_END;
      TotalLenSnoc(docLens, stored, idx);
      total := total + stored;
      docLens := docLens + [stored];
    }
    r := Ok(total);
  }

  // ----- Opening -----

  /** An open sidecar: the mapped bytes and what validation derived from them. */
  datatype Index = Index(bytes: seq<byte>, header: Header, docToRowId: seq<u64>, rowIdToDoc: map<u64, nat>)

  /** `r` inverts the row-id table. */
  ghost predicate Inverts(r: map<u64, nat>, ids: seq<u64>) {
    && (forall id :: id in r ==> r[id] < |ids| && ids[r[id]] == id)
    && (forall d :: 0 <= d < |ids| ==> ids[d] in r && r[ids[d]] == d)
  }

  ghost predicate IndexFor(x: Index, c: Content, f: Fields) {
    && Describes(x.bytes, c, f) && x.header == HeaderOf(c, f)
    && x.docToRowId == c.rowIds && Inverts(x.rowIdToDoc, c.rowIds)
  }

  ghost predicate Accepted(fp: FloatOps, bytes: seq<byte>, c: Content, f: Fields) {
    WellFormed(fp, c, f) && Describes(bytes, c, f)
  }

  lemma DescribedEntry(bytes: seq<byte>, h: Header, c: Content, t: nat)
    requires t < |c.terms| == |c.postings| && |c.terms[t]| < U32_END && |c.postings[t]| < U32_END
    requires h.termTableOffset == TermTableOffset(c) && h.termBytesOffset == TermBytesOffset(c)
    requires h.postingsOffset == PostingsOffset(c)
    requires EntryAt(bytes, h.termTableOffset + t * 32) == Ok(EntryOf(c, t))
    requires TermStands(bytes, h.termBytesOffset, c.terms, t) && ListStands(bytes, h.postingsOffset, c.postings, t)
    ensures TermStored(bytes, h, c.terms, c.postings, t)
  {
    assert EntryOf(c, t) ==
      TermEntry(TermCursor(h, c.terms, t), |c.terms[t]|, PostingCursor(h, c.postings, t), |c.postings[t]|);
  }

  lemma DescribedIsScannable(bytes: seq<byte>, c: Content, f: Fields)
    requires Describes(bytes, c, f) && ContentOk(c)
    ensures Scannable(bytes, HeaderOf(c, f), c)
  {
    forall t | 0 <= t < |c.terms| ensures TermStored(bytes, HeaderOf(c, f), c.terms, c.postings, t) {
      assert ListOk(c.postings[t], |c.rowIds|);
      DescribedEntry(bytes, HeaderOf(c, f), c, t);
    }
  }

  lemma UintsUnique(bytes: seq<byte>, base: nat, w: nat, a: seq<nat>, b: seq<nat>)
    requires |a| == |b| && UintsAt(bytes, base, w, a, |a|) && UintsAt(bytes, base, w, b, |b|)
    ensures a == b
  {
    forall i | 0 <= i < |a| ensures a[i] == b[i] {
      assert UintAt(bytes, base + i * w, w) == Ok(a[i]) && UintAt(bytes, base + i * w, w) == Ok(b[i]);
    }
  }

  lemma CollectedOffsets(fileLen: nat, h: Header, ids: seq<u64>, docLens: seq<u32>, terms: seq<Term>,
                         postings: seq<seq<Posting>>)
    requires LayoutOk(fileLen, h) && |ids| == |docLens| == h.docCount && |terms| == |postings| == h.termCount
    requires h.postingsOffset == TermCursor(h, terms, |terms|)
    requires fileLen == PostingCursor(h, postings, |postings|) < U64_END
    ensures var c := Content(h.tokenizer, ids, docLens, terms, postings);
            && FileLen(c) == fileLen && HeaderOf(c, h.fields) == h && PostingsOffset(c) == h.postingsOffset
            && h.docLenOffset == DocLenOffset(c) && h.termTableOffset == TermTableOffset(c)
            && h.termBytesOffset == TermBytesOffset(c)
  {
  }

  lemma CollectedEntry(bytes: seq<byte>, h: Header, c: Content, t: nat)
    requires t < |c.terms| == |c.postings| && TermStored(bytes, h, c.terms, c.postings, t)
    requires h.termTableOffset == TermTableOffset(c) && h.termBytesOffset == TermBytesOffset(c)
    requires h.postingsOffset == PostingsOffset(c)
    requires |c.terms[t]| < U32_END && |c.postings[t]| < U32_END
    ensures EntryAt(bytes, TermTableOffset(c) + t * 32) == Ok(EntryOf(c, t))
    ensures TermStands(bytes, TermBytesOffset(c), c.terms, t) && ListStands(bytes, PostingsOffset(c), c.postings, t)
  {
    assert EntryOf(c, t) ==
      TermEntry(TermCursor(h, c.terms, t), |c.terms[t]|, PostingCursor(h, c.postings, t), |c.postings[t]|);
  }

  lemma CollectedTerms(bytes: seq<byte>, h: Header, c: Content)
    requires Scanned(bytes, h, c.terms, c.postings)
    requires h.termTableOffset == TermTableOffset(c) && h.termBytesOffset == TermBytesOffset(c)
    requires h.postingsOffset == PostingsOffset(c)
    ensures EntriesAt(bytes, c, |c.terms|) && TermsAt(bytes, TermBytesOffset(c), c.terms, |c.terms|)
    ensures ListsAt(bytes, PostingsOffset(c), c.postings, |c.postings|)
  {
    forall t | 0 <= t < |c.terms|
      ensures EntryAt(bytes, TermTableOffset(c) + t * 32) == Ok(EntryOf(c, t))
      ensures TermStands(bytes, TermBytesOffset(c), c.terms, t) && ListStands(bytes, PostingsOffset(c), c.postings, t)
    {
      assert TermValid(c.terms, c.postings, h.docCount, t) && TermStored(bytes, h, c.terms, c.postings, t);
      CollectedEntry(bytes, h, c, t);
    }
  }

  lemma CollectedContentOk(bytes: seq<byte>, h: Header, c: Content, lens: seq<nat>)
    requires Scanned(bytes, h, c.terms, c.postings) && FileLen(c) < U64_END
    requires |c.rowIds| == |c.docLens| == h.docCount < U32_END && NoRepeat(c.rowIds)
    requires |lens| == h.docCount && CountsUpTo(lens, c.postings) && forall d :: 0 <= d < |lens| ==>
      c.docLens[d] == lens[d]
    ensures ContentOk(c)
  {
    forall t | 0 <= t < |c.terms|
      ensures IsNormalized(c.terms[t]) && |c.terms[t]| < U32_END && ListOk(c.postings[t], |c.rowIds|)
    {
      assert TermValid(c.terms, c.postings, h.docCount, t);
    }
  }

  lemma CollectedAccepted(fp: FloatOps, bytes: seq<byte>, h: Header, c: Content, lens: seq<nat>)
    requires ParseHeader(bytes) == Ok(h) && LayoutOk(|bytes|, h) && |bytes| < U64_END
    requires c.tokenizer == h.tokenizer && |c.rowIds| == |c.docLens| == h.docCount
    requires |c.terms| == |c.postings| == h.termCount
    requires NoRepeat(c.rowIds) && UintsAt(bytes, HEADER_LEN, 8, c.rowIds, |c.rowIds|)
    requires UintsAt(bytes, h.docLenOffset, 4, c.docLens, |c.docLens|)
    requires Scanned(bytes, h, c.terms, c.postings)
    requires h.postingsOffset == TermCursor(h, c.terms, |c.terms|)
    requires |bytes| == PostingCursor(h, c.postings, |c.postings|)
    requires |lens| == h.docCount && CountsUpTo(lens, c.postings) && forall d :: 0 <= d < |lens| ==>
      c.docLens[d] == lens[d]
    requires AvgMatches(fp, h.fields.avgDocLen, h.docCount, TotalLen(c.docLens, |c.docLens|))
    ensures Accepted(fp, bytes, c, h.fields) && h == HeaderOf(c, h.fields)
  {
    CollectedOffsets(|bytes|, h, c.rowIds, c.docLens, c.terms, c.postings);
    CollectedTerms(bytes, h, c);
    CollectedContentOk(bytes, h, c, lens);
  }

  lemma ClaimedIds(bytes: seq<byte>, ids: seq<u64>)
    requires UintsAt(bytes, HEADER_LEN, 8, ids, |ids|) && NoRepeat(ids)
    ensures forall i, j :: 0 <= i < j < |ids| ==>
      UintAt(bytes, HEADER_LEN + i * 8, 8) != UintAt(bytes, HEADER_LEN + j * 8, 8)
  {
    forall i, j | 0 <= i < j < |ids|
      ensures UintAt(bytes, HEADER_LEN + i * 8, 8) != UintAt(bytes, HEADER_LEN + j * 8, 8)
    {
      assert UintAt(bytes, HEADER_LEN + i * 8, 8) == Ok(ids[i]) && UintAt(bytes, HEADER_LEN + j * 8, 8) == Ok(ids[j]);
    }
  }

  lemma ClaimedLens(bytes: seq<byte>, base: nat, c: Content, lens: seq<nat>)
    requires ContentOk(c) && |lens| == |c.docLens| && UintsAt(bytes, base, 4, c.docLens, |c.docLens|)
    requires CountsUpTo(lens, c.postings)
    ensures forall d :: 0 <= d < |lens| ==> UintAt(bytes, base + d * 4, 4) == Ok(lens[d])
  {
  }

  /** What an accepted file promises to the loops of the validator. */
  lemma ClaimPrepared(fp: FloatOps, bytes: seq<byte>, c: Content, f: Fields)
    requires Accepted(fp, bytes, c, f)
    ensures LayoutOk(|bytes|, HeaderOf(c, f)) && Scannable(bytes, HeaderOf(c, f), c)
    ensures forall i, j :: 0 <= i < j < |c.rowIds| ==>
      UintAt(bytes, HEADER_LEN + i * 8, 8) != UintAt(bytes, HEADER_LEN + j * 8, 8)
  {
    WellFormedLayout(fp, c, f);
    DescribedIsScannable(bytes, c, f);
    ClaimedIds(bytes, c.rowIds);
  }

  /** The loop over the stored lengths and the test of the average. */
  method CheckLengths(fp: FloatOps, bytes: seq<byte>, h: Header, lens: seq<nat>, ghost claim: Option<Content>)
    returns (ok: bool, ghost docLens: seq<u32>)
    requires LayoutOk(|bytes|, h) && |lens| == h.docCount
    requires claim.Some? ==> (
      && Accepted(fp, bytes, claim.value, h.fields) && h == HeaderOf(claim.value, h.fields)
      && CountsUpTo(lens, claim.value.postings))
    ensures claim.Some? ==> ok
    ensures ok ==> |docLens| == |lens| && UintsAt(bytes, h.docLenOffset, 4, docLens, |docLens|)
    ensures ok ==> (forall d :: 0 <= d < |lens| ==> docLens[d] == lens[d])
    ensures ok ==> AvgMatches(fp, h.fields.avgDocLen, h.docCount, TotalLen(docLens, |docLens|))
  {
    if claim.Some? {
      ClaimedLens(bytes, h.docLenOffset, claim.value, lens);
    }
    var total;
    total, docLens := CheckDocLens(bytes, h.docLenOffset, lens);
    if total.Err? {
      return false, docLens;
    }
    if claim.Some? {
      UintsUnique(bytes, h.docLenOffset, 4, docLens, claim.value.docLens);
    }
    ok := AvgMatches(fp, h.fields.avgDocLen, h.docCount, total.value);
  }

  /** `validate_layout` */
  method ValidateLayout(fp: FloatOps, bytes: seq<byte>, h: Header, ghost claim: Option<Content>)
    returns (r: Result<Index>, ghost c: Content)
    requires |bytes| < U64_END && ParseHeader(bytes) == Ok(h)
    requires claim.Some? ==> Accepted(fp, bytes, claim.value, h.fields) && h == HeaderOf(claim.value, h.fields)
    ensures claim.Some? ==> r.Ok?
    ensures r.Ok? ==> Accepted(fp, bytes, c, h.fields) && r.value.bytes == bytes && IndexFor(r.value, c, h.fields)
  {
    c := Content(h.tokenizer, [], [], [], []);
    if claim.Some? {
      ClaimPrepared(fp, bytes, claim.value, h.fields);
    }
    if !LayoutOk(|bytes|, h) {
      return Err, c;
    }
    var ids, rowIdToDoc := ReadRowIds(bytes, h.docCount);
    if ids.Err? {
      return Err, c;
    }
    var lens := new nat[h.docCount](_ => 0);
    var ok;
    ghost var terms, postings, docLens;
    ok, terms, postings := ReadTerms(bytes, h, lens, claim);
    if !ok {
      return Err, c;
    }
    ok, docLens := CheckLengths(fp, bytes, h, lens[..], claim);
    if !ok {
      return Err, c;
    }
    c := Content(h.tokenizer, ids.value, docLens, terms, postings);
    CollectedAccepted(fp, bytes, h, c, lens[..]);
    r := Ok(Index(bytes, h, ids.value, rowIdToDoc));
  }

  lemma DescribedHeader(bytes: seq<byte>, c: Content, f: Fields)
    requires Describes(bytes, c, f)
    ensures ParseHeader(bytes) == Ok(HeaderOf(c, f)) && HeaderOf(c, f).fields == f
  {
  }

  /** `open`: a file is accepted exactly when it describes some well-formed content, and the
      index then answers for that content. */
  method Open(fp: FloatOps, bytes: seq<byte>) returns (r: Result<Index>, ghost c: Content, ghost f: Fields)
    requires |bytes| < U64_END
    ensures r.Ok? <==> exists c', f' :: Accepted(fp, bytes, c', f')
    ensures r.Ok? ==> Accepted(fp, bytes, c, f) && r.value.bytes == bytes && IndexFor(r.value, c, f)
  {
    ghost var claim: Option<Content> := None;
    c, f := Content(Simple, [], [], [], []), Fields(0, ZERO, ZERO, ZERO);
    if exists c', f' :: Accepted(fp, bytes, c', f') {
      c, f :| Accepted(fp, bytes, c, f);
      DescribedHeader(bytes, c, f);
      claim := Some(c);
    }
    var header := ParseHeader(bytes);
    if header.Err? {
      return Err, c, f;
    }
    r, c := ValidateLayout(fp, bytes, header.value, claim);
    f := header.value.fields;
  }

  // ----- The format is canonical -----

  /** An accepted file is the encoding of its content and its four free fields: no byte is
      left to choose. */
  lemma AcceptedIsCanonical(fp: FloatOps, bytes: seq<byte>, c: Content, f: Fields)
    requires Accepted(fp, bytes, c, f)
    ensures bytes == Encode(c, f)
  {
    EncodesIffDescribes(bytes, c, f);
  }

  lemma TermDecodesOnce(bytes: seq<byte>, h: Header, a: Content, b: Content, t: nat)
    requires Scannable(bytes, h, a) && Scannable(bytes, h, b) && t < |a.terms| == |b.terms|
    ensures a.terms[t] == b.terms[t] && a.postings[t] == b.postings[t]
  {
    assert TermStored(bytes, h, a.terms, a.postings, t) && TermStored(bytes, h, b.terms, b.postings, t);
    SliceUnique(bytes, TermCursor(h, a.terms, t), a.terms[t], b.terms[t]);
    ListAtUnique(bytes, PostingCursor(h, a.postings, t), a.postings[t], b.postings[t], |a.postings[t]|);
  }

  lemma TermsDecodeOnce(bytes: seq<byte>, h: Header, a: Content, b: Content)
    requires Scannable(bytes, h, a) && Scannable(bytes, h, b)
    ensures a.terms == b.terms && a.postings == b.postings
  {
    forall t | 0 <= t < |a.terms| ensures a.terms[t] == b.terms[t] && a.postings[t] == b.postings[t] {
      TermDecodesOnce(bytes, h, a, b, t);
    }
  }

  /** The bytes determine header fields and content, whether or not the fields pass the checks. */
  lemma DescribedOnce(bytes: seq<byte>, a: Content, fa: Fields, b: Content, fb: Fields)
    requires Describes(bytes, a, fa) && Describes(bytes, b, fb) && ContentOk(a) && ContentOk(b)
    ensures a == b && fa == fb
  {
    DescribedHeader(bytes, a, fa);
    DescribedHeader(bytes, b, fb);
    DescribedIsScannable(bytes, a, fa);
    DescribedIsScannable(bytes, b, fb);
    TermsDecodeOnce(bytes, HeaderOf(a, fa), a, b);
    UintsUnique(bytes, HEADER_LEN, 8, a.rowIds, b.rowIds);
    UintsUnique(bytes, DocLenOffset(a), 4, a.docLens, b.docLens);
  }

  /** Reading is a function: an accepted file has one content and one set of fields. */
  lemma AcceptedOnce(fp: FloatOps, bytes: seq<byte>, a: Content, fa: Fields, b: Content, fb: Fields)
    requires Accepted(fp, bytes, a, fa) && Accepted(fp, bytes, b, fb)
    ensures a == b && fa == fb
  {
    DescribedOnce(bytes, a, fa, b, fb);
  }

  /** Encoding well-formed content gives an accepted file. */
  lemma EncodedIsAccepted(fp: FloatOps, c: Content, f: Fields)
    requires WellFormed(fp, c, f)
    ensures Accepted(fp, Encode(c, f), c, f)
  {
    EncodesIffDescribes(Encode(c, f), c, f);
  }

  /** The declared posting count is bounded by the postings present, and otherwise free: of the
      files that differ from an accepted one in that field, exactly those are accepted too. */
  lemma PostingsCountIsFree(fp: FloatOps, bytes: seq<byte>, c: Content, f: Fields, n: u64)
    requires Accepted(fp, bytes, c, f)
    ensures var other := Encode(c, f.(postingsCount := n));
            (exists c', f' :: Accepted(fp, other, c', f')) <==> n <= PostingsBefore(c.postings, |c.postings|)
  {
    var g := f.(postingsCount := n);
    var other := Encode(c, g);
    EncodesIffDescribes(other, c, g);
    if WellFormed(fp, c, g) {
      assert Accepted(fp, other, c, g);
    }
    forall c', f' | Accepted(fp, other, c', f') ensures WellFormed(fp, c, g) {
      DescribedOnce(other, c, g, c', f');
    }
  }
}
