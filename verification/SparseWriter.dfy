/** Building a sidecar: the builder, the inverted index and its serialization. */
module SparseWriter {
  import opened Wrappers
  import opened Floats
  import opened Bytes
  import opened SparseFormat
  import opened SparseCodec
  import opened SparseReader
  import opened Tokenizer

  datatype PendingDoc = PendingDoc(rowId: u64, terms: seq<Term>)

  ghost predicate DistinctRows(docs: seq<PendingDoc>) {
    forall i, j :: 0 <= i < j < |docs| ==> docs[i].rowId != docs[j].rowId
  }

  ghost predicate DocsNormalized(docs: seq<PendingDoc>) {
    forall d :: 0 <= d < |docs| ==> AllNormalized(docs[d].terms)
  }

  class SparseIndexBuilder {
    const tokenizer: TokenizerKind
    var docs: seq<PendingDoc>
    var seenRowIds: set<u64>

    ghost predicate Valid()
      reads this
    {
      && DistinctRows(docs) && DocsNormalized(docs)
      && forall id :: id in seenRowIds <==> exists d :: 0 <= d < |docs| && docs[d].rowId == id
    }

    constructor (tokenizer: TokenizerKind)
      ensures Valid() && docs == [] && this.tokenizer == tokenizer
    {
      this.tokenizer := tokenizer;
      docs := [];
      seenRowIds := {};
    }

    /** Rejects a repeated row id and leaves the builder as it was. */
    method AddDoc(rowId: u64, terms: seq<Term>) returns (ok: bool)
      requires Valid() && AllNormalized(terms)
      modifies this
      ensures Valid()
      ensures ok <==> forall d :: 0 <= d < |old(docs)| ==> old(docs)[d].rowId != rowId
      ensures docs == if ok then old(docs) + [PendingDoc(rowId, terms)] else old(docs)
    {
      if rowId in seenRowIds {
        return false;
      }
      seenRowIds := seenRowIds + {rowId};
      docs := docs + [PendingDoc(rowId, terms)];
      assert docs[|docs| - 1].rowId == rowId;
      assert forall d :: 0 <= d < |old(docs)| ==> docs[d] == old(docs)[d];
      ok := true;
    }

    method AddText(rowId: u64, text: seq<byte>) returns (ok: bool)
      requires Valid()
      modifies this
      ensures Valid()
      ensures ok <==> forall d :: 0 <= d < |old(docs)| ==> old(docs)[d].rowId != rowId
      ensures docs == if ok then old(docs) + [PendingDoc(rowId, Tokens(tokenizer, text))] else old(docs)
    {
      var terms := TokenizeText(tokenizer, text);
      TokensNormalized(tokenizer, text);
      ok := AddDoc(rowId, terms);
    }

    method AddNormalizedTerms(rowId: u64, terms: seq<seq<byte>>) returns (ok: bool)
      requires Valid()
      modifies this
      ensures Valid()
      ensures ok <==> forall d :: 0 <= d < |old(docs)| ==> old(docs)[d].rowId != rowId
      ensures docs == if ok then old(docs) + [PendingDoc(rowId, NormalizeAll(terms))] else old(docs)
    {
      var normalized := NormalizeTokens(terms);
      NormalizeAllNormalizes(terms);
      ok := AddDoc(rowId, normalized);
    }
  }

  // ----- The inverted index a document list stands for -----

  ghost function Count(doc: PendingDoc, w: Term): nat {
    multiset(doc.terms)[w]
  }

  ghost predicate CountsFit(doc: PendingDoc) {
    forall w :: Count(doc, w) < U16_END
  }

  ghost predicate DocFits(doc: PendingDoc) {
    |doc.terms| < U32_END && [] !in doc.terms && CountsFit(doc)
  }

  ghost predicate DocsFit(docs: seq<PendingDoc>, n: nat)
    requires n <= |docs|
  {
    forall d :: 0 <= d < n ==> DocFits(docs[d])
  }

  /** One posting for each of the first `n` documents that counts the term at all. */
  ghost function ListOf(counts: seq<u16>, n: nat): seq<Posting>
    requires n <= |counts| < U32_END
  {
    if n == 0 then [] else ListOf(counts, n - 1) + PostingFor(n - 1, counts[n - 1])
  }

  ghost function PostingFor(ordinal: u32, count: u16): seq<Posting> {
    if count == 0 then [] else [Posting(ordinal, count)]
  }

  /** How often each of the first `n` documents contains `w`. */
  ghost function CountsOf(docs: seq<PendingDoc>, n: nat, w: Term): (s: seq<u16>)
    requires n <= |docs| && DocsFit(docs, n)
    ensures |s| == n && forall d :: 0 <= d < n ==> s[d] == Count(docs[d], w)
  {
    assert forall d :: 0 <= d < n ==> DocFits(docs[d]) && Count(docs[d], w) < U16_END;
    seq(n, d requires 0 <= d < n => Count(docs[d], w))
  }

  /** The posting list of `w` over the first `n` documents. */
  ghost function PostingsOf(docs: seq<PendingDoc>, n: nat, w: Term): seq<Posting>
    requires n <= |docs| < U32_END && DocsFit(docs, n)
  {
    ListOf(CountsOf(docs, n, w), n)
  }

  lemma {:induction false} ListOfPrefix(a: seq<u16>, b: seq<u16>, n: nat)
    requires n <= |a| < U32_END && n <= |b| < U32_END && forall i :: 0 <= i < n ==> a[i] == b[i]
    ensures ListOf(a, n) == ListOf(b, n)
  {
    if n > 0 {
      ListOfPrefix(a, b, n - 1);
    }
  }

  lemma PostingsOfNext(docs: seq<PendingDoc>, n: nat, w: Term)
    requires n < |docs| < U32_END && DocsFit(docs, n + 1)
    ensures Count(docs[n], w) < U16_END
    ensures PostingsOf(docs, n + 1, w) == PostingsOf(docs, n, w) + PostingFor(n, Count(docs[n], w))
  {
    assert DocFits(docs[n]);
    ListOfPrefix(CountsOf(docs, n + 1, w), CountsOf(docs, n, w), n);
  }

  ghost predicate Mentioned(docs: seq<PendingDoc>, w: Term) {
    exists d :: 0 <= d < |docs| && w in docs[d].terms
  }

  /** `c` is the inverted index of `docs`: nothing missing, nothing added. */
  ghost predicate IsIndexOf(c: Content, tokenizer: TokenizerKind, docs: seq<PendingDoc>)
    requires |docs| < U32_END && DocsFit(docs, |docs|)
  {
    && c.tokenizer == tokenizer && |c.rowIds| == |c.docLens| == |docs|
    && (forall d :: 0 <= d < |docs| ==> c.rowIds[d] == docs[d].rowId && c.docLens[d] == |docs[d].terms|)
    && |c.terms| == |c.postings| && StrictlySorted(c.terms)
    && (forall w :: w in c.terms <==> Mentioned(docs, w))
    && (forall t :: 0 <= t < |c.terms| ==> c.postings[t] == PostingsOf(docs, |docs|, c.terms[t]))
  }

  /** Documents the format has no room for. */
  ghost predicate TooLarge(tokenizer: TokenizerKind, docs: seq<PendingDoc>) {
    |docs| >= U32_END || !DocsFit(docs, |docs|) || exists c :: IsIndexOf(c, tokenizer, docs) && FileLen(c) >= U64_END
  }

  lemma LastTerm(a: seq<Term>, b: seq<Term>)
    requires StrictlySorted(a) && StrictlySorted(b) && a != [] && b != []
    requires a[|a| - 1] in b && b[|b| - 1] in a
    ensures a[|a| - 1] == b[|b| - 1]
  {
    var i :| 0 <= i < |b| && b[i] == a[|a| - 1];
    var j :| 0 <= j < |a| && a[j] == b[|b| - 1];
    LexTotal(a[|a| - 1], b[|b| - 1]);
  }

  lemma SortedInit(a: seq<Term>, w: Term)
    requires StrictlySorted(a) && a != []
    ensures StrictlySorted(a[..|a| - 1])
    ensures w in a[..|a| - 1] <==> w in a && w != a[|a| - 1]
  {
    var k := |a| - 1;
    if w in a[..k] {
      var i :| 0 <= i < k && a[i] == w;
      LexTotal(a[i], a[k]);
    }
  }

  /** A set has one strictly sorted listing. */
  lemma {:induction false} SortedUnique(a: seq<Term>, b: seq<Term>)
    requires StrictlySorted(a) && StrictlySorted(b) && forall w :: w in a <==> w in b
    ensures a == b
  {
    assert b != [] ==> b[|b| - 1] in b;
    if a != [] {
      var k := |a| - 1;
      assert a[k] in a;
      LastTerm(a, b);
      forall w ensures w in a[..k] <==> w in b[..|b| - 1] {
        SortedInit(a, w);
        SortedInit(b, w);
      }
      SortedInit(a, []);
      SortedInit(b, []);
      SortedUnique(a[..k], b[..|b| - 1]);
      assert a == a[..k] + [a[k]] && b == b[..|b| - 1] + [a[k]];
    }
  }

  /** The documents determine the index. */
  lemma IndexUnique(a: Content, b: Content, tokenizer: TokenizerKind, docs: seq<PendingDoc>)
    requires |docs| < U32_END && DocsFit(docs, |docs|) && IsIndexOf(a, tokenizer, docs) && IsIndexOf(b, tokenizer, docs)
    ensures a == b
  {
    SortedUnique(a.terms, b.terms);
    assert a.rowIds == b.rowIds && a.docLens == b.docLens && a.postings == b.postings;
  }

  lemma OneIndex(tokenizer: TokenizerKind, docs: seq<PendingDoc>, c: Content)
    requires |docs| < U32_END && DocsFit(docs, |docs|) && IsIndexOf(c, tokenizer, docs)
    ensures TooLarge(tokenizer, docs) <==> FileLen(c) >= U64_END
  {
    forall c' | IsIndexOf(c', tokenizer, docs) ensures c' == c {
      IndexUnique(c', c, tokenizer, docs);
    }
  }

  // ----- Counting one document -----

  /** The `counts` map of one document. */
  method CountTerms(doc: PendingDoc) returns (r: Result<map<Term, nat>>)
    ensures r.Ok? <==> [] !in doc.terms
    ensures r.Ok? ==> forall w :: w in r.value <==> w in doc.terms
    ensures r.Ok? ==> forall w :: w in r.value ==> r.value[w] == Count(doc, w)
  {
    var counts: map<Term, nat> := map[];
    for n := 0 to |doc.terms|
      invariant [] !in doc.terms[..n]
      invariant forall w :: w in counts <==> w in multiset(doc.terms[..n])
      invariant forall w :: w in counts ==> counts[w] == multiset(doc.terms[..n])[w]
    {
      var term := doc.terms[n];
      assert doc.terms[..n + 1] == doc.terms[..n] + [term];
      if term == [] {
        return Err;
      }
      counts := counts[term := (if term in counts then counts[term] else 0) + 1];
    }
    assert doc.terms[..|doc.terms|] == doc.terms;
    r := Ok(counts);
  }

  /** The list stored for `w`, empty when there is none. */
  function ListFor(postings: map<Term, seq<Posting>>, w: Term): seq<Posting> {
    if w in postings then postings[w] else []
  }

  ghost predicate NoEmptyList(postings: map<Term, seq<Posting>>) {
    forall w :: w in postings ==> postings[w] != []
  }

  /** `w` has been handled when it is counted and no longer pending. */
  ghost predicate WordState(all: map<Term, seq<Posting>>, postings: map<Term, seq<Posting>>, counts: map<Term, nat>,
                            pending: set<Term>, ordinal: u32, w: Term) {
    if w in counts && w !in pending then
      0 < counts[w] < U16_END && ListFor(all, w) == ListFor(postings, w) + [Posting(ordinal, counts[w])]
    else ListFor(all, w) == ListFor(postings, w)
  }

  lemma WordStateNext(all: map<Term, seq<Posting>>, postings: map<Term, seq<Posting>>, counts: map<Term, nat>,
                      pending: set<Term>, ordinal: u32, term: Term, w: Term)
    requires WordState(all, postings, counts, pending, ordinal, w)
    requires WordState(all, postings, counts, pending, ordinal, term)
    requires term in pending && term in counts && 0 < counts[term] < U16_END
    ensures WordState(all[term := ListFor(all, term) + [Posting(ordinal, counts[term])]], postings, counts,
                      pending - {term}, ordinal, w)
  {
  }

  lemma WordStateEnd(all: map<Term, seq<Posting>>, postings: map<Term, seq<Posting>>, counts: map<Term, nat>,
                     ordinal: u32, doc: PendingDoc, w: Term)
    requires WordState(all, postings, counts, {}, ordinal, w) && (w in counts <==> w in doc.terms)
    requires w in counts ==> counts[w] == Count(doc, w)
    ensures Count(doc, w) < U16_END
    ensures ListFor(all, w) ==
      ListFor(postings, w) + if Count(doc, w) == 0 then [] else [Posting(ordinal, Count(doc, w))]
  {
    assert w !in counts ==> Count(doc, w) == 0;
    assert ListFor(postings, w) + [] == ListFor(postings, w);
  }

  /** The inner loop: one posting for every counted term. Its order does not matter. */
  method AddCounts(postings: map<Term, seq<Posting>>, counts: map<Term, nat>, ordinal: u32, ghost doc: PendingDoc)
    returns (r: Result<map<Term, seq<Posting>>>)
    requires NoEmptyList(postings) && |doc.terms| < U32_END && [] !in doc.terms
    requires forall w :: w in counts <==> w in doc.terms
    requires forall w :: w in counts ==> counts[w] == Count(doc, w)
    ensures r.Ok? <==> DocFits(doc)
    ensures r.Ok? ==> NoEmptyList(r.value)
    ensures r.Ok? ==> forall w :: ListFor(r.value, w) == ListFor(postings, w) + PostingFor(ordinal, Count(doc, w))
  {
    var all := postings;
    var pending := counts.Keys;
    while pending != {}
      invariant pending <= counts.Keys && NoEmptyList(all)
      invariant forall w :: WordState(all, postings, counts, pending, ordinal, w)
    {
      var term :| term in pending;
      assert counts[term] == Count(doc, term);
      if counts[term] >= U16_END {
        assert !CountsFit(doc);
        return Err;
      }
      var next := all[term := ListFor(all, term) + [Posting(ordinal, counts[term])]];
      var rest := pending - {term};
      forall w ensures WordState(next, postings, counts, rest, ordinal, w) {
        WordStateNext(all, postings, counts, pending, ordinal, term, w);
      }
      all, pending := next, rest;
    }
    forall w
      ensures Count(doc, w) < U16_END
      ensures ListFor(all, w) ==
        ListFor(postings, w) + if Count(doc, w) == 0 then [] else [Posting(ordinal, Count(doc, w))]
    {
      WordStateEnd(all, postings, counts, ordinal, doc, w);
    }
    r := Ok(all);
  }

  // ----- All documents -----

  /** The map after the first `n` documents. */
  ghost predicate PostingsUpTo(postings: map<Term, seq<Posting>>, docs: seq<PendingDoc>, n: nat)
    requires n <= |docs| < U32_END && DocsFit(docs, n)
  {
    NoEmptyList(postings) && forall w :: ListFor(postings, w) == PostingsOf(docs, n, w)
  }

  /** `next` has one more posting in the list of each word of the document. */
  ghost predicate AddsDoc(postings: map<Term, seq<Posting>>, next: map<Term, seq<Posting>>, doc: PendingDoc,
                          ordinal: u32)
    requires DocFits(doc)
  {
    NoEmptyList(next) && forall w :: ListFor(next, w) == ListFor(postings, w) + PostingFor(ordinal, Count(doc, w))
  }

  lemma PostingsStart(docs: seq<PendingDoc>)
    requires |docs| < U32_END
    ensures PostingsUpTo(map[], docs, 0)
  {
  }

  lemma PostingsStep(postings: map<Term, seq<Posting>>, next: map<Term, seq<Posting>>, docs: seq<PendingDoc>, n: nat)
    requires n < |docs| < U32_END && DocsFit(docs, n) && PostingsUpTo(postings, docs, n)
    requires DocFits(docs[n]) && AddsDoc(postings, next, docs[n], n)
    ensures DocsFit(docs, n + 1) && PostingsUpTo(next, docs, n + 1)
  {
    forall w ensures ListFor(next, w) == PostingsOf(docs, n + 1, w) {
      PostingsOfNext(docs, n, w);
      assert ListFor(postings, w) == PostingsOf(docs, n, w);
    }
  }

  /** One document: its words counted, and a posting added for each. */
  method AddPending(postings: map<Term, seq<Posting>>, doc: PendingDoc, ordinal: u32)
    returns (r: Result<map<Term, seq<Posting>>>)
    requires NoEmptyList(postings)
    ensures r.Ok? <==> DocFits(doc)
    ensures r.Ok? ==> AddsDoc(postings, r.value, doc, ordinal)
  {
    if |doc.terms| >= U32_END {
      return Err;
    }
    var counts := CountTerms(doc);
    if counts.Err? {
      return Err;
    }
    r := AddCounts(postings, counts.value, ordinal, doc);
  }

  method AddNext(postings: map<Term, seq<Posting>>, docs: seq<PendingDoc>, n: nat)
    returns (r: Result<map<Term, seq<Posting>>>)
    requires n < |docs| < U32_END && DocsFit(docs, n) && PostingsUpTo(postings, docs, n)
    ensures r.Ok? <==> DocsFit(docs, n + 1)
    ensures r.Ok? ==> PostingsUpTo(r.value, docs, n + 1)
  {
    r := AddPending(postings, docs[n], n);
    if r.Ok? {
      PostingsStep(postings, r.value, docs, n);
    }
  }

  method BuildPostings(docs: seq<PendingDoc>) returns (r: Result<map<Term, seq<Posting>>>)
    requires |docs| < U32_END
    ensures r.Ok? <==> DocsFit(docs, |docs|)
    ensures r.Ok? ==> PostingsUpTo(r.value, docs, |docs|)
  {
    PostingsStart(docs);
    r := Ok(map[]);
    for n := 0 to |docs|
      invariant r.Ok? && DocsFit(docs, n) && PostingsUpTo(r.value, docs, n)
    {
      r := AddNext(r.value, docs, n);
      if r.Err? {
        return;
      }
    }
  }

  lemma {:induction false} LeastExists(s: set<Term>) returns (m: Term)
    requires s != {}
    ensures m in s && forall x :: x in s ==> x == m || LexLess(m, x)
  {
    m :| m in s;
    if s != {m} {
      var rest := s - {m};
      var k := LeastExists(rest);
      LexTotal(k, m);
      if LexLess(k, m) {
        m := k;
      } else {
        forall x | x in s ensures x == m || LexLess(m, x) {
          if x != m && x != k {
            assert x in rest;
            LexTransitive(m, k, x);
          }
        }
      }
    }
  }

  /** The keys in the order a `BTreeMap` yields them. */
  method SortedKeys(s: set<Term>) returns (terms: seq<Term>)
    ensures StrictlySorted(terms) && forall w :: w in terms <==> w in s
  {
    terms := [];
    var left := s;
    while left != {}
      invariant StrictlySorted(terms) && left <= s
      invariant forall w :: w in s <==> w in terms || w in left
      invariant forall i, w :: 0 <= i < |terms| && w in left ==> LexLess(terms[i], w)
    {
      ghost var least := LeastExists(left);
      var m :| m in left && forall x :: x in left ==> x == m || LexLess(m, x);
      SortedSnoc(terms, m);
      assert m !in terms by { LexTotal(m, m); }
      terms, left := terms + [m], left - {m};
    }
  }

  lemma {:induction false} ListOfZeros(counts: seq<u16>, n: nat)
    requires n <= |counts| < U32_END
    ensures |ListOf(counts, n)| == 0 <==> forall i :: 0 <= i < n ==> counts[i] == 0
  {
    if n > 0 {
      ListOfZeros(counts, n - 1);
    }
  }

  lemma PostingsOfMention(docs: seq<PendingDoc>, w: Term)
    requires |docs| < U32_END && DocsFit(docs, |docs|)
    ensures PostingsOf(docs, |docs|, w) == [] <==> !Mentioned(docs, w)
  {
    ListOfZeros(CountsOf(docs, |docs|, w), |docs|);
    forall d | 0 <= d < |docs| ensures w in docs[d].terms <==> Count(docs[d], w) > 0 {
      assert w in docs[d].terms <==> w in multiset(docs[d].terms);
    }
  }

  /** The built index with its two totals. */
  datatype BuiltSparse = BuiltSparse(content: Content, postingsCount: nat, avgDocLen: F32)

  /** Counts postings with checked additions. */
  method CountPostings(postings: seq<seq<Posting>>) returns (r: Result<nat>)
    ensures var n := PostingsBefore(postings, |postings|); r == if n < U64_END then Ok(n) else Err
  {
    var count := 0;
    for t := 0 to |postings|
      invariant count == PostingsBefore(postings, t) < U64_END
    {
      PostingsBeforeMonotone(postings, t + 1, |postings|);
      if count + |postings[t]| >= U64_END {
        return Err;
      }
      count := count + |postings[t]|;
    }
    r := Ok(count);
  }

  /** Sums the document lengths; the checked addition cannot overflow. */
  method SumDocLens(lens: seq<u32>) returns (total: nat)
    requires |lens| < U32_END
    ensures total == TotalLen(lens, |lens|)
  {
    total := 0;
    for d := 0 to |lens|
      invariant total == TotalLen(lens, d)
    {
      TotalLenBound(lens, d + 1);
      assert total + lens[d] < U64_END;
      total := total + lens[d];
    }
  }

  /** The index of the documents, as content. */
  method BuildContent(tokenizer: TokenizerKind, docs: seq<PendingDoc>) returns (r: Result<Content>)
    requires |docs| < U32_END
    ensures r.Ok? <==> DocsFit(docs, |docs|)
    ensures r.Ok? ==> IsIndexOf(r.value, tokenizer, docs)
  {
    var built := BuildPostings(docs);
    if built.Err? {
      return Err;
    }
    var terms := SortedKeys(built.value.Keys);
    var postings := seq(|terms|, t requires 0 <= t < |terms| => ListFor(built.value, terms[t]));
    assert forall d :: 0 <= d < |docs| ==> DocFits(docs[d]);
    var rowIds := seq(|docs|, d requires 0 <= d < |docs| => docs[d].rowId);
    var docLens: seq<u32> := seq(|docs|, d requires 0 <= d < |docs| => |docs[d].terms|);
    forall w ensures w in terms <==> Mentioned(docs, w) {
      assert ListFor(built.value, w) == PostingsOf(docs, |docs|, w);
      PostingsOfMention(docs, w);
    }
    forall t | 0 <= t < |terms| ensures postings[t] == PostingsOf(docs, |docs|, terms[t]) {
      assert postings[t] == ListFor(built.value, terms[t]);
    }
    r := Ok(Content(tokenizer, rowIds, docLens, terms, postings));
  }

  /** `BuiltSparse::from_docs`: the inverted index and its totals, or an error exactly when a
      document length or a term frequency does not fit or a term is empty. The checked count of
      postings never fails. */
  method FromDocs(fp: FloatOps, tokenizer: TokenizerKind, docs: seq<PendingDoc>) returns (r: Result<BuiltSparse>)
    requires |docs| < U32_END
    ensures r.Ok? <==> DocsFit(docs, |docs|)
    ensures r.Ok? ==> IsIndexOf(r.value.content, tokenizer, docs)
    ensures r.Ok? ==>
      r.value.postingsCount == PostingsBefore(r.value.content.postings, |r.value.content.postings|) < U64_END
    ensures r.Ok? ==> r.value.avgDocLen == AverageOf(fp, r.value.content)
  {
    var content := BuildContent(tokenizer, docs);
    if content.Err? {
      return Err;
    }
    var count := CountPostings(content.value.postings);
    PostingsCountFits(content.value, tokenizer, docs);
    if count.Err? {
      return Err;
    }
    var total := SumDocLens(content.value.docLens);
    r := Ok(BuiltSparse(content.value, count.value, ExpectedAvg(fp, |docs|, total)));
  }

  ghost function AverageOf(fp: FloatOps, c: Content): F32 {
    ExpectedAvg(fp, |c.docLens|, TotalLen(c.docLens, |c.docLens|))
  }

  // ----- Serialization -----

  const DEFAULT_K1 := F32(0x3F99_999A)
  const DEFAULT_B := F32(0x3F40_0000)

  lemma {:induction false} PutSplits(n: nat, v: nat, rest: seq<byte>)
    ensures Put(n, v, rest) == Put(n, v, []) + rest
    decreases n, v, rest
  {
    if n > 0 {
      PutSplits(n - 1, v / 256, rest);
    }
  }

  /** Appends one integer; `goal` is the whole file and `rest` what is still missing. */
  method WriteUint(out: seq<byte>, n: nat, v: nat, ghost goal: seq<byte>, ghost rest: seq<byte>) returns (r: seq<byte>)
    requires goal == out + Put(n, v, rest)
    ensures r == out + Put(n, v, []) && goal == r + rest
  {
    r := out + Put(n, v, []);
    PutSplits(n, v, rest);
  }

  method WriteIdentity(h: Header, ghost goal: seq<byte>, ghost rest: seq<byte>) returns (out: seq<byte>)
    requires goal == HeaderBytes(h, rest)
    ensures goal == out + TokenizerBytes(h, rest)
  {
    ghost var r4 := TokenizerBytes(h, rest);
    ghost var r3 := Put(4, 0, r4);
    ghost var r2 := Put(4, ENDIAN_MARKER, r3);
    ghost var r1 := Put(4, HEADER_LEN, r2);
    out := MAGIC;
    out := WriteUint(out, 4, VERSION, goal, r1);
    out := WriteUint(out, 4, HEADER_LEN, goal, r2);
    out := WriteUint(out, 4, ENDIAN_MARKER, goal, r3);
    out := WriteUint(out, 4, 0, goal, r4);
  }

  method WriteTokenizer(out: seq<byte>, h: Header, ghost goal: seq<byte>, ghost rest: seq<byte>) returns (r: seq<byte>)
    requires goal == out + TokenizerBytes(h, rest)
    ensures goal == r + CountBytes(h, rest)
  {
    ghost var r3 := CountBytes(h, rest);
    ghost var r2 := Put(4, 0, r3);
    r := WriteUint(out, 2, KindCode(h.tokenizer), goal, Put(2, TOKENIZER_VERSION, r2));
    r := WriteUint(r, 2, TOKENIZER_VERSION, goal, r2);
    r := WriteUint(r, 4, 0, goal, r3);
  }

  method WriteCounts(out: seq<byte>, h: Header, ghost goal: seq<byte>, ghost rest: seq<byte>) returns (r: seq<byte>)
    requires goal == out + CountBytes(h, rest)
    ensures goal == r + FloatBytes(h, rest)
  {
    ghost var r3 := FloatBytes(h, rest);
    ghost var r2 := Put(8, h.fields.postingsCount, r3);
    r := WriteUint(out, 8, h.docCount, goal, Put(8, h.termCount, r2));
    r := WriteUint(r, 8, h.termCount, goal, r2);
    r := WriteUint(r, 8, h.fields.postingsCount, goal, r3);
  }

  method WriteFloats(out: seq<byte>, h: Header, ghost goal: seq<byte>, ghost rest: seq<byte>) returns (r: seq<byte>)
    requires goal == out + FloatBytes(h, rest)
    ensures goal == r + OffsetBytes(h, rest)
  {
    ghost var r4 := OffsetBytes(h, rest);
    ghost var r3 := Put(4, 0, r4);
    ghost var r2 := Put(4, h.fields.b.bits, r3);
    r := WriteUint(out, 4, h.fields.avgDocLen.bits, goal, Put(4, h.fields.k1.bits, r2));
    r := WriteUint(r, 4, h.fields.k1.bits, goal, r2);
    r := WriteUint(r, 4, h.fields.b.bits, goal, r3);
    r := WriteUint(r, 4, 0, goal, r4);
  }

  method WriteOffsets(out: seq<byte>, h: Header, ghost goal: seq<byte>, ghost rest: seq<byte>) returns (r: seq<byte>)
    requires goal == out + OffsetBytes(h, rest)
    ensures goal == r + TermOffsetBytes(h, rest)
  {
    ghost var r3 := TermOffsetBytes(h, rest);
    ghost var r2 := Put(8, h.termTableOffset, r3);
    r := WriteUint(out, 8, h.rowIdsOffset, goal, Put(8, h.docLenOffset, r2));
    r := WriteUint(r, 8, h.docLenOffset, goal, r2);
    r := WriteUint(r, 8, h.termTableOffset, goal, r3);
  }

  method WriteTermOffsets(out: seq<byte>, h: Header, ghost goal: seq<byte>, ghost rest: seq<byte>)
    returns (r: seq<byte>)
    requires goal == out + TermOffsetBytes(h, rest)
    ensures goal == r + rest
  {
    ghost var r3 := Put(8, 0, rest);
    ghost var r2 := Put(8, h.fileLen, r3);
    r := WriteUint(out, 8, h.termBytesOffset, goal, Put(8, h.postingsOffset, r2));
    r := WriteUint(r, 8, h.postingsOffset, goal, r2);
    r := WriteUint(r, 8, h.fileLen, goal, r3);
    r := WriteUint(r, 8, 0, goal, rest);
  }

  method WriteHeader(h: Header, ghost rest: seq<byte>) returns (out: seq<byte>)
    ensures out + rest == HeaderBytes(h, rest)
  {
    ghost var goal := HeaderBytes(h, rest);
    out := WriteIdentity(h, goal, rest);
    out := WriteTokenizer(out, h, goal, rest);
    out := WriteCounts(out, h, goal, rest);
    out := WriteFloats(out, h, goal, rest);
    out := WriteOffsets(out, h, goal, rest);
    out := WriteTermOffsets(out, h, goal, rest);
  }

  /** An entry before its lengths are cast. */
  ghost function UncastEntry(c: Content, t: nat): TermEntry
    requires t < |c.terms| == |c.postings|
  {
    TermEntry(TermOffset(c, t), |c.terms[t]|, PostingOffset(c, t), |c.postings[t]|)
  }

  lemma CursorsAt(c: Content, t: nat)
    requires t < |c.terms| == |c.postings|
    ensures TermOffset(c, t + 1) == TermOffset(c, t) + |c.terms[t]|
    ensures PostingOffset(c, t + 1) == PostingOffset(c, t) + 8 * |c.postings[t]|
  {
  }

  /** The entry table, filled with running cursors. Lengths are still full `usize` values. */
  method TermEntries(c: Content) returns (entries: seq<TermEntry>)
    requires |c.terms| == |c.postings| && FileLen(c) < U64_END
    ensures |entries| == |c.terms| && forall t :: 0 <= t < |entries| ==> entries[t] == UncastEntry(c, t)
  {
    entries := [];
    var termCursor, postingCursor := TermBytesOffset(c), PostingsOffset(c);
    for t := 0 to |c.terms|
      invariant |entries| == t && termCursor == TermOffset(c, t) && postingCursor == PostingOffset(c, t)
      invariant forall i :: 0 <= i < t ==> entries[i] == UncastEntry(c, i)
    {
      CursorsAt(c, t);
      entries := entries + [TermEntry(termCursor, |c.terms[t]|, postingCursor, |c.postings[t]|)];
      termCursor := termCursor + |c.terms[t]|;
      postingCursor := postingCursor + 8 * |c.postings[t]|;
    }
  }

  method WriteUints(w: nat, values: seq<nat>) returns (out: seq<byte>)
    ensures out == UintsBytes(w, values, |values|)
  {
    out := [];
    for n := 0 to |values|
      invariant out == UintsBytes(w, values, n)
    {
      out := out + Put(w, values[n], []);
    }
  }

  lemma EntriesBytesNext(c: Content, n: nat, e: TermEntry)
    requires n < |c.terms| == |c.postings| && e == UncastEntry(c, n)
    ensures EntriesBytes(c, n + 1) ==
      EntriesBytes(c, n) + EntryBytes(e.(termLen := e.termLen % U32_END, postingsLen := e.postingsLen % U32_END))
  {
    assert e.(termLen := e.termLen % U32_END, postingsLen := e.postingsLen % U32_END) == EntryOf(c, n);
  }

  /** Writes the entries; the two length fields are cast to `u32`. */
  method WriteEntries(c: Content, entries: seq<TermEntry>) returns (out: seq<byte>)
    requires |entries| == |c.terms| == |c.postings|
    requires forall t :: 0 <= t < |entries| ==> entries[t] == UncastEntry(c, t)
    ensures out == EntriesBytes(c, |c.terms|)
  {
    out := [];
    for n := 0 to |entries|
      invariant out == EntriesBytes(c, n)
    {
      var e := entries[n];
      EntriesBytesNext(c, n, e);
      out := out + EntryBytes(e.(termLen := e.termLen % U32_END, postingsLen := e.postingsLen % U32_END));
    }
  }

  method WriteTerms(terms: seq<Term>) returns (out: seq<byte>)
    ensures out == TermsBytes(terms, |terms|)
  {
    out := [];
    for n := 0 to |terms|
      invariant out == TermsBytes(terms, n)
    {
      out := out + terms[n];
    }
  }

  method WriteList(list: seq<Posting>) returns (out: seq<byte>)
    ensures out == ListBytes(list, |list|)
  {
    out := [];
    for n := 0 to |list|
      invariant out == ListBytes(list, n)
    {
      out := out + PostingBytes(list[n]);
    }
  }

  method WriteLists(postings: seq<seq<Posting>>) returns (out: seq<byte>)
    ensures out == ListsBytes(postings, |postings|)
  {
    out := [];
    for n := 0 to |postings|
      invariant out == ListsBytes(postings, n)
    {
      var list := WriteList(postings[n]);
      out := out + list;
    }
  }

  /** The term byte total and the section offsets, with checked additions: the file length. */
  method CheckedFileLen(c: Content, postingsCount: nat) returns (r: Result<nat>)
    requires |c.terms| == |c.postings| && postingsCount == PostingsBefore(c.postings, |c.postings|)
    ensures r == if FileLen(c) < U64_END then Ok(FileLen(c)) else Err
  {
    var termBytes := 0;
    for t := 0 to |c.terms|
      invariant termBytes == TermLensBefore(c.terms, t) < U64_END
    {
      TermLensMonotone(c.terms, t + 1, |c.terms|);
      if termBytes + |c.terms[t]| >= U64_END {
        return Err;
      }
      termBytes := termBytes + |c.terms[t]|;
    }
    var docLens := CheckedOffset(HEADER_LEN, |c.rowIds|, 8);
    if docLens.Err? {
      return Err;
    }
    var table := CheckedOffset(docLens.value, |c.docLens|, 4);
    if table.Err? {
      return Err;
    }
    var terms := CheckedOffset(table.value, |c.terms|, 32);
    if terms.Err? {
      return Err;
    }
    if terms.value + termBytes >= U64_END {
      return Err;
    }
    r := CheckedOffset(terms.value + termBytes, postingsCount, 8);
  }

  ghost function FieldsOf(fp: FloatOps, c: Content): Fields
    requires FileLen(c) < U64_END
  {
    Fields(PostingsBefore(c.postings, |c.postings|), AverageOf(fp, c), DEFAULT_K1, DEFAULT_B)
  }

  /** `to_bytes` */
  method ToBytes(fp: FloatOps, built: BuiltSparse) returns (r: Result<seq<byte>>)
    requires |built.content.terms| == |built.content.postings|
    requires built.postingsCount == PostingsBefore(built.content.postings, |built.content.postings|)
    requires built.avgDocLen == AverageOf(fp, built.content)
    ensures r.Ok? <==> FileLen(built.content) < U64_END
    ensures r.Ok? ==> r.value == Encode(built.content, FieldsOf(fp, built.content))
  {
    var c := built.content;
    var fileLen := CheckedFileLen(c, built.postingsCount);
    if fileLen.Err? {
      return Err;
    }
    var entries := TermEntries(c);
    var h := HeaderOf(c, Fields(built.postingsCount, built.avgDocLen, DEFAULT_K1, DEFAULT_B));
    var out := WriteHeader(h, SectionBytes(c));
    var ids := WriteUints(8, c.rowIds);
    var lens := WriteUints(4, c.docLens);
    var table := WriteEntries(c, entries);
    var terms := WriteTerms(c.terms);
    var lists := WriteLists(c.postings);
    r := Ok(out + (ids + (lens + (table + (terms + lists)))));
  }

  /** `write_mmap` without the file system. */
  method WriteMmap(fp: FloatOps, builder: SparseIndexBuilder) returns (r: Result<seq<byte>>, ghost c: Content)
    requires builder.Valid()
    ensures r.Ok? <==> !TooLarge(builder.tokenizer, builder.docs)
    ensures r.Ok? ==> IsIndexOf(c, builder.tokenizer, builder.docs) && FileLen(c) < U64_END
    ensures r.Ok? ==> r.value == Encode(c, FieldsOf(fp, c))
  {
    c := Content(Simple, [], [], [], []);
    if |builder.docs| >= U32_END {
      return Err, c;
    }
    var built := FromDocs(fp, builder.tokenizer, builder.docs);
    if built.Err? {
      return Err, c;
    }
    c := built.value.content;
    OneIndex(builder.tokenizer, builder.docs, c);
    r := ToBytes(fp, built.value);
  }

  // ----- The index is well-formed content -----

  lemma {:induction false} ListOfShape(counts: seq<u16>, n: nat)
    requires n <= |counts| < U32_END
    ensures |ListOf(counts, n)| <= n
    ensures forall j :: 0 <= j < |ListOf(counts, n)| ==> ListOf(counts, n)[j].doc < n && ListOf(counts, n)[j].tf > 0
    ensures forall i, j :: 0 <= i < j < |ListOf(counts, n)| ==> ListOf(counts, n)[i].doc < ListOf(counts, n)[j].doc
  {
    if n > 0 {
      ListOfShape(counts, n - 1);
    }
  }

  lemma {:induction false} ListOfFrequency(counts: seq<u16>, n: nat, d: nat)
    requires n <= |counts| < U32_END
    ensures TfIn(ListOf(counts, n), |ListOf(counts, n)|, d) == if d < n then counts[d] else 0
  {
    if n > 0 {
      var shorter := ListOf(counts, n - 1);
      ListOfFrequency(counts, n - 1, d);
      if counts[n - 1] > 0 {
        TfInSnoc(shorter, Posting(n - 1, counts[n - 1]), |shorter|, d);
      } else {
        assert shorter + [] == shorter;
      }
    }
  }

  /** The occurrences of the first `n` words. */
  ghost function SumCounts(m: multiset<Term>, words: seq<Term>, n: nat): nat
    requires n <= |words|
  {
    if n == 0 then 0 else SumCounts(m, words, n - 1) + m[words[n - 1]]
  }

  lemma {:induction false} SumCountsWithout(m: multiset<Term>, words: seq<Term>, n: nat, w: Term)
    requires n <= |words| && forall i :: 0 <= i < n ==> words[i] != w
    ensures SumCounts(m[w := 0], words, n) == SumCounts(m, words, n)
  {
    if n > 0 {
      SumCountsWithout(m, words, n - 1, w);
    }
  }

  /** Distinct words that cover a multiset account for all of it. */
  lemma {:induction false} SumCountsAll(m: multiset<Term>, words: seq<Term>, n: nat)
    requires n <= |words| && forall i, j :: 0 <= i < j < n ==> words[i] != words[j]
    requires forall w :: w in m ==> exists i :: 0 <= i < n && words[i] == w
    ensures SumCounts(m, words, n) == |m|
  {
    if n > 0 {
      var w := words[n - 1];
      var others := m[w := 0];
      forall v | v in others ensures exists i :: 0 <= i < n - 1 && words[i] == v {
        assert v in m && v != w;
        var i :| 0 <= i < n && words[i] == v;
        assert i < n - 1;
      }
      SumCountsAll(others, words, n - 1);
      SumCountsWithout(m, words, n - 1, w);
    } else {
      assert forall v :: v !in m;
      assert m == multiset{};
    }
  }

  lemma SortedDistinct(terms: seq<Term>)
    requires StrictlySorted(terms)
    ensures forall i, j :: 0 <= i < j < |terms| ==> terms[i] != terms[j]
  {
    forall i, j | 0 <= i < j < |terms| ensures terms[i] != terms[j] {
      LexTotal(terms[i], terms[j]);
    }
  }

  lemma IndexedFrequency(c: Content, tokenizer: TokenizerKind, docs: seq<PendingDoc>, t: nat, d: nat)
    requires |docs| < U32_END && DocsFit(docs, |docs|) && IsIndexOf(c, tokenizer, docs) && t < |c.terms| && d < |docs|
    ensures TfIn(c.postings[t], |c.postings[t]|, d) == multiset(docs[d].terms)[c.terms[t]]
  {
    ListOfFrequency(CountsOf(docs, |docs|, c.terms[t]), |docs|, d);
  }

  lemma {:induction false} IndexedDocLen(postings: seq<seq<Posting>>, words: seq<Term>, m: multiset<Term>, n: nat,
                                         d: nat)
    requires n <= |words| == |postings|
    requires forall t :: 0 <= t < n ==> TfIn(postings[t], |postings[t]|, d) == m[words[t]]
    ensures DocLenOf(postings, n, d) == SumCounts(m, words, n)
  {
    if n > 0 {
      IndexedDocLen(postings, words, m, n - 1, d);
    }
  }

  /** The posting lists account for every word of every document. */
  lemma IndexedDocLens(c: Content, tokenizer: TokenizerKind, docs: seq<PendingDoc>, d: nat)
    requires |docs| < U32_END && DocsFit(docs, |docs|) && IsIndexOf(c, tokenizer, docs) && d < |docs|
    ensures DocLenOf(c.postings, |c.postings|, d) == |docs[d].terms|
  {
    var m := multiset(docs[d].terms);
    forall w | w in m ensures exists i :: 0 <= i < |c.terms| && c.terms[i] == w {
      assert w in docs[d].terms;
      assert Mentioned(docs, w);
      assert w in c.terms;
    }
    SortedDistinct(c.terms);
    SumCountsAll(m, c.terms, |c.terms|);
    forall t | 0 <= t < |c.terms| ensures TfIn(c.postings[t], |c.postings[t]|, d) == m[c.terms[t]] {
      IndexedFrequency(c, tokenizer, docs, t, d);
    }
    IndexedDocLen(c.postings, c.terms, m, |c.terms|, d);
  }

  // ----- The posting count never overflows -----

  /** The frequencies of the first `k` postings in documents below `m`. */
  ghost function RowSum(list: seq<Posting>, k: nat, m: nat): nat
    requires k <= |list|
  {
    if m == 0 then 0 else RowSum(list, k, m - 1) + TfIn(list, k, m - 1)
  }

  lemma {:induction false} RowSumNext(list: seq<Posting>, k: nat, m: nat)
    requires 0 < k <= |list|
    ensures RowSum(list, k, m) == RowSum(list, k - 1, m) + if list[k - 1].doc < m then list[k - 1].tf else 0
  {
    if m > 0 {
      RowSumNext(list, k, m - 1);
    }
  }

  lemma {:induction false} RowSumZero(list: seq<Posting>, m: nat)
    ensures RowSum(list, 0, m) == 0
  {
    if m > 0 {
      RowSumZero(list, m - 1);
    }
  }

  /** Each posting counts at least one occurrence. */
  lemma {:induction false} RowSumCovers(list: seq<Posting>, k: nat, m: nat)
    requires k <= |list| && forall j :: 0 <= j < k ==> list[j].doc < m && list[j].tf > 0
    ensures k <= RowSum(list, k, m)
  {
    if k > 0 {
      RowSumCovers(list, k - 1, m);
      RowSumNext(list, k, m);
    }
  }

  /** The lengths that the first `n` lists imply for the documents below `m`, added up. */
  ghost function LengthSum(postings: seq<seq<Posting>>, n: nat, m: nat): nat
    requires n <= |postings|
  {
    if m == 0 then 0 else LengthSum(postings, n, m - 1) + DocLenOf(postings, n, m - 1)
  }

  /** The same sum, list by list. */
  lemma {:induction false} LengthSumNext(postings: seq<seq<Posting>>, n: nat, m: nat)
    requires 0 < n <= |postings|
    ensures LengthSum(postings, n, m) == LengthSum(postings, n - 1, m) + RowSum(postings[n - 1], |postings[n - 1]|, m)
  {
    if m > 0 {
      LengthSumNext(postings, n, m - 1);
    }
  }

  lemma {:induction false} PostingsCovered(c: Content, tokenizer: TokenizerKind, docs: seq<PendingDoc>, n: nat)
    requires |docs| < U32_END && DocsFit(docs, |docs|) && IsIndexOf(c, tokenizer, docs) && n <= |c.postings|
    ensures PostingsBefore(c.postings, n) <= LengthSum(c.postings, n, |docs|)
  {
    if n > 0 {
      PostingsCovered(c, tokenizer, docs, n - 1);
      ListOfShape(CountsOf(docs, |docs|, c.terms[n - 1]), |docs|);
      RowSumCovers(c.postings[n - 1], |c.postings[n - 1]|, |docs|);
      LengthSumNext(c.postings, n, |docs|);
    }
  }

  lemma {:induction false} LengthSumIsTotal(postings: seq<seq<Posting>>, lens: seq<u32>, m: nat)
    requires m <= |lens| && forall d :: 0 <= d < m ==> DocLenOf(postings, |postings|, d) == lens[d]
    ensures LengthSum(postings, |postings|, m) == TotalLen(lens, m)
  {
    if m > 0 {
      LengthSumIsTotal(postings, lens, m - 1);
    }
  }

  /** There are no more postings than words, and the words fit 64 bits. */
  lemma PostingsCountFits(c: Content, tokenizer: TokenizerKind, docs: seq<PendingDoc>)
    requires |docs| < U32_END && DocsFit(docs, |docs|) && IsIndexOf(c, tokenizer, docs)
    ensures PostingsBefore(c.postings, |c.postings|) <= TotalLen(c.docLens, |c.docLens|) < U64_END
  {
    PostingsCovered(c, tokenizer, docs, |c.postings|);
    forall d | 0 <= d < |docs| ensures DocLenOf(c.postings, |c.postings|, d) == c.docLens[d] {
      IndexedDocLens(c, tokenizer, docs, d);
    }
    LengthSumIsTotal(c.postings, c.docLens, |docs|);
    TotalLenBound(c.docLens, |c.docLens|);
  }

  ghost predicate TermsFit(c: Content) {
    forall t :: 0 <= t < |c.terms| ==> |c.terms[t]| < U32_END
  }

  lemma IndexedTerm(c: Content, tokenizer: TokenizerKind, docs: seq<PendingDoc>, t: nat)
    requires |docs| < U32_END && DocsFit(docs, |docs|) && IsIndexOf(c, tokenizer, docs) && DocsNormalized(docs)
    requires t < |c.terms|
    ensures IsNormalized(c.terms[t]) && ListOk(c.postings[t], |docs|)
  {
    var w := c.terms[t];
    assert w in c.terms;
    assert Mentioned(docs, w);
    var d :| 0 <= d < |docs| && w in docs[d].terms;
    assert AllNormalized(docs[d].terms);
    ListOfShape(CountsOf(docs, |docs|, w), |docs|);
    PostingsOfMention(docs, w);
  }

  /** The index of a builder's documents is well-formed as soon as its terms and its file fit. */
  lemma IndexedContentOk(c: Content, tokenizer: TokenizerKind, docs: seq<PendingDoc>)
    requires |docs| < U32_END && DocsFit(docs, |docs|) && IsIndexOf(c, tokenizer, docs)
    requires DistinctRows(docs) && DocsNormalized(docs) && TermsFit(c) && FileLen(c) < U64_END
    ensures ContentOk(c)
  {
    forall t | 0 <= t < |c.terms| ensures IsNormalized(c.terms[t]) && ListOk(c.postings[t], |docs|) {
      IndexedTerm(c, tokenizer, docs, t);
    }
    forall d | 0 <= d < |docs| ensures c.docLens[d] == DocLenOf(c.postings, |c.postings|, d) {
      IndexedDocLens(c, tokenizer, docs, d);
    }
  }

  // ----- Round trip -----

  /** What IEEE arithmetic gives for the average of integer lengths: finite, with the sign of
      the total, and within one epsilon of itself. */
  ghost predicate AverageSound(fp: FloatOps, docCount: nat, total: nat) {
    var avg := ExpectedAvg(fp, docCount, total);
    && IsFinite(avg) && !Less(avg, ZERO) && (total > 0 ==> Less(ZERO, avg)) && AvgMatches(fp, avg, docCount, total)
  }

  lemma {:induction false} TotalLenPositive(lens: seq<u32>, n: nat, d: nat)
    requires d < n <= |lens| && lens[d] > 0
    ensures TotalLen(lens, n) > 0
  {
    if d < n - 1 {
      TotalLenPositive(lens, n - 1, d);
    }
  }

  lemma TermsMakeLength(c: Content, tokenizer: TokenizerKind, docs: seq<PendingDoc>)
    requires |docs| < U32_END && DocsFit(docs, |docs|) && IsIndexOf(c, tokenizer, docs) && c.terms != []
    ensures TotalLen(c.docLens, |c.docLens|) > 0
  {
    assert c.terms[0] in c.terms;
    var d :| 0 <= d < |docs| && c.terms[0] in docs[d].terms;
    assert c.docLens[d] > 0;
    TotalLenPositive(c.docLens, |c.docLens|, d);
  }

  lemma BuiltFieldsOk(fp: FloatOps, c: Content, tokenizer: TokenizerKind, docs: seq<PendingDoc>)
    requires |docs| < U32_END && DocsFit(docs, |docs|) && IsIndexOf(c, tokenizer, docs) && FileLen(c) < U64_END
    requires AverageSound(fp, |docs|, TotalLen(c.docLens, |c.docLens|))
    ensures FieldsOk(fp, c, FieldsOf(fp, c))
  {
    if c.terms != [] {
      TermsMakeLength(c, tokenizer, docs);
    }
  }

  /** Two contents whose entries are those of one file have the same offsets. */
  lemma SameEntry(bytes: seq<byte>, c: Content, b: Content, t: nat)
    requires |c.terms| == |c.postings| && |b.terms| == |b.postings| && t < |c.terms| == |b.terms|
    requires TermTableOffset(c) == TermTableOffset(b) && EntriesAt(bytes, c, |c.terms|)
    requires EntriesAt(bytes, b, |b.terms|)
    ensures TermOffset(c, t) == TermOffset(b, t) && |c.terms[t]| % U32_END == |b.terms[t]| % U32_END
  {
    assert EntryAt(bytes, TermTableOffset(c) + t * 32) == Ok(EntryOf(c, t));
    assert EntryAt(bytes, TermTableOffset(b) + t * 32) == Ok(EntryOf(b, t));
  }

  lemma DescribedEntries(bytes: seq<byte>, c: Content, f: Fields)
    requires Describes(bytes, c, f)
    ensures EntriesAt(bytes, c, |c.terms|)
  {
  }

  lemma TruncatedTerm(bytes: seq<byte>, c: Content, b: Content, t: nat)
    requires |c.terms| == |c.postings| && |b.terms| == |b.postings| && t < |c.terms| == |b.terms|
    requires TermTableOffset(c) == TermTableOffset(b) && PostingsOffset(c) == PostingsOffset(b)
    requires EntriesAt(bytes, c, |c.terms|) && EntriesAt(bytes, b, |b.terms|) && |b.terms[t]| < U32_END
    ensures |c.terms[t]| < U32_END
  {
    SameEntry(bytes, c, b, t);
    if t + 1 < |c.terms| {
      SameEntry(bytes, c, b, t + 1);
    }
    CursorsAt(c, t);
    CursorsAt(b, t);
  }

  /** An entry whose term length was truncated cannot be read back. */
  lemma TruncatedEntry(bytes: seq<byte>, c: Content, f: Fields, b: Content, fb: Fields, t: nat)
    requires Describes(bytes, c, f) && Describes(bytes, b, fb) && t < |c.terms| == |b.terms|
    requires HeaderOf(c, f) == HeaderOf(b, fb)
    requires |b.terms[t]| < U32_END
    ensures |c.terms[t]| < U32_END
  {
    DescribedEntries(bytes, c, f);
    DescribedEntries(bytes, b, fb);
    TruncatedTerm(bytes, c, b, t);
  }

  lemma AcceptedTermsFit(fp: FloatOps, c: Content, f: Fields)
    requires FileLen(c) < U64_END && |c.terms| == |c.postings|
    requires exists b, fb :: Accepted(fp, Encode(c, f), b, fb)
    ensures TermsFit(c)
  {
    var bytes := Encode(c, f);
    var b, fb :| Accepted(fp, bytes, b, fb);
    EncodesIffDescribes(bytes, c, f);
    DescribedHeader(bytes, c, f);
    DescribedHeader(bytes, b, fb);
    forall t | 0 <= t < |c.terms| ensures |c.terms[t]| < U32_END {
      TruncatedEntry(bytes, c, f, b, fb, t);
    }
  }

  /** Write/open round trip: the written file opens exactly when every term is shorter than
      2^32 bytes, because the writer casts term lengths to `u32` without checking them. When it
      opens, it decodes to the built index and fields. */
  lemma WrittenOpens(fp: FloatOps, c: Content, tokenizer: TokenizerKind, docs: seq<PendingDoc>)
    requires |docs| < U32_END && DocsFit(docs, |docs|) && IsIndexOf(c, tokenizer, docs) && FileLen(c) < U64_END
    requires DistinctRows(docs) && DocsNormalized(docs)
    requires AverageSound(fp, |docs|, TotalLen(c.docLens, |c.docLens|))
    ensures (exists b, fb :: Accepted(fp, Encode(c, FieldsOf(fp, c)), b, fb)) <==> TermsFit(c)
    ensures TermsFit(c) ==> Accepted(fp, Encode(c, FieldsOf(fp, c)), c, FieldsOf(fp, c))
    ensures forall b, fb :: Accepted(fp, Encode(c, FieldsOf(fp, c)), b, fb) ==> b == c && fb == FieldsOf(fp, c)
  {
    var f := FieldsOf(fp, c);
    var bytes := Encode(c, f);
    if TermsFit(c) {
      IndexedContentOk(c, tokenizer, docs);
      BuiltFieldsOk(fp, c, tokenizer, docs);
      EncodedIsAccepted(fp, c, f);
      forall b, fb | Accepted(fp, bytes, b, fb) ensures b == c && fb == f {
        AcceptedOnce(fp, bytes, b, fb, c, f);
      }
    } else if exists b, fb :: Accepted(fp, bytes, b, fb) {
      AcceptedTermsFit(fp, c, f);
      assert false;
    }
  }

  /** The condition in the builder's terms. */
  lemma TermsFitIffDocs(c: Content, tokenizer: TokenizerKind, docs: seq<PendingDoc>)
    requires |docs| < U32_END && DocsFit(docs, |docs|) && IsIndexOf(c, tokenizer, docs)
    ensures TermsFit(c) <==> forall d, i :: 0 <= d < |docs| && 0 <= i < |docs[d].terms| ==> |docs[d].terms[i]| < U32_END
  {
    if TermsFit(c) {
      forall d, i | 0 <= d < |docs| && 0 <= i < |docs[d].terms| ensures |docs[d].terms[i]| < U32_END {
        assert docs[d].terms[i] in docs[d].terms;
        assert docs[d].terms[i] in c.terms;
      }
    } else {
      var t :| 0 <= t < |c.terms| && |c.terms[t]| >= U32_END;
      assert c.terms[t] in c.terms;
      var d :| 0 <= d < |docs| && c.terms[t] in docs[d].terms;
      var i :| 0 <= i < |docs[d].terms| && docs[d].terms[i] == c.terms[t];
    }
  }

  /** A text of 2^32 letters is one such document: it builds, writes and does not open. */
  lemma LongTermDoesNotOpen(fp: FloatOps, w: Term, docs: seq<PendingDoc>, c: Content)
    requires |w| == U32_END && IsNormalized(w)
    requires docs == [PendingDoc(0, [w])] && c == Content(Simple, [0], [1], [w], [[Posting(0, 1)]])
    ensures !TooLarge(Simple, docs) && IsIndexOf(c, Simple, docs)
    ensures !exists b, fb :: Accepted(fp, Encode(c, FieldsOf(fp, c)), b, fb)
  {
    LongTermIndex(w, docs, c);
    LongTermFileLen(c, w);
    OneIndex(Simple, docs, c);
    if exists b, fb :: Accepted(fp, Encode(c, FieldsOf(fp, c)), b, fb) {
      AcceptedTermsFit(fp, c, FieldsOf(fp, c));
      assert false;
    }
  }

  lemma LongTermIndex(w: Term, docs: seq<PendingDoc>, c: Content)
    requires |w| == U32_END && IsNormalized(w)
    requires docs == [PendingDoc(0, [w])] && c == Content(Simple, [0], [1], [w], [[Posting(0, 1)]])
    ensures DocsFit(docs, |docs|) && IsIndexOf(c, Simple, docs)
  {
    assert docs[0].terms[0] == w && c.terms[0] == w;
    assert DocsFit(docs, 1);
    assert CountsOf(docs, 1, w) == [1];
    assert PostingsOf(docs, 1, w) == [Posting(0, 1)] by {
      assert ListOf([1], 0) == [];
    }
  }

  lemma LongTermFileLen(c: Content, w: Term)
    requires |w| == U32_END && c == Content(Simple, [0], [1], [w], [[Posting(0, 1)]])
    ensures FileLen(c) == 180 + U32_END
  {
    assert TermLensBefore([w], 1) == TermLensBefore([w], 0) + |w|;
    assert PostingsBefore([[Posting(0, 1)]], 1) == PostingsBefore([[Posting(0, 1)]], 0) + 1;
  }
}
