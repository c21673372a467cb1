/** From the documents added to a builder to the rows a search of the written file returns, with no
    index in the statement. */
module SparseEndToEnd {
  import opened Wrappers
  import opened Floats
  import opened Bytes
  import opened Ranking
  import opened SparseFormat
  import opened SparseReader
  import SparseCodec
  import opened Tokenizer
  import opened SparseWriter
  import opened SparseSearch

  // ----- BM25 over documents -----

  ghost function DocsContaining(docs: seq<PendingDoc>, w: Term): set<nat> {
    set d: nat | d < |docs| && Count(docs[d], w) > 0
  }

  /** The words of the first `n` documents. */
  ghost function WordTotal(docs: seq<PendingDoc>, n: nat): nat
    requires n <= |docs|
  {
    if n == 0 then 0 else WordTotal(docs, n - 1) + |docs[n - 1].terms|
  }

  ghost function Parameters(fp: FloatOps, docs: seq<PendingDoc>): Fields {
    Fields(0, ExpectedAvg(fp, |docs|, WordTotal(docs, |docs|)), DEFAULT_K1, DEFAULT_B)
  }

  /** The score of document `d` over the first `n` query terms; `None` while none occurs in it. */
  ghost function DocScore(fp: FloatOps, docs: seq<PendingDoc>, query: seq<Term>, n: nat, d: nat): Option<F32>
    requires n <= |query| && d < |docs|
  {
    if n == 0 then None
    else
      var tf := Count(docs[d], query[n - 1]);
      AddTerm(fp, DocScore(fp, docs, query, n - 1, d), tf,
              Contribution(fp, Parameters(fp, docs), |docs|, |DocsContaining(docs, query[n - 1])|, tf, |docs[d].terms|))
  }

  ghost predicate Scored(fp: FloatOps, docs: seq<PendingDoc>, query: seq<Term>, d: nat) {
    d < |docs| && DocScore(fp, docs, query, |query|, d).Some?
  }

  ghost function DocRow(fp: FloatOps, docs: seq<PendingDoc>, query: seq<Term>, d: nat): ScoredRow
    requires Scored(fp, docs, query, d)
  {
    Row(docs[d].rowId, DocScore(fp, docs, query, |query|, d).value, NoInfo)
  }

  /** Every document with a query term, with its score. */
  ghost function DocRows(fp: FloatOps, docs: seq<PendingDoc>, query: seq<Term>): set<ScoredRow> {
    set d | 0 <= d < |docs| && Scored(fp, docs, query, d) :: DocRow(fp, docs, query, d)
  }

  /** The query terms of a text: its tokens, once each. */
  ghost function QueryOf(kind: TokenizerKind, text: seq<byte>): seq<Term> {
    Deduped(Tokens(kind, text), |Tokens(kind, text)|)
  }

  // ----- The index answers for the documents -----

  ghost predicate Indexes(c: Content, docs: seq<PendingDoc>) {
    |docs| < U32_END && DocsFit(docs, |docs|) && IsIndexOf(c, c.tokenizer, docs) && FileLen(c) < U64_END
  }

  lemma {:induction false} TotalIsWordTotal(c: Content, docs: seq<PendingDoc>, n: nat)
    requires n <= |docs| == |c.docLens| && forall d :: 0 <= d < |docs| ==> c.docLens[d] == |docs[d].terms|
    ensures TotalLen(c.docLens, n) == WordTotal(docs, n)
  {
    if n > 0 {
      TotalIsWordTotal(c, docs, n - 1);
    }
  }

  lemma IndexParameters(fp: FloatOps, c: Content, docs: seq<PendingDoc>)
    requires Indexes(c, docs)
    ensures FieldsOf(fp, c).(postingsCount := 0) == Parameters(fp, docs)
  {
    TotalIsWordTotal(c, docs, |docs|);
  }

  lemma SameDocFreq(c: Content, docs: seq<PendingDoc>, w: Term)
    requires Indexes(c, docs)
    ensures DocFreq(c, w) == |DocsContaining(docs, w)|
  {
    forall d: nat ensures d in DocsWith(c, w) <==> d in DocsContaining(docs, w) {
      if d < |docs| {
        BuiltFrequencies(c, docs, w, d);
      }
    }
    assert DocsWith(c, w) == DocsContaining(docs, w);
  }

  lemma SameContribution(fp: FloatOps, f: Fields, g: Fields, docCount: nat, df: nat, tf: nat, docLen: nat)
    requires f.(postingsCount := 0) == g
    ensures Contribution(fp, f, docCount, df, tf, docLen) == Contribution(fp, g, docCount, df, tf, docLen)
  {
  }

  lemma SameTerm(fp: FloatOps, c: Content, docs: seq<PendingDoc>, w: Term, d: nat)
    requires Indexes(c, docs) && d < |docs|
    ensures Tf(c, w, d) == Count(docs[d], w)
    ensures Contribution(fp, FieldsOf(fp, c), |c.rowIds|, DocFreq(c, w), Tf(c, w, d), c.docLens[d])
         == Contribution(fp, Parameters(fp, docs), |docs|, |DocsContaining(docs, w)|, Count(docs[d], w),
                         |docs[d].terms|)
  {
    BuiltFrequencies(c, docs, w, d);
    SameDocFreq(c, docs, w);
    IndexParameters(fp, c, docs);
    SameContribution(fp, FieldsOf(fp, c), Parameters(fp, docs), |docs|, DocFreq(c, w), Tf(c, w, d), |docs[d].terms|);
  }

  /** One more query term, on both sides. */
  lemma SameStep(fp: FloatOps, c: Content, docs: seq<PendingDoc>, w: Term, d: nat, score: Option<F32>)
    requires Indexes(c, docs) && d < |docs|
    ensures
      AddTerm(fp, score, Tf(c, w, d),
              Contribution(fp, FieldsOf(fp, c), |c.rowIds|, DocFreq(c, w), Tf(c, w, d), c.docLens[d]))
      == AddTerm(fp, score, Count(docs[d], w),
                 Contribution(fp, Parameters(fp, docs), |docs|, |DocsContaining(docs, w)|, Count(docs[d], w),
                              |docs[d].terms|))
  {
    SameTerm(fp, c, docs, w, d);
  }

  lemma {:induction false} SameScore(fp: FloatOps, c: Content, docs: seq<PendingDoc>, query: seq<Term>, n: nat, d: nat)
    requires Indexes(c, docs) && n <= |query| && d < |docs|
    ensures ScoreOf(fp, c, FieldsOf(fp, c), query, n, d) == DocScore(fp, docs, query, n, d)
  {
    if n > 0 {
      SameScore(fp, c, docs, query, n - 1, d);
      SameStep(fp, c, docs, query[n - 1], d, DocScore(fp, docs, query, n - 1, d));
    }
  }

  lemma SameMatch(fp: FloatOps, c: Content, docs: seq<PendingDoc>, query: seq<Term>, d: nat)
    requires Indexes(c, docs)
    ensures Matches(fp, c, FieldsOf(fp, c), query, None, d) <==> Scored(fp, docs, query, d)
    ensures Scored(fp, docs, query, d) ==> RowOf(fp, c, FieldsOf(fp, c), query, d) == DocRow(fp, docs, query, d)
  {
    if d < |docs| {
      SameScore(fp, c, docs, query, |query|, d);
    }
  }

  /** What the scan of the index matches is what BM25 says of the documents. */
  lemma IndexMatchesDocs(fp: FloatOps, c: Content, docs: seq<PendingDoc>, query: seq<Term>)
    requires Indexes(c, docs)
    ensures MatchingRows(fp, c, FieldsOf(fp, c), query, None) == DocRows(fp, docs, query)
  {
    var a, b := MatchingRows(fp, c, FieldsOf(fp, c), query, None), DocRows(fp, docs, query);
    forall r ensures r in a <==> r in b {
      if r in a {
        var d :| 0 <= d < |c.rowIds| && Matches(fp, c, FieldsOf(fp, c), query, None, d)
          && r == RowOf(fp, c, FieldsOf(fp, c), query, d);
        SameMatch(fp, c, docs, query, d);
        assert Scored(fp, docs, query, d);
      }
      if r in b {
        var d :| 0 <= d < |docs| && Scored(fp, docs, query, d) && r == DocRow(fp, docs, query, d);
        SameMatch(fp, c, docs, query, d);
        assert Matches(fp, c, FieldsOf(fp, c), query, None, d);
      }
    }
  }

  lemma CountedIsMentioned(doc: PendingDoc, w: Term)
    ensures Count(doc, w) > 0 <==> w in doc.terms
  {
    assert w in doc.terms <==> w in multiset(doc.terms);
  }

  /** A document is among the rows exactly when it contains a query term. */
  lemma {:induction false} ScoredIffMentioned(fp: FloatOps, docs: seq<PendingDoc>, query: seq<Term>, n: nat, d: nat)
    requires n <= |query| && d < |docs|
    ensures DocScore(fp, docs, query, n, d).Some? <==> exists i :: 0 <= i < n && query[i] in docs[d].terms
  {
    if n > 0 {
      ScoredIffMentioned(fp, docs, query, n - 1, d);
      CountedIsMentioned(docs[d], query[n - 1]);
    }
  }

  lemma DocRowsBound(fp: FloatOps, docs: seq<PendingDoc>, query: seq<Term>)
    ensures |DocRows(fp, docs, query)| <= |docs|
  {
    var rows := seq(|docs|, d requires 0 <= d < |docs| =>
      if Scored(fp, docs, query, d) then DocRow(fp, docs, query, d) else Row(0, ZERO, NoInfo));
    forall x | x in DocRows(fp, docs, query) ensures x in rows {
      var d :| 0 <= d < |docs| && Scored(fp, docs, query, d) && x == DocRow(fp, docs, query, d);
      assert rows[d] == x;
    }
    CoveredSize(DocRows(fp, docs, query), rows);
  }

  /** When `topK` covers the corpus, every document that shares a term with the query is returned,
      and nothing else is. */
  lemma AllSharersReturned(fp: FloatOps, docs: seq<PendingDoc>, query: seq<Term>, topK: nat, d: nat)
    requires d < |docs| <= topK
    ensures (exists i :: 0 <= i < |query| && query[i] in docs[d].terms) <==>
      Scored(fp, docs, query, d) && DocRow(fp, docs, query, d) in Take(Listing(DocRows(fp, docs, query)), topK)
  {
    ScoredIffMentioned(fp, docs, query, |query|, d);
    DocRowsBound(fp, docs, query);
    var rows := DocRows(fp, docs, query);
    assert Take(Listing(rows), topK) == Listing(rows);
    if Scored(fp, docs, query, d) {
      assert DocRow(fp, docs, query, d) in rows;
    }
  }

  lemma OwnTextReturned(fp: FloatOps, docs: seq<PendingDoc>, kind: TokenizerKind, text: seq<byte>, topK: nat, d: nat)
    requires d < |docs| <= topK && docs[d].terms == Tokens(kind, text) != []
    ensures exists r :: r in Take(Listing(DocRows(fp, docs, QueryOf(kind, text))), topK) && r.id == docs[d].rowId
  {
    var terms, query := Tokens(kind, text), QueryOf(kind, text);
    assert terms[..|terms|] == terms && terms[0] in terms;
    DedupedKeeps(terms, |terms|, terms[0]);
    var i :| 0 <= i < |query| && query[i] == terms[0];
    AllSharersReturned(fp, docs, query, topK, d);
    assert DocRow(fp, docs, query, d).id == docs[d].rowId;
  }

  // ----- Build, write, open, search -----

  predicate ShortTerms(docs: seq<PendingDoc>) {
    forall d, i :: 0 <= d < |docs| && 0 <= i < |docs[d].terms| ==> |docs[d].terms[i]| < U32_END
  }

  lemma WrittenIsOpened(fp: FloatOps, c: Content, docs: seq<PendingDoc>)
    requires Indexes(c, docs) && DistinctRows(docs) && DocsNormalized(docs)
    requires AverageSound(fp, |docs|, WordTotal(docs, |docs|))
    ensures (exists b, fb :: Accepted(fp, Encode(c, FieldsOf(fp, c)), b, fb)) <==> ShortTerms(docs)
    ensures forall b, fb :: Accepted(fp, Encode(c, FieldsOf(fp, c)), b, fb) ==> b == c && fb == FieldsOf(fp, c)
    ensures |Encode(c, FieldsOf(fp, c))| < U64_END
  {
    TotalIsWordTotal(c, docs, |docs|);
    WrittenOpens(fp, c, c.tokenizer, docs);
    TermsFitIffDocs(c, c.tokenizer, docs);
    SparseCodec.EncodesIffDescribes(Encode(c, FieldsOf(fp, c)), c, FieldsOf(fp, c));
  }

  /** Writing and opening succeed exactly when the documents fit the format and every term is
      shorter than 2^32 bytes; the open index then answers for the documents. */
  method WriteAndOpen(fp: FloatOps, builder: SparseIndexBuilder) returns (r: Result<Index>, ghost c: Content)
    requires builder.Valid() && AverageSound(fp, |builder.docs|, WordTotal(builder.docs, |builder.docs|))
    ensures r.Ok? <==> !TooLarge(builder.tokenizer, builder.docs) && ShortTerms(builder.docs)
    ensures r.Ok? ==>
      Indexes(c, builder.docs) && c.tokenizer == builder.tokenizer && Opened(r.value, c, FieldsOf(fp, c))
  {
    var written;
    written, c := WriteMmap(fp, builder);
    if written.Err? {
      return Err, c;
    }
    WrittenIsOpened(fp, c, builder.docs);
    ghost var found, f;
    r, found, f := Open(fp, written.value);
  }

  /** Each document that is exactly the text is among the rows. */
  ghost predicate OwnTextsFound(docs: seq<PendingDoc>, kind: TokenizerKind, text: seq<byte>, rows: seq<ScoredRow>) {
    forall d :: 0 <= d < |docs| && docs[d].terms == Tokens(kind, text) != [] ==>
      exists row :: row in rows && row.id == docs[d].rowId
  }

  lemma OwnTextsReturned(fp: FloatOps, docs: seq<PendingDoc>, kind: TokenizerKind, text: seq<byte>, topK: nat,
                         rows: seq<ScoredRow>)
    requires |docs| <= topK && rows == Take(Listing(DocRows(fp, docs, QueryOf(kind, text))), topK)
    ensures OwnTextsFound(docs, kind, text, rows)
  {
    forall d | 0 <= d < |docs| && docs[d].terms == Tokens(kind, text) != []
      ensures exists row :: row in rows && row.id == docs[d].rowId
    {
      OwnTextReturned(fp, docs, kind, text, topK, d);
    }
  }

  method SearchDocs(fp: FloatOps, x: Index, text: seq<byte>, topK: nat, ghost c: Content, ghost docs: seq<PendingDoc>)
    returns (rows: seq<ScoredRow>)
    requires Indexes(c, docs) && Opened(x, c, FieldsOf(fp, c))
    ensures rows == Take(Listing(DocRows(fp, docs, QueryOf(c.tokenizer, text))), topK)
  {
    IndexMatchesDocs(fp, c, docs, QueryOf(c.tokenizer, text));
    rows := Search(fp, x, text, topK, None, c, FieldsOf(fp, c));
  }

  /** The whole way: the rows returned are the first `topK` of the BM25 ranking of the documents,
      and a text that was added finds its own row when `topK` covers the corpus. */
  method Roundtrip(fp: FloatOps, builder: SparseIndexBuilder, text: seq<byte>, topK: nat)
    returns (r: Result<seq<ScoredRow>>)
    requires builder.Valid() && AverageSound(fp, |builder.docs|, WordTotal(builder.docs, |builder.docs|))
    ensures r.Ok? <==> !TooLarge(builder.tokenizer, builder.docs) && ShortTerms(builder.docs)
    ensures r.Ok? ==> r.value == Take(Listing(DocRows(fp, builder.docs, QueryOf(builder.tokenizer, text))), topK)
    ensures r.Ok? && |builder.docs| <= topK ==> OwnTextsFound(builder.docs, builder.tokenizer, text, r.value)
  {
    ghost var c;
    var index;
    index, c := WriteAndOpen(fp, builder);
    if index.Err? {
      return Err;
    }
    var rows := SearchDocs(fp, index.value, text, topK, c, builder.docs);
    if |builder.docs| <= topK {
      OwnTextsReturned(fp, builder.docs, builder.tokenizer, text, topK, rows);
    }
    r := Ok(rows);
  }
}
