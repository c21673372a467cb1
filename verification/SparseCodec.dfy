/** The encoder and the reads are inverse to each other, byte for byte. */
module SparseCodec {
  import opened Wrappers
  import opened Floats
  import opened Bytes
  import opened SparseFormat

  ghost predicate IdentityReads(bytes: seq<byte>, h: Header) {
    && |bytes| >= HEADER_LEN && bytes[..8] == MAGIC
    && UintAt(bytes, 8, 4) == Ok(VERSION) && UintAt(bytes, 12, 4) == Ok(HEADER_LEN)
    && UintAt(bytes, 16, 4) == Ok(ENDIAN_MARKER) && UintAt(bytes, 20, 4) == Ok(0)
  }

  ghost predicate TokenizerReads(bytes: seq<byte>, h: Header) {
    && UintAt(bytes, 24, 2) == Ok(KindCode(h.tokenizer)) && UintAt(bytes, 26, 2) == Ok(TOKENIZER_VERSION)
    && UintAt(bytes, 28, 4) == Ok(0)
  }

  ghost predicate CountReads(bytes: seq<byte>, h: Header) {
    && UintAt(bytes, 32, 8) == Ok(h.docCount) && UintAt(bytes, 40, 8) == Ok(h.termCount)
    && UintAt(bytes, 48, 8) == Ok(h.fields.postingsCount)
  }

  ghost predicate FloatReads(bytes: seq<byte>, h: Header) {
    && UintAt(bytes, 56, 4) == Ok(h.fields.avgDocLen.bits) && UintAt(bytes, 60, 4) == Ok(h.fields.k1.bits)
    && UintAt(bytes, 64, 4) == Ok(h.fields.b.bits) && UintAt(bytes, 68, 4) == Ok(0)
  }

  ghost predicate OffsetReads(bytes: seq<byte>, h: Header) {
    && UintAt(bytes, 72, 8) == Ok(h.rowIdsOffset) && UintAt(bytes, 80, 8) == Ok(h.docLenOffset)
    && UintAt(bytes, 88, 8) == Ok(h.termTableOffset)
  }

  ghost predicate TermOffsetReads(bytes: seq<byte>, h: Header) {
    && UintAt(bytes, 96, 8) == Ok(h.termBytesOffset) && UintAt(bytes, 104, 8) == Ok(h.postingsOffset)
    && UintAt(bytes, 112, 8) == Ok(h.fileLen) && UintAt(bytes, 120, 8) == Ok(0)
  }

  lemma Three8(bytes: seq<byte>, o: nat, a: u64, b: u64, c: u64, rest: seq<byte>)
    ensures SliceIs(bytes, o, Put(8, a, Put(8, b, Put(8, c, rest)))) <==> (
      && UintAt(bytes, o, 8) == Ok(a) && UintAt(bytes, o + 8, 8) == Ok(b) && UintAt(bytes, o + 16, 8) == Ok(c)
      && SliceIs(bytes, o + 24, rest))
  {
    Put8Reads(bytes, o, a, Put(8, b, Put(8, c, rest)));
    Put8Reads(bytes, o + 8, b, Put(8, c, rest));
    Put8Reads(bytes, o + 16, c, rest);
  }

  lemma Four4(bytes: seq<byte>, o: nat, a: u32, b: u32, c: u32, d: u32, rest: seq<byte>)
    ensures SliceIs(bytes, o, Put(4, a, Put(4, b, Put(4, c, Put(4, d, rest))))) <==> (
      && UintAt(bytes, o, 4) == Ok(a) && UintAt(bytes, o + 4, 4) == Ok(b) && UintAt(bytes, o + 8, 4) == Ok(c)
      && UintAt(bytes, o + 12, 4) == Ok(d) && SliceIs(bytes, o + 16, rest))
  {
    Put4Reads(bytes, o, a, Put(4, b, Put(4, c, Put(4, d, rest))));
    Put4Reads(bytes, o + 4, b, Put(4, c, Put(4, d, rest)));
    Put4Reads(bytes, o + 8, c, Put(4, d, rest));
    Put4Reads(bytes, o + 12, d, rest);
  }

  lemma TermOffsetIff(bytes: seq<byte>, h: Header, rest: seq<byte>)
    ensures SliceIs(bytes, 96, TermOffsetBytes(h, rest)) <==> TermOffsetReads(bytes, h) && SliceIs(bytes, 128, rest)
  {
    Three8(bytes, 96, h.termBytesOffset, h.postingsOffset, h.fileLen, Put(8, 0, rest));
    Put8Reads(bytes, 120, 0, rest);
  }

  lemma OffsetIff(bytes: seq<byte>, h: Header, rest: seq<byte>)
    ensures SliceIs(bytes, 72, OffsetBytes(h, rest)) <==>
      OffsetReads(bytes, h) && SliceIs(bytes, 96, TermOffsetBytes(h, rest))
  {
    Three8(bytes, 72, h.rowIdsOffset, h.docLenOffset, h.termTableOffset, TermOffsetBytes(h, rest));
  }

  lemma FloatIff(bytes: seq<byte>, h: Header, rest: seq<byte>)
    ensures SliceIs(bytes, 56, FloatBytes(h, rest)) <==>
      FloatReads(bytes, h) && SliceIs(bytes, 72, OffsetBytes(h, rest))
  {
    Four4(bytes, 56, h.fields.avgDocLen.bits, h.fields.k1.bits, h.fields.b.bits, 0, OffsetBytes(h, rest));
  }

  lemma CountIff(bytes: seq<byte>, h: Header, rest: seq<byte>)
    ensures SliceIs(bytes, 32, CountBytes(h, rest)) <==> CountReads(bytes, h) && SliceIs(bytes, 56, FloatBytes(h, rest))
  {
    Three8(bytes, 32, h.docCount, h.termCount, h.fields.postingsCount, FloatBytes(h, rest));
  }

  lemma TokenizerIff(bytes: seq<byte>, h: Header, rest: seq<byte>)
    ensures SliceIs(bytes, 24, TokenizerBytes(h, rest)) <==>
      TokenizerReads(bytes, h) && SliceIs(bytes, 32, CountBytes(h, rest))
  {
    var r3 := CountBytes(h, rest);
    var r2 := Put(4, 0, r3);
    Put2Reads(bytes, 24, KindCode(h.tokenizer), Put(2, TOKENIZER_VERSION, r2));
    Put2Reads(bytes, 26, TOKENIZER_VERSION, r2);
    Put4Reads(bytes, 28, 0, r3);
  }

  lemma IdentityIff(bytes: seq<byte>, h: Header, rest: seq<byte>)
    requires |bytes| >= HEADER_LEN
    ensures SliceIs(bytes, 0, HeaderBytes(h, rest)) <==>
      IdentityReads(bytes, h) && SliceIs(bytes, 24, TokenizerBytes(h, rest))
  {
    var rest1 := TokenizerBytes(h, rest);
    JoinSlices(bytes, 0, MAGIC, Put(4, VERSION, Put(4, HEADER_LEN, Put(4, ENDIAN_MARKER, Put(4, 0, rest1)))));
    SliceEquals(bytes, 0, MAGIC);
    Four4(bytes, 8, VERSION, HEADER_LEN, ENDIAN_MARKER, 0, rest1);
  }

  lemma ParseIff(bytes: seq<byte>, h: Header)
    ensures ParseHeader(bytes) == Ok(h) <==> (
      && IdentityReads(bytes, h) && TokenizerReads(bytes, h) && CountReads(bytes, h)
      && FloatReads(bytes, h) && OffsetReads(bytes, h) && TermOffsetReads(bytes, h))
  {
  }

  /** The header parses to `h` exactly when it is the encoding of `h`. */
  lemma HeaderIff(bytes: seq<byte>, h: Header, rest: seq<byte>)
    ensures SliceIs(bytes, 0, HeaderBytes(h, rest)) <==> ParseHeader(bytes) == Ok(h) && SliceIs(bytes, HEADER_LEN, rest)
  {
    ParseIff(bytes, h);
    if |bytes| >= HEADER_LEN {
      IdentityIff(bytes, h, rest);
      TokenizerIff(bytes, h, rest);
      CountIff(bytes, h, rest);
      FloatIff(bytes, h, rest);
      OffsetIff(bytes, h, rest);
      TermOffsetIff(bytes, h, rest);
    }
  }

  lemma UintsAtNext(bytes: seq<byte>, base: nat, w: nat, values: seq<nat>, k: nat, o: nat)
    requires k < |values| && o == base + k * w
    ensures UintsAt(bytes, base, w, values, k + 1) <==>
      UintsAt(bytes, base, w, values, k) && UintAt(bytes, o, w) == Ok(values[k])
  {
  }

  lemma UintBound(bytes: seq<byte>, o: nat, w: nat)
    ensures UintAt(bytes, o, w).Ok? <==> o + w <= |bytes|
  {
  }

  lemma {:induction false} RowIdsIff(bytes: seq<byte>, base: nat, ids: seq<u64>, n: nat)
    requires n <= |ids|
    ensures |UintsBytes(8, ids, n)| == 8 * n
    ensures SliceIs(bytes, base, UintsBytes(8, ids, n)) <==> base + 8 * n <= |bytes| && UintsAt(bytes, base, 8, ids, n)
  {
    if n > 0 {
      var k, o := n - 1, base + (n - 1) * 8;
      RowIdsIff(bytes, base, ids, k);
      JoinSlices(bytes, base, UintsBytes(8, ids, k), Put(8, ids[k], []));
      Put8Reads(bytes, o, ids[k], []);
      UintsAtNext(bytes, base, 8, ids, k, o);
      UintBound(bytes, o, 8);
    }
  }

  lemma {:induction false} DocLensIff(bytes: seq<byte>, base: nat, lens: seq<u32>, n: nat)
    requires n <= |lens|
    ensures |UintsBytes(4, lens, n)| == 4 * n
    ensures SliceIs(bytes, base, UintsBytes(4, lens, n)) <==>
      base + 4 * n <= |bytes| && UintsAt(bytes, base, 4, lens, n)
  {
    if n > 0 {
      var k, o := n - 1, base + (n - 1) * 4;
      DocLensIff(bytes, base, lens, k);
      JoinSlices(bytes, base, UintsBytes(4, lens, k), Put(4, lens[k], []));
      Put4Reads(bytes, o, lens[k], []);
      UintsAtNext(bytes, base, 4, lens, k, o);
      UintBound(bytes, o, 4);
    }
  }

  lemma EntryIff(bytes: seq<byte>, o: nat, e: TermEntry)
    requires e.termOffset < U64_END && e.termLen < U32_END && e.postingsOffset < U64_END && e.postingsLen < U32_END
    ensures SliceIs(bytes, o, EntryBytes(e)) <==> EntryAt(bytes, o) == Ok(e)
  {
    var r5 := Put(4, 0, []);
    var r4 := Put(4, e.postingsLen, r5);
    var r3 := Put(8, e.postingsOffset, r4);
    var r2 := Put(4, 0, r3);
    Put8Reads(bytes, o, e.termOffset, Put(4, e.termLen, r2));
    Put4Reads(bytes, o + 8, e.termLen, r2);
    Put4Reads(bytes, o + 12, 0, r3);
    Put8Reads(bytes, o + 16, e.postingsOffset, r4);
    Put4Reads(bytes, o + 24, e.postingsLen, r5);
    Put4Reads(bytes, o + 28, 0, []);
  }

  lemma PostingIff(bytes: seq<byte>, o: nat, p: Posting)
    ensures SliceIs(bytes, o, PostingBytes(p)) <==> PostingIs(bytes, o, p)
  {
    Put4Reads(bytes, o, p.doc, Put(2, p.tf, Put(2, 0, [])));
    Put2Reads(bytes, o + 4, p.tf, Put(2, 0, []));
    Put2Reads(bytes, o + 6, 0, []);
  }

  lemma {:induction false} ListIff(bytes: seq<byte>, base: nat, list: seq<Posting>, n: nat)
    requires n <= |list|
    ensures |ListBytes(list, n)| == 8 * n
    ensures SliceIs(bytes, base, ListBytes(list, n)) <==> base + 8 * n <= |bytes| && ListAt(bytes, base, list, n)
  {
    if n > 0 {
      var k := n - 1;
      ListIff(bytes, base, list, k);
      JoinSlices(bytes, base, ListBytes(list, k), PostingBytes(list[k]));
      PostingIff(bytes, base + k * 8, list[k]);
    }
  }

  lemma ListsStep(bytes: seq<byte>, base: nat, o: nat, before: seq<byte>, list: seq<Posting>)
    requires o == base + |before|
    ensures |before + ListBytes(list, |list|)| == |before| + 8 * |list|
    ensures SliceIs(bytes, base, before + ListBytes(list, |list|)) <==>
      SliceIs(bytes, base, before) && o + 8 * |list| <= |bytes| && ListAt(bytes, o, list, |list|)
  {
    JoinSlices(bytes, base, before, ListBytes(list, |list|));
    ListIff(bytes, o, list, |list|);
  }

  lemma {:induction false} ListsIff(bytes: seq<byte>, base: nat, postings: seq<seq<Posting>>, n: nat)
    requires n <= |postings|
    ensures |ListsBytes(postings, n)| == 8 * PostingsBefore(postings, n)
    ensures SliceIs(bytes, base, ListsBytes(postings, n)) <==>
      base + 8 * PostingsBefore(postings, n) <= |bytes| && ListsAt(bytes, base, postings, n)
  {
    if n > 0 {
      var k := n - 1;
      ListsIff(bytes, base, postings, k);
      ListsStep(bytes, base, base + 8 * PostingsBefore(postings, k), ListsBytes(postings, k), postings[k]);
      assert ListsAt(bytes, base, postings, n) <==>
        ListsAt(bytes, base, postings, k) && ListStands(bytes, base, postings, k);
    }
  }

  lemma {:induction false} TermsIff(bytes: seq<byte>, base: nat, terms: seq<Term>, n: nat)
    requires n <= |terms|
    ensures |TermsBytes(terms, n)| == TermLensBefore(terms, n)
    ensures SliceIs(bytes, base, TermsBytes(terms, n)) <==>
      base + TermLensBefore(terms, n) <= |bytes| && TermsAt(bytes, base, terms, n)
  {
    if n > 0 {
      var k := n - 1;
      TermsIff(bytes, base, terms, k);
      JoinSlices(bytes, base, TermsBytes(terms, k), terms[k]);
      assert TermsAt(bytes, base, terms, n) <==>
        TermsAt(bytes, base, terms, k) && TermStands(bytes, base, terms, k);
    }
  }

  lemma EntryInRange(c: Content, t: nat)
    requires |c.terms| == |c.postings| && FileLen(c) < U64_END && t < |c.terms|
    ensures EntryOf(c, t).termOffset < U64_END && EntryOf(c, t).postingsOffset < U64_END
  {
    TermLensMonotone(c.terms, t, |c.terms|);
    PostingsBeforeMonotone(c.postings, t, |c.postings|);
  }

  lemma EntriesAtNext(bytes: seq<byte>, c: Content, k: nat)
    requires k < |c.terms| == |c.postings|
    ensures EntriesAt(bytes, c, k + 1) <==>
      EntriesAt(bytes, c, k) && EntryAt(bytes, TermTableOffset(c) + k * 32) == Ok(EntryOf(c, k))
  {
  }

  lemma {:induction false} EntriesIff(bytes: seq<byte>, c: Content, n: nat)
    requires n <= |c.terms| == |c.postings| && FileLen(c) < U64_END
    ensures |EntriesBytes(c, n)| == 32 * n
    ensures SliceIs(bytes, TermTableOffset(c), EntriesBytes(c, n)) <==>
      TermTableOffset(c) + 32 * n <= |bytes| && EntriesAt(bytes, c, n)
  {
    if n > 0 {
      var k := n - 1;
      var e := EntryOf(c, k);
      EntriesIff(bytes, c, k);
      EntryInRange(c, k);
      EntriesStep(bytes, TermTableOffset(c), TermTableOffset(c) + k * 32, EntriesBytes(c, k), e);
      EntriesAtNext(bytes, c, k);
    }
  }

  lemma EntriesStep(bytes: seq<byte>, base: nat, o: nat, before: seq<byte>, e: TermEntry)
    requires e.termOffset < U64_END && e.termLen < U32_END && e.postingsOffset < U64_END && e.postingsLen < U32_END
    requires o == base + |before|
    ensures SliceIs(bytes, base, before + EntryBytes(e)) <==>
      SliceIs(bytes, base, before) && o + 32 <= |bytes| && EntryAt(bytes, o) == Ok(e)
  {
    JoinSlices(bytes, base, before, EntryBytes(e));
    EntryIff(bytes, o, e);
  }

  lemma SectionLengths(c: Content)
    requires FileLen(c) < U64_END && |c.terms| == |c.postings|
    ensures |UintsBytes(8, c.rowIds, |c.rowIds|)| == 8 * |c.rowIds|
    ensures |UintsBytes(4, c.docLens, |c.docLens|)| == 4 * |c.docLens|
    ensures |EntriesBytes(c, |c.terms|)| == 32 * |c.terms|
    ensures |TermsBytes(c.terms, |c.terms|)| == TermLensBefore(c.terms, |c.terms|)
    ensures |ListsBytes(c.postings, |c.postings|)| == 8 * PostingsBefore(c.postings, |c.postings|)
  {
    RowIdsIff([], 0, c.rowIds, |c.rowIds|);
    DocLensIff([], 0, c.docLens, |c.docLens|);
    EntriesIff([], c, |c.terms|);
    TermsIff([], 0, c.terms, |c.terms|);
    ListsIff([], 0, c.postings, |c.postings|);
  }

  lemma SectionsIff(bytes: seq<byte>, c: Content)
    requires FileLen(c) < U64_END && |c.terms| == |c.postings|
    ensures |SectionBytes(c)| == FileLen(c) - HEADER_LEN
    ensures SliceIs(bytes, HEADER_LEN, SectionBytes(c)) <==> (
      && SliceIs(bytes, HEADER_LEN, UintsBytes(8, c.rowIds, |c.rowIds|))
      && SliceIs(bytes, DocLenOffset(c), UintsBytes(4, c.docLens, |c.docLens|))
      && SliceIs(bytes, TermTableOffset(c), EntriesBytes(c, |c.terms|))
      && SliceIs(bytes, TermBytesOffset(c), TermsBytes(c.terms, |c.terms|))
      && SliceIs(bytes, PostingsOffset(c), ListsBytes(c.postings, |c.postings|)))
  {
    SectionLengths(c);
    JoinFive(bytes, HEADER_LEN, UintsBytes(8, c.rowIds, |c.rowIds|), UintsBytes(4, c.docLens, |c.docLens|),
             EntriesBytes(c, |c.terms|), TermsBytes(c.terms, |c.terms|), ListsBytes(c.postings, |c.postings|),
             DocLenOffset(c), TermTableOffset(c), TermBytesOffset(c), PostingsOffset(c));
  }

  /** The file is the encoding of `c` and `f` exactly when reading it returns `c` and `f`. */
  lemma EncodesIffDescribes(bytes: seq<byte>, c: Content, f: Fields)
    requires FileLen(c) < U64_END && |c.terms| == |c.postings|
    ensures |Encode(c, f)| == FileLen(c)
    ensures bytes == Encode(c, f) <==> Describes(bytes, c, f)
  {
    WholeSlice(bytes, Encode(c, f));
    SectionsIff(bytes, c);
    if |bytes| == FileLen(c) {
      HeaderIff(bytes, HeaderOf(c, f), SectionBytes(c));
      RowIdsIff(bytes, HEADER_LEN, c.rowIds, |c.rowIds|);
      DocLensIff(bytes, DocLenOffset(c), c.docLens, |c.docLens|);
      EntriesIff(bytes, c, |c.terms|);
      TermsIff(bytes, TermBytesOffset(c), c.terms, |c.terms|);
      ListsIff(bytes, PostingsOffset(c), c.postings, |c.postings|);
    }
  }
}
