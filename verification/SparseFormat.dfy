/** The BM25 sidecar file: its content, its byte encoding and the reads that undo it. */
module SparseFormat {
  import opened Wrappers
  import opened Floats
  import opened Bytes

  datatype TokenizerKind = Simple | IdentifierSubtokens

  type Term = seq<byte>

  datatype Posting = Posting(doc: u32, tf: u16)

  /** What a file holds; document `d` has row id `rowIds[d]` and length `docLens[d]`, term `t`
      has the posting list `postings[t]`. */
  datatype Content = Content(tokenizer: TokenizerKind, rowIds: seq<u64>, docLens: seq<u32>,
                             terms: seq<Term>, postings: seq<seq<Posting>>)

  /** The four header fields that the content does not determine. */
  datatype Fields = Fields(postingsCount: u64, avgDocLen: F32, k1: F32, b: F32)

  datatype Header = Header(tokenizer: TokenizerKind, docCount: u64, termCount: u64, fields: Fields,
                           rowIdsOffset: u64, docLenOffset: u64, termTableOffset: u64,
                           termBytesOffset: u64, postingsOffset: u64, fileLen: u64)

  datatype TermEntry = TermEntry(termOffset: nat, termLen: nat, postingsOffset: nat, postingsLen: nat)

  // "ODBSBM1\0"
  const MAGIC: seq<byte> := [79, 68, 66, 83, 66, 77, 49, 0]
  const VERSION: nat := 1
  const HEADER_LEN: nat := 128
  const ENDIAN_MARKER: nat := 0x0102_0304
  const TOKENIZER_VERSION: nat := 1

  function KindCode(k: TokenizerKind): nat {
    match k
    case Simple => 1
    case IdentifierSubtokens => 2
  }

  /** `TokenizerKind::from_u16` */
  function KindOfCode(code: nat): Result<TokenizerKind> {
    if code == 1 then Ok(Simple) else if code == 2 then Ok(IdentifierSubtokens) else Err
  }

  // ----- Where things stand -----

  function DocLenOffset(c: Content): nat { HEADER_LEN + 8 * |c.rowIds| }

  function TermTableOffset(c: Content): nat { DocLenOffset(c) + 4 * |c.docLens| }

  function TermBytesOffset(c: Content): nat { TermTableOffset(c) + 32 * |c.terms| }

  /** Bytes of the first `t` terms. */
  function TermLensBefore(terms: seq<Term>, t: nat): nat
    requires t <= |terms|
  {
    if t == 0 then 0 else TermLensBefore(terms, t - 1) + |terms[t - 1]|
  }

  /** Start of the bytes of term `t`; for `t == |c.terms|` the end of the section. */
  function TermOffset(c: Content, t: nat): nat
    requires t <= |c.terms|
  {
    TermBytesOffset(c) + TermLensBefore(c.terms, t)
  }

  function PostingsOffset(c: Content): nat { TermOffset(c, |c.terms|) }

  /** Postings of the first `t` terms. */
  function PostingsBefore(postings: seq<seq<Posting>>, t: nat): nat
    requires t <= |postings|
  {
    if t == 0 then 0 else PostingsBefore(postings, t - 1) + |postings[t - 1]|
  }

  function PostingOffset(c: Content, t: nat): nat
    requires t <= |c.postings|
  {
    PostingsOffset(c) + 8 * PostingsBefore(c.postings, t)
  }

  function FileLen(c: Content): nat { PostingOffset(c, |c.postings|) }

  lemma {:induction false} TermLensMonotone(terms: seq<Term>, i: nat, j: nat)
    requires i <= j <= |terms|
    ensures TermLensBefore(terms, i) <= TermLensBefore(terms, j)
    decreases j
  {
    if i < j {
      TermLensMonotone(terms, i, j - 1);
    }
  }

  lemma {:induction false} PostingsBeforeMonotone(postings: seq<seq<Posting>>, i: nat, j: nat)
    requires i <= j <= |postings|
    ensures PostingsBefore(postings, i) <= PostingsBefore(postings, j)
    decreases j
  {
    if i < j {
      PostingsBeforeMonotone(postings, i, j - 1);
    }
  }

  // ----- Encoding -----

  /** The header of a file with this content; the writer's counts and cursors. */
  function HeaderOf(c: Content, f: Fields): Header
    requires FileLen(c) < U64_END
  {
    Header(c.tokenizer, |c.rowIds|, |c.terms|, f, HEADER_LEN, DocLenOffset(c), TermTableOffset(c),
           TermBytesOffset(c), PostingsOffset(c), FileLen(c))
  }

  function HeaderBytes(h: Header, rest: seq<byte>): (s: seq<byte>)
    ensures |s| == HEADER_LEN + |rest|
  {
    MAGIC + Put(4, VERSION, Put(4, HEADER_LEN, Put(4, ENDIAN_MARKER, Put(4, 0, TokenizerBytes(h, rest)))))
  }

  function TokenizerBytes(h: Header, rest: seq<byte>): seq<byte> {
    Put(2, KindCode(h.tokenizer), Put(2, TOKENIZER_VERSION, Put(4, 0, CountBytes(h, rest))))
  }

  function CountBytes(h: Header, rest: seq<byte>): seq<byte> {
    Put(8, h.docCount, Put(8, h.termCount, Put(8, h.fields.postingsCount, FloatBytes(h, rest))))
  }

  function FloatBytes(h: Header, rest: seq<byte>): seq<byte> {
    Put(4, h.fields.avgDocLen.bits, Put(4, h.fields.k1.bits, Put(4, h.fields.b.bits, Put(4, 0, OffsetBytes(h, rest)))))
  }

  function OffsetBytes(h: Header, rest: seq<byte>): seq<byte> {
    Put(8, h.rowIdsOffset, Put(8, h.docLenOffset, Put(8, h.termTableOffset, TermOffsetBytes(h, rest))))
  }

  function TermOffsetBytes(h: Header, rest: seq<byte>): seq<byte> {
    Put(8, h.termBytesOffset, Put(8, h.postingsOffset, Put(8, h.fileLen, Put(8, 0, rest))))
  }

  /** The first `n` values, `w` bytes each. */
  function UintsBytes(w: nat, values: seq<nat>, n: nat): seq<byte>
    requires n <= |values|
  {
    if n == 0 then [] else UintsBytes(w, values, n - 1) + Put(w, values[n - 1], [])
  }

  /** The entry written for term `t`. The casts to `u32` are those of the writer. */
  function EntryOf(c: Content, t: nat): TermEntry
    requires t < |c.terms| == |c.postings|
  {
    TermEntry(TermOffset(c, t), |c.terms[t]| % U32_END, PostingOffset(c, t), |c.postings[t]| % U32_END)
  }

  function EntryBytes(e: TermEntry): (s: seq<byte>)
    ensures |s| == 32
  {
    Put(8, e.termOffset, Put(4, e.termLen, Put(4, 0, Put(8, e.postingsOffset, Put(4, e.postingsLen, Put(4, 0, []))))))
  }

  function EntriesBytes(c: Content, n: nat): seq<byte>
    requires n <= |c.terms| == |c.postings|
  {
    if n == 0 then [] else EntriesBytes(c, n - 1) + EntryBytes(EntryOf(c, n - 1))
  }

  function TermsBytes(terms: seq<Term>, n: nat): seq<byte>
    requires n <= |terms|
  {
    if n == 0 then [] else TermsBytes(terms, n - 1) + terms[n - 1]
  }

  function PostingBytes(p: Posting): (s: seq<byte>)
    ensures |s| == 8
  {
    Put(4, p.doc, Put(2, p.tf, Put(2, 0, [])))
  }

  function ListBytes(list: seq<Posting>, n: nat): seq<byte>
    requires n <= |list|
  {
    if n == 0 then [] else ListBytes(list, n - 1) + PostingBytes(list[n - 1])
  }

  function ListsBytes(postings: seq<seq<Posting>>, n: nat): seq<byte>
    requires n <= |postings|
  {
    if n == 0 then [] else ListsBytes(postings, n - 1) + ListBytes(postings[n - 1], |postings[n - 1]|)
  }

  /** The five sections, in order. */
  function SectionBytes(c: Content): seq<byte>
    requires |c.terms| == |c.postings|
  {
    UintsBytes(8, c.rowIds, |c.rowIds|)
      + (UintsBytes(4, c.docLens, |c.docLens|)
        + (EntriesBytes(c, |c.terms|) + (TermsBytes(c.terms, |c.terms|) + ListsBytes(c.postings, |c.postings|))))
  }

  function Encode(c: Content, f: Fields): seq<byte>
    requires FileLen(c) < U64_END && |c.terms| == |c.postings|
  {
    HeaderBytes(HeaderOf(c, f), SectionBytes(c))
  }

  // ----- Reading -----

  function F32At(bytes: seq<byte>, offset: nat): Result<F32> {
    match UintAt(bytes, offset, 4)
    case Ok(v) => (UintAtBound(bytes, offset, 4); Widths(); Ok(F32(v)))
    case Err => Err
  }

  function U64At(bytes: seq<byte>, offset: nat): u64
    requires offset + 8 <= |bytes|
  {
    UintAtBound(bytes, offset, 8);
    Widths();
    UintAt(bytes, offset, 8).value
  }

  /** `Header::parse` */
  function ParseHeader(bytes: seq<byte>): Result<Header> {
    if |bytes| < HEADER_LEN then Err
    else if bytes[..8] != MAGIC then Err
    else if UintAt(bytes, 8, 4) != Ok(VERSION) then Err
    else if UintAt(bytes, 12, 4) != Ok(HEADER_LEN) then Err
    else if UintAt(bytes, 16, 4) != Ok(ENDIAN_MARKER) then Err
    else if UintAt(bytes, 20, 4) != Ok(0) || UintAt(bytes, 28, 4) != Ok(0)
         || UintAt(bytes, 68, 4) != Ok(0) || UintAt(bytes, 120, 8) != Ok(0) then Err
    else
      var tokenizer := KindOfCode(UintAt(bytes, 24, 2).value);
      if tokenizer.Err? then Err
      else if UintAt(bytes, 26, 2) != Ok(TOKENIZER_VERSION) then Err
      else
        var fields := Fields(U64At(bytes, 48), F32At(bytes, 56).value, F32At(bytes, 60).value, F32At(bytes, 64).value);
        Ok(Header(tokenizer.value, U64At(bytes, 32), U64At(bytes, 40), fields,
                  U64At(bytes, 72), U64At(bytes, 80), U64At(bytes, 88),
                  U64At(bytes, 96), U64At(bytes, 104), U64At(bytes, 112)))
  }

  /** `term_entry`, once the index is known to be in range: both reserved words must be zero. */
  function EntryAt(bytes: seq<byte>, offset: nat): Result<TermEntry> {
    if UintAt(bytes, offset + 12, 4) != Ok(0) || UintAt(bytes, offset + 28, 4) != Ok(0) then Err
    else Ok(TermEntry(UintAt(bytes, offset, 8).value, UintAt(bytes, offset + 8, 4).value,
                      UintAt(bytes, offset + 16, 8).value, UintAt(bytes, offset + 24, 4).value))
  }

  /** One posting cell: ordinal, frequency and a reserved word that must be zero. */
  ghost predicate PostingIs(bytes: seq<byte>, offset: nat, p: Posting) {
    && UintAt(bytes, offset, 4) == Ok(p.doc) && UintAt(bytes, offset + 4, 2) == Ok(p.tf)
    && UintAt(bytes, offset + 6, 2) == Ok(0)
  }

  // ----- What reading sees of an encoded file -----

  ghost predicate UintsAt(bytes: seq<byte>, base: nat, w: nat, values: seq<nat>, n: nat)
    requires n <= |values|
  {
    forall i :: 0 <= i < n ==> UintAt(bytes, base + i * w, w) == Ok(values[i])
  }

  ghost predicate EntriesAt(bytes: seq<byte>, c: Content, n: nat)
    requires n <= |c.terms| == |c.postings|
  {
    forall t :: 0 <= t < n ==> EntryAt(bytes, TermTableOffset(c) + t * 32) == Ok(EntryOf(c, t))
  }

  ghost predicate TermsAt(bytes: seq<byte>, base: nat, terms: seq<Term>, n: nat)
    requires n <= |terms|
  {
    forall t :: 0 <= t < n ==> TermStands(bytes, base, terms, t)
  }

  ghost predicate TermStands(bytes: seq<byte>, base: nat, terms: seq<Term>, t: nat)
    requires t < |terms|
  {
    SliceIs(bytes, base + TermLensBefore(terms, t), terms[t])
  }

  ghost predicate ListAt(bytes: seq<byte>, base: nat, list: seq<Posting>, n: nat)
    requires n <= |list|
  {
    forall j :: 0 <= j < n ==> PostingIs(bytes, base + j * 8, list[j])
  }

  ghost predicate ListsAt(bytes: seq<byte>, base: nat, postings: seq<seq<Posting>>, n: nat)
    requires n <= |postings|
  {
    forall t :: 0 <= t < n ==> ListStands(bytes, base, postings, t)
  }

  ghost predicate ListStands(bytes: seq<byte>, base: nat, postings: seq<seq<Posting>>, t: nat)
    requires t < |postings|
  {
    ListAt(bytes, base + 8 * PostingsBefore(postings, t), postings[t], |postings[t]|)
  }

  /** `c` and `f` are what the reads of the file return, and the file has no other bytes. */
  ghost predicate Describes(bytes: seq<byte>, c: Content, f: Fields) {
    && |c.terms| == |c.postings| && |bytes| == FileLen(c) < U64_END
    && ParseHeader(bytes) == Ok(HeaderOf(c, f))
    && UintsAt(bytes, HEADER_LEN, 8, c.rowIds, |c.rowIds|)
    && UintsAt(bytes, DocLenOffset(c), 4, c.docLens, |c.docLens|)
    && EntriesAt(bytes, c, |c.terms|)
    && TermsAt(bytes, TermBytesOffset(c), c.terms, |c.terms|)
    && ListsAt(bytes, PostingsOffset(c), c.postings, |c.postings|)
  }
}
