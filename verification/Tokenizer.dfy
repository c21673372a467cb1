/** Tokenizer v1. Text is its UTF-8 bytes: every byte of a non-ASCII character is at least 128,
    so the byte view has the same ASCII alphanumeric runs as the character view. */
module Tokenizer {
  import opened Wrappers
  import opened Bytes
  import opened SparseFormat

  predicate IsUpper(b: byte) { 65 <= b <= 90 }
  predicate IsLower(b: byte) { 97 <= b <= 122 }
  predicate IsDigit(b: byte) { 48 <= b <= 57 }
  predicate IsAlnum(b: byte) { IsUpper(b) || IsLower(b) || IsDigit(b) }

  const SMALL_S: byte := 115

  function ToLower(b: byte): byte {
    if IsUpper(b) then b + 32 else b
  }

  // ----- Normalization -----

  /** `is_normalized_term_v1`, the invariant the reader enforces on stored terms. */
  predicate IsNormalized(term: Term) {
    && |term| >= 3
    && (forall i :: 0 <= i < |term| ==> IsLower(term[i]) || IsDigit(term[i]))
    && !(|term| > 4 && term[|term| - 1] == SMALL_S)
  }

  predicate AllAlnum(s: seq<byte>) {
    forall i :: 0 <= i < |s| ==> IsAlnum(s[i])
  }

  function Lowered(s: seq<byte>): (r: seq<byte>)
    ensures |r| == |s| && forall i :: 0 <= i < |s| ==> r[i] == ToLower(s[i])
  {
    seq(|s|, i requires 0 <= i < |s| => ToLower(s[i]))
  }

  /** Drop trailing `s` bytes while more than four bytes remain. */
  function Strip(term: Term): (r: Term)
    ensures |term| >= 3 ==> |r| >= 3
  {
    if |term| > 4 && term[|term| - 1] == SMALL_S then Strip(term[..|term| - 1]) else term
  }

  function Normalize(term: seq<byte>): Option<Term> {
    if !AllAlnum(term) || |term| < 3 then None else Some(Strip(Lowered(term)))
  }

  lemma {:induction false} StripNormalizes(term: Term)
    requires |term| >= 3 && forall i :: 0 <= i < |term| ==> IsLower(term[i]) || IsDigit(term[i])
    ensures IsNormalized(Strip(term))
  {
    if |term| > 4 && term[|term| - 1] == SMALL_S {
      StripNormalizes(term[..|term| - 1]);
    }
  }

  /** Whatever the writer normalizes satisfies the reader's invariant, and the terms satisfying
      it are exactly the fixed points of normalization. */
  lemma NormalizeIsExact(term: seq<byte>)
    ensures Normalize(term).Some? ==> IsNormalized(Normalize(term).value)
    ensures IsNormalized(term) <==> Normalize(term) == Some(term)
  {
    if Normalize(term).Some? {
      StripNormalizes(Lowered(term));
    }
    if IsNormalized(term) {
      assert Lowered(term) == term;
    }
  }

  /** `normalize_term`, with the popping loop. */
  method NormalizeTerm(term: seq<byte>) returns (r: Option<Term>)
    ensures r == Normalize(term)
  {
    if exists i :: 0 <= i < |term| && !IsAlnum(term[i]) {
      return None;
    }
    var lower := Lowered(term);
    if |lower| < 3 {
      return None;
    }
    while |lower| > 4 && lower[|lower| - 1] == SMALL_S
      invariant |lower| >= 3 && Strip(lower) == Strip(Lowered(term))
    {
      lower := lower[..|lower| - 1];
    }
    r := if |lower| < 3 then None else Some(lower);
  }

  // ----- Runs -----

  function RunLength(text: seq<byte>): (n: nat)
    ensures n <= |text| && AllAlnum(text[..n]) && (n < |text| ==> !IsAlnum(text[n]))
  {
    if text == [] || !IsAlnum(text[0]) then 0 else 1 + RunLength(text[1..])
  }

  /** The maximal ASCII alphanumeric runs of a text, left to right. */
  function Runs(text: seq<byte>): seq<seq<byte>>
    decreases |text|
  {
    if text == [] then []
    else if !IsAlnum(text[0]) then Runs(text[1..])
    else var n := RunLength(text); [text[..n]] + Runs(text[n..])
  }

  lemma {:induction false} RunLengthIs(text: seq<byte>, n: nat)
    requires n <= |text| && AllAlnum(text[..n]) && (n < |text| ==> !IsAlnum(text[n]))
    ensures RunLength(text) == n
  {
    if n > 0 {
      assert text[..n][0] == text[0];
      var rest := text[1..];
      var shorter := rest[..n - 1];
      forall i | 0 <= i < |shorter| ensures IsAlnum(shorter[i]) {
        assert text[..n][i + 1] == rest[i];
      }
      RunLengthIs(text[1..], n - 1);
    }
  }

  lemma SkipOne(text: seq<byte>, idx: nat)
    requires idx < |text| && !IsAlnum(text[idx])
    ensures Runs(text[idx..]) == Runs(text[idx + 1..])
  {
    assert text[idx..][1..] == text[idx + 1..];
  }

  /** What the scan has found so far: whole runs, and perhaps the start of another. */
  ghost predicate ScanOk(text: seq<byte>, tokens: seq<seq<byte>>, start: Option<nat>, idx: nat) {
    idx <= |text|
    && (start.Some? ==> start.value < idx && forall i :: start.value <= i < idx ==> IsAlnum(text[i]))
    && Runs(text) == tokens + Runs(text[if start.Some? then start.value else idx..])
  }

  lemma ScanEndsRun(text: seq<byte>, tokens: seq<seq<byte>>, start: nat, idx: nat)
    requires ScanOk(text, tokens, Some(start), idx) && (idx < |text| ==> !IsAlnum(text[idx]))
    ensures ScanOk(text, tokens + [text[start..idx]], None, idx)
  {
    RunEnds(text, start, idx);
  }

  lemma ScanSkips(text: seq<byte>, tokens: seq<seq<byte>>, idx: nat)
    requires ScanOk(text, tokens, None, idx) && idx < |text| && !IsAlnum(text[idx])
    ensures ScanOk(text, tokens, None, idx + 1)
  {
    SkipOne(text, idx);
  }

  /** `ascii_alnum_tokens`, with its optional open start. */
  method AsciiAlnumTokens(text: seq<byte>) returns (tokens: seq<seq<byte>>)
    ensures tokens == Runs(text)
  {
    tokens := [];
    var start: Option<nat> := None;
    assert text[0..] == text;
    for idx := 0 to |text|
      invariant ScanOk(text, tokens, start, idx)
    {
      if IsAlnum(text[idx]) {
        if start.None? {
          start := Some(idx);
        }
      } else {
        if start.Some? {
          ScanEndsRun(text, tokens, start.value, idx);
          tokens := tokens + [text[start.value..idx]];
          start := None;
        }
        ScanSkips(text, tokens, idx);
      }
    }
    if start.Some? {
      ScanEndsRun(text, tokens, start.value, |text|);
      assert text[start.value..|text|] == text[start.value..];
      tokens := tokens + [text[start.value..]];
    }
    assert text[|text|..] == [];
  }

  lemma RunEnds(text: seq<byte>, start: nat, end: nat)
    requires start < end <= |text| && forall i :: start <= i < end ==> IsAlnum(text[i])
    requires end < |text| ==> !IsAlnum(text[end])
    ensures Runs(text[start..]) == [text[start..end]] + Runs(text[end..])
  {
    var rest := text[start..];
    assert rest[..end - start] == text[start..end] && rest[end - start..] == text[end..];
    RunLengthIs(rest, end - start);
  }

  // ----- Camel-case subtokens -----

  /** A new part starts at an upper-case byte that follows a lower-case byte or a digit, or
      that ends an upper-case run before a lower-case byte. */
  predicate SplitsAt(token: seq<byte>, idx: nat)
    requires 0 < idx < |token|
  {
    IsUpper(token[idx]) && (
      || IsLower(token[idx - 1]) || IsDigit(token[idx - 1])
      || (IsUpper(token[idx - 1]) && idx + 1 < |token| && IsLower(token[idx + 1])))
  }

  /** `parts` are consecutive, non-empty, end with the token, and meet exactly at the split
      points after `start`. */
  ghost predicate CutsAtSplits(token: seq<byte>, start: nat, parts: seq<seq<byte>>)
    decreases |parts|
  {
    && parts != [] && parts[0] != []
    && (var end := start + |parts[0]|;
        && end <= |token| && parts[0] == token[start..end]
        && (forall idx :: start < idx < end ==> !SplitsAt(token, idx))
        && if |parts| == 1 then end == |token|
           else end < |token| && SplitsAt(token, end) && CutsAtSplits(token, end, parts[1..]))
  }

  /** `identifier_subtokens`: nothing when there is a single part. */
  function Subtokens(token: seq<byte>): seq<seq<byte>> {
    if |token| < 2 then [] else var parts := PartsFrom(token, 0, 1); if |parts| <= 1 then [] else parts
  }

  function PartsFrom(token: seq<byte>, start: nat, idx: nat): seq<seq<byte>>
    requires start < idx <= |token|
    decreases |token| - idx
  {
    if idx == |token| then [token[start..]]
    else if SplitsAt(token, idx) then [token[start..idx]] + PartsFrom(token, idx, idx + 1)
    else PartsFrom(token, start, idx + 1)
  }

  lemma {:induction false} PartsCutAtSplits(token: seq<byte>, start: nat, idx: nat)
    requires start < idx <= |token| && forall i :: start < i < idx ==> !SplitsAt(token, i)
    ensures CutsAtSplits(token, start, PartsFrom(token, start, idx))
    decreases |token| - idx
  {
    if idx == |token| {
      assert token[start..|token|] == token[start..];
    } else if SplitsAt(token, idx) {
      PartsCutAtSplits(token, idx, idx + 1);
      var parts := PartsFrom(token, start, idx);
      assert parts[1..] == PartsFrom(token, idx, idx + 1);
    } else {
      PartsCutAtSplits(token, start, idx + 1);
    }
  }

  /** The subtokens of a run are its pieces between camel-case boundaries, or nothing when it
      has no such boundary. */
  lemma SubtokensCutAtSplits(token: seq<byte>)
    ensures Subtokens(token) != [] ==> CutsAtSplits(token, 0, Subtokens(token))
    ensures Subtokens(token) == [] <==> forall idx :: 0 < idx < |token| ==> !SplitsAt(token, idx)
  {
    if |token| >= 2 {
      PartsCutAtSplits(token, 0, 1);
      var parts := PartsFrom(token, 0, 1);
      if |parts| > 1 {
        assert SplitsAt(token, |parts[0]|);
      }
    }
  }

  method IdentifierSubtokens(token: seq<byte>) returns (parts: seq<seq<byte>>)
    ensures parts == Subtokens(token)
  {
    if |token| < 2 {
      return [];
    }
    parts := [];
    var start := 0;
    for idx := 1 to |token|
      invariant start < idx
      invariant PartsFrom(token, 0, 1) == parts + PartsFrom(token, start, idx)
    {
      if SplitsAt(token, idx) {
        parts := parts + [token[start..idx]];
        start := idx;
      }
    }
    parts := parts + [token[start..]];
    return if |parts| <= 1 then [] else parts;
  }

  // ----- Tokenization -----

  function NormalizeAll(tokens: seq<seq<byte>>): seq<Term> {
    if tokens == [] then []
    else
      var k := |tokens| - 1;
      NormalizeAll(tokens[..k]) + (match Normalize(tokens[k]) case Some(t) => [t] case None => [])
  }

  /** The terms of one run: the run itself and, in identifier mode, its camel-case parts. */
  function RunTerms(kind: TokenizerKind, run: seq<byte>): seq<Term> {
    NormalizeAll([run]) + (if kind == TokenizerKind.IdentifierSubtokens then NormalizeAll(Subtokens(run)) else [])
  }

  /** The terms of the first `n` runs. */
  function RunsTerms(kind: TokenizerKind, runs: seq<seq<byte>>, n: nat): seq<Term>
    requires n <= |runs|
  {
    if n == 0 then [] else RunsTerms(kind, runs, n - 1) + RunTerms(kind, runs[n - 1])
  }

  function Tokens(kind: TokenizerKind, text: seq<byte>): seq<Term> {
    RunsTerms(kind, Runs(text), |Runs(text)|)
  }

  /** `tokenize_text` */
  method TokenizeText(kind: TokenizerKind, text: seq<byte>) returns (terms: seq<Term>)
    ensures terms == Tokens(kind, text)
  {
    var runs := AsciiAlnumTokens(text);
    terms := TokenizeRuns(kind, runs);
  }

  method TokenizeRuns(kind: TokenizerKind, runs: seq<seq<byte>>) returns (terms: seq<Term>)
    ensures terms == RunsTerms(kind, runs, |runs|)
  {
    terms := [];
    for n := 0 to |runs|
      invariant terms == RunsTerms(kind, runs, n)
    {
      var more := TokenizeRun(kind, runs[n]);
      terms := terms + more;
    }
  }

  /** The loop body of `tokenize_text`. */
  method TokenizeRun(kind: TokenizerKind, run: seq<byte>) returns (terms: seq<Term>)
    ensures terms == RunTerms(kind, run)
  {
    terms := NormalizeTokens([run]);
    if kind == TokenizerKind.IdentifierSubtokens {
      var subtokens := IdentifierSubtokens(run);
      var parts := NormalizeTokens(subtokens);
      terms := terms + parts;
    }
  }

  /** The loop that keeps the tokens `normalize_term` accepts. */
  method NormalizeTokens(tokens: seq<seq<byte>>) returns (terms: seq<Term>)
    ensures terms == NormalizeAll(tokens)
  {
    terms := [];
    for n := 0 to |tokens|
      invariant terms == NormalizeAll(tokens[..n])
    {
      assert tokens[..n + 1][..n] == tokens[..n];
      var term := NormalizeTerm(tokens[n]);
      if term.Some? {
        terms := terms + [term.value];
      }
    }
    assert tokens[..|tokens|] == tokens;
  }

  ghost predicate AllNormalized(terms: seq<Term>) {
    forall i :: 0 <= i < |terms| ==> IsNormalized(terms[i])
  }

  lemma {:induction false} NormalizeAllNormalizes(tokens: seq<seq<byte>>)
    ensures AllNormalized(NormalizeAll(tokens))
  {
    if tokens != [] {
      var k := |tokens| - 1;
      NormalizeAllNormalizes(tokens[..k]);
      NormalizeIsExact(tokens[k]);
    }
  }

  lemma AllNormalizedTogether(a: seq<Term>, b: seq<Term>)
    requires AllNormalized(a) && AllNormalized(b)
    ensures AllNormalized(a + b)
  {
  }

  lemma RunTermsNormalized(kind: TokenizerKind, run: seq<byte>)
    ensures AllNormalized(RunTerms(kind, run))
  {
    NormalizeAllNormalizes([run]);
    NormalizeAllNormalizes(Subtokens(run));
  }

  lemma {:induction false} RunsTermsNormalized(kind: TokenizerKind, runs: seq<seq<byte>>, n: nat)
    requires n <= |runs|
    ensures AllNormalized(RunsTerms(kind, runs, n))
  {
    if n > 0 {
      RunsTermsNormalized(kind, runs, n - 1);
      RunTermsNormalized(kind, runs[n - 1]);
      AllNormalizedTogether(RunsTerms(kind, runs, n - 1), RunTerms(kind, runs[n - 1]));
    }
  }

  /** Every term the tokenizer emits passes the reader's check. */
  lemma TokensNormalized(kind: TokenizerKind, text: seq<byte>)
    ensures AllNormalized(Tokens(kind, text))
  {
    RunsTermsNormalized(kind, Runs(text), |Runs(text)|);
  }
}
