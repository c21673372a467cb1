# OrdinalDB: verified models

This project models the parts of OrdinalDB whose correctness depends on more than one function:
the BM25 sidecar file, the storage protocols, the tree-ensemble reranker and two in-memory
structures. Each part is a Dafny module; `dafny verify dfyconfig.toml` checks all of them.

## What is modelled

**The sparse sidecar** (`Tokenizer`, `Bytes`, `SparseFormat`, `SparseCodec`, `SparseReader`,
`SparseWriter`, `SparseSearch`, `SparseEndToEnd`). A builder collects documents, `from_docs` inverts
them, `to_bytes` serializes the index, and `open` validates a byte string before search runs over the
raw bytes. `SparseFormat.Encode` is the reference encoder and `SparseFormat.Describes` says what
the reads of a file return; `SparseCodec` proves the two equivalent for every byte string.
`SparseReader.Open` accepts a file exactly when some well-formed content describes it, so the
format is canonical: content and four header fields determine every byte. `SparseWriter` builds
the unique inverted index of the documents and writes its encoding. `SparseSearch` returns the
first `top_k` rows of a naive scan's ranking. `SparseEndToEnd` joins them: what is searched in the
written file is the BM25 ranking of the documents, with no index in the statement.

**The bundle register** (`BundleNames`, `BundleRegister`, `BackupNames`). Publishing a bundle directory and
recovering it on load are sequences of atomic file-system events. A run is any legal sequence of
events, cut anywhere by a crash. Its value is what was last published; the disk always stands for
that value. Any sequence of writes and recoveries, each of which may fail, is a history of one
register: a crash leaves the value between two of the calls. The names of scratch directories,
backups and generations have their own round trips, and `BackupNames` proves that sorting parsed
backup names is sorting the stamps of the register.

**The adapter store** (`AdapterStore`, `AdapterRoot`, `StoreProtocol`, `GcSafety`, `GcExposure`,
`StoreHealth`, `StoreWitnesses`, `WriterLock`, `GcSelection`, `GcBridge`). `AdapterStore` states what
every open verifies, what each transaction leaves and the invariant all transactions keep.
`AdapterRoot` has the operations with their table loops. `StoreProtocol` interleaves publishers,
patchers, direct callers of `record_generation_gc` and GC drivers of any number of processes, with
each check and each transaction a separate step and a crash possible between any two; a step is
enabled exactly when the source allows it, and what is proved there holds whatever the writers do.
`GcSafety` and `GcExposure` give the exact condition under which no collection removes the active
generation, `StoreHealth` the runs in which the store keeps opening, `StoreWitnesses` three runs in
which it stops. `WriterLock` is the lock itself, with the registry of each process and an OS lock per
open file description. `GcSelection` is the listing, the retention choice and the recovery of an
interrupted GC run; `GcBridge` proves that its view of the ledger and of the listing is the
protocol's.

**The reranker** (`TreeEnsemble`). A depth-bounded search with mutable `visited` and `stack`
arrays accepts a node array exactly when it is a bounded acyclic graph that reaches every node;
the bounded walk then computes the recursive meaning of the tree.

**Ranked lists and ids** (`Ranking`, `Fusion`, `IdMap`). In-place normalization of ranked lists,
reciprocal rank fusion through a hash map, and the id map with swap-remove.

`Floats` keeps an `f32` as its bit pattern: classification, `<` and `total_cmp` are exact, while
`+ - * /`, `max`, `abs`, `ln` and integer conversion are parameters. Results about scores hold
for any deterministic arithmetic.

## Properties the code does not have

Each is stated with the condition under which it holds, and with an input or a step where it fails.

- A written sidecar opens if and only if every term is shorter than 2^32 bytes
  (`SparseWriter.WrittenOpens`, `LongTermDoesNotOpen`): the writer casts term lengths to `u32`
  unchecked, so a longer term is written and cannot be opened.
- Moving the published path aside keeps the register if and only if the bundle verifies under the
  default options (`BundleRegister.MoveAsideKeeps`, `LooseOptionsLoseTheRegister`): a bundle is
  verified under its own options when written, but recovery uses the default ones.
- An open accepts document and metadata tables with rows of inactive ids; they are exact if and
  only if their declared count equals the active id count (`AdapterStore.OpenIsSound`,
  `ExtraDocumentAccepted`).
- A snapshot can be re-opened if and only if its generation id is the active one or has no row
  (`AdapterStore.SnapshotKeepsHealthy`, `RepublishedGenerationIsLost`): the generation count is
  incremented without looking into the table. Otherwise the commit stands and no later open
  succeeds.
- A debris name gives its generation id back if and only if its innermost decoration is a scratch
  tag or it has backup tags only (`BundleNames.DebrisRecoversId`); the comment on the parser
  promises any stack of the two.
- GC recovery deletes before any compare-and-swap, guided by an active path read before the lock. A
  step marks the active path when it publishes a path whose latest GC event is `deleting`, or records
  `deleting` for the path that is active. After a run without such a step, one is dangerous if and
  only if the store could at some stage be opened with another active path
  (`GcExposure.MarkingIsDangerousIff`): then a driver that read it may remove the active generation.
  For given drivers, any step opens a way to that loss if and only if it marks the active path while
  one of them has read, or can now read, another (`GcExposure.LostIffExposed`). The repository's own
  publisher can do so: it numbers the next generation one above the highest directory, so it takes the
  number of an orphan that a driver removed before it died without logging `deleted`
  (`StoreWitnesses.ActiveGenerationRemoved`); a direct record can too (`RecordedGenerationRemoved`).
- An empty store opens if and only if there is no generation directory
  (`StoreHealth.StoreOpensWhen`). A first save that dies between writing its generation and the
  commit leaves a store that does not open, cannot be patched or collected, and admits no snapshot
  but one of that very directory (`StoreHealth.EmptyStoreIsStuck`,
  `StoreWitnesses.CrashBeforeFirstGeneration`); the next save would take the next number.
- A write of a bundle that reports failure has published it if and only if the last thing that
  happened on disk is the publishing rename, so that it is the directory sync after it that failed
  (`BundleRegister.Storage.Replace`, `Storage.Write`; a run in `FailedWriteHasPublished`). The value is
  the old or the new one in every case (`CallsAreAtomic`).
- The posting count in a sidecar header is only bounded by the postings present: a file that differs
  from an accepted one in that field is accepted if and only if the count is at most their number
  (`SparseReader.PostingsCountIsFree`).

Two places where the code and its documentation differ, and the model follows the code: the
comment on `record_generation_gc` says `expected` is checked when provided, but an existing store
rejects `None`; and an empty update list is answered without looking at `expected` at all.

## Model

| member | source | states |
|---|---|---|
| Bytes.PutReads | ordinaldb-hybrid/src/sparse.rs:1505-1544 | an integer is read at an offset exactly when its little-endian bytes stand there, for every width |
| SparseCodec.HeaderIff | ordinaldb-hybrid/src/sparse.rs:1010-1078 | a header parses to a value exactly when the bytes are the encoding of that value: all reserved words zero, every field at its offset |
| SparseCodec.EntryIff | ordinaldb-hybrid/src/sparse.rs:927-948 | a term entry is read at an offset exactly when its 32 bytes stand there |
| SparseCodec.ListsIff | ordinaldb-hybrid/src/sparse.rs:359-365 | the postings section reads back list by list, cell by cell, at the offsets the writer used |
| SparseCodec.TermsIff | ordinaldb-hybrid/src/sparse.rs:356-358 | the term bytes read back term by term at the running cursor |
| SparseCodec.EncodesIffDescribes | ordinaldb-hybrid/src/sparse.rs:318-367 | a byte string is the encoding of a content exactly when its length and every read of it return that content |
| Tokenizer.NormalizeIsExact | ordinaldb-hybrid/src/sparse.rs:1122-1151 | normalization yields terms the reader accepts, and the reader accepts exactly the fixed points of normalization |
| Tokenizer.NormalizeTerm | ordinaldb-hybrid/src/sparse.rs:1122-1143 | the strip loop computes the normalization of the term, `None` for a non-alphanumeric or short one |
| Tokenizer.AsciiAlnumTokens | ordinaldb-hybrid/src/sparse.rs:1106-1120 | the scan with a pending start returns the maximal alphanumeric runs |
| Tokenizer.SubtokensCutAtSplits | ordinaldb-hybrid/src/sparse.rs:1153-1183 | subtokens are the pieces between the camel-case splits, none of them empty, and there are none exactly when no position splits |
| Tokenizer.IdentifierSubtokens | ordinaldb-hybrid/src/sparse.rs:1153-1183 | the split loop returns those pieces |
| Tokenizer.TokenizeText | ordinaldb-hybrid/src/sparse.rs:1089-1104 | the terms of a text, in order, for both tokenizer kinds |
| Tokenizer.TokensNormalized | ordinaldb-hybrid/src/sparse.rs:1089-1104 | every term of every text passes the reader's check |
| SparseReader.ReadRowIds | ordinaldb-hybrid/src/sparse.rs:754-772 | the row-id table and its inverse, or a repeated id in the file |
| SparseReader.ReadPostings | ordinaldb-hybrid/src/sparse.rs:833-864 | the posting loop accepts every valid list that stands there, returns only valid ones and adds exactly their frequencies to the lengths |
| SparseReader.ReadTerm | ordinaldb-hybrid/src/sparse.rs:783-832 | an entry is accepted exactly when it continues both cursors and its term is normalized and after the previous one |
| SparseReader.ReadTerms | ordinaldb-hybrid/src/sparse.rs:774-875 | the term loop reads well-formed content back exactly and accepts nothing else; both cursors end where their sections end |
| SparseReader.CheckDocLens | ordinaldb-hybrid/src/sparse.rs:876-887 | every stored length is compared with the computed one, and the checked total cannot overflow |
| SparseReader.ValidateLayout | ordinaldb-hybrid/src/sparse.rs:659-902 | accepts every well-formed described content and, when it accepts, the index answers for such content |
| SparseReader.Open | ordinaldb-hybrid/src/sparse.rs:393-410 | a file opens exactly when some well-formed content describes it |
| SparseReader.AcceptedIsCanonical | ordinaldb-hybrid/src/sparse.rs:659-902 | an accepted file equals the re-encoding of its content and four free header fields |
| SparseReader.AcceptedOnce | ordinaldb-hybrid/src/sparse.rs:659-902 | an accepted file has one content and one set of fields |
| SparseReader.EncodedIsAccepted | ordinaldb-hybrid/src/sparse.rs:277-368 | encoding well-formed content gives an accepted file |
| SparseReader.PostingsCountIsFree | ordinaldb-hybrid/src/sparse.rs:724-730 | an accepted file with its posting count replaced by n is accepted exactly when n is at most the postings present |
| SparseWriter.SparseIndexBuilder.AddDoc | ordinaldb-hybrid/src/sparse.rs:153-159 | a repeated row id is rejected and changes nothing; otherwise the document is appended |
| SparseWriter.SparseIndexBuilder.AddText | ordinaldb-hybrid/src/sparse.rs:136-138 | the appended document has the terms of the text |
| SparseWriter.SparseIndexBuilder.AddNormalizedTerms | ordinaldb-hybrid/src/sparse.rs:140-151 | the appended document has the terms that normalize |
| SparseWriter.AddCounts | ordinaldb-hybrid/src/sparse.rs:234-242 | one document adds one posting to the list of each of its words and touches no other list; fails exactly when a frequency exceeds `u16` |
| SparseWriter.BuildPostings | ordinaldb-hybrid/src/sparse.rs:211-242 | after all documents the map holds the posting list of every word |
| SparseWriter.SortedKeys | ordinaldb-hybrid/src/sparse.rs:254-260 | map iteration yields the words once each, in byte order |
| SparseWriter.FromDocs | ordinaldb-hybrid/src/sparse.rs:199-275 | the inverted index of the documents with its totals; fails exactly when a document length or term frequency does not fit or a term is empty |
| SparseWriter.PostingsCountFits | ordinaldb-hybrid/src/sparse.rs:254-260 | there are no more postings than words, so the checked count of postings never overflows |
| SparseWriter.IndexUnique | ordinaldb-hybrid/src/sparse.rs:199-275 | the documents determine the index |
| SparseWriter.IndexedDocLens | ordinaldb-hybrid/src/sparse.rs:860-887 | the posting lists account for every word of every document, so the reader's recomputed lengths match |
| SparseWriter.IndexedContentOk | ordinaldb-hybrid/src/sparse.rs:199-275 | the index of a builder's documents is well-formed content once its terms and file length fit |
| SparseWriter.TermEntries | ordinaldb-hybrid/src/sparse.rs:299-312 | the running cursors are the section offsets of each term |
| SparseWriter.CheckedFileLen | ordinaldb-hybrid/src/sparse.rs:278-293 | the checked additions fail exactly when the file length exceeds 64 bits |
| SparseWriter.ToBytes | ordinaldb-hybrid/src/sparse.rs:277-368 | the bytes written are the reference encoding of the index |
| SparseWriter.WriteMmap | ordinaldb-hybrid/src/sparse.rs:161-184 | writing succeeds exactly when the documents fit the format, and gives the encoding of their index |
| SparseWriter.WrittenOpens | ordinaldb-hybrid/src/sparse.rs:348-355 | the written file opens exactly when every term is shorter than 2^32 bytes, and then decodes to exactly what was built |
| SparseWriter.TermsFitIffDocs | ordinaldb-hybrid/src/sparse.rs:348-355 | that condition in terms of the documents added |
| SparseWriter.LongTermDoesNotOpen | ordinaldb-hybrid/src/sparse.rs:348-355 | a document with one term of 2^32 bytes is built and written but not opened |
| SparseSearch.FindTerm | ordinaldb-hybrid/src/sparse.rs:973-988 | binary search over the entry table finds the term exactly when the content has it |
| SparseSearch.DocFreqOfTerm | ordinaldb-hybrid/src/sparse.rs:509-510 | the entry's posting count is the number of documents that contain the term |
| SparseSearch.AddPostings | ordinaldb-hybrid/src/sparse.rs:511-526 | one term adds its contribution to each allowed document that contains it, once, and to no other |
| SparseSearch.ScoreTerms | ordinaldb-hybrid/src/sparse.rs:505-527 | the score map equals the fold over the query terms of a scan that looks at every document |
| SparseSearch.TopSorted | ordinaldb-hybrid/src/sparse.rs:538-543 | partial selection, cut and sort give the first `top_k` of the one ranked listing, whatever order the selection leaves |
| SparseSearch.PrepareAllowlist | ordinaldb-hybrid/src/sparse.rs:472-486 | fails exactly on an unknown id, else the ordinals of the listed rows |
| SparseSearch.Dedupe | ordinaldb-hybrid/src/sparse.rs:1185-1194 | the query terms keep their first occurrences, in order |
| SparseSearch.DedupedDistinct | ordinaldb-hybrid/src/sparse.rs:1185-1194 | no term is left twice, so none is scored twice |
| SparseSearch.DedupedKeeps | ordinaldb-hybrid/src/sparse.rs:1185-1194 | and none is lost |
| SparseSearch.Search | ordinaldb-hybrid/src/sparse.rs:488-544 | the first `top_k` rows, by score then row id, of all allowed documents containing a query term |
| SparseSearch.SearchWithAllowlist | ordinaldb-hybrid/src/sparse.rs:460-470 | the same over the listed rows, or an error exactly on an unknown id |
| SparseSearch.AllowlistFilters | ordinaldb-hybrid/src/sparse.rs:460-544 | the allowlisted ranking is the full ranking, filtered |
| SparseSearch.ScoredIffContains | ordinaldb-hybrid/src/sparse.rs:505-527 | a document is scored exactly when it contains a query term |
| SparseSearch.BuiltFrequencies | ordinaldb-hybrid/src/sparse.rs:199-275 | on a built index the frequencies search uses are those of the documents |
| SparseSearch.AddedTextFindsItself | ordinaldb-hybrid/src/sparse.rs:488-544 | an added text with a non-empty tokenization retrieves its own row when `top_k` covers the corpus |
| SparseEndToEnd.IndexMatchesDocs | ordinaldb-hybrid/src/sparse.rs:488-544 | what search matches in a built index is what BM25 says of the documents: frequencies, document frequencies, lengths and average |
| SparseEndToEnd.AllSharersReturned | ordinaldb-hybrid/src/sparse.rs:488-544 | when `top_k` covers the corpus exactly the documents that share a term with the query are returned |
| SparseEndToEnd.WriteAndOpen | ordinaldb-hybrid/src/sparse.rs:161-184 | writing then opening succeeds exactly when the documents fit and every term is shorter than 2^32 bytes |
| SparseEndToEnd.Roundtrip | ordinaldb-hybrid/src/sparse.rs:161-544 | builder, file, open and search together return the first `top_k` of the BM25 ranking of the documents added |
| BundleNames.CanonicalUndoesScratch | ordinaldb/src/io.rs:768-778 | a stack of scratch decorations is undone exactly when the name is non-empty, undotted and free of the scratch tag |
| BundleNames.TempNamesDoNotStack | ordinaldb/src/io.rs:734-757 | the scratch name of a scratch name has one decoration |
| BundleNames.BackupSuffixRoundTrip | ordinaldb/src/io.rs:489-499 | parsing a formatted backup suffix returns its time and process id |
| BundleNames.GenerationNameParses | ordinaldb-adapter-store/src/lib.rs:2542-2556 | the name of every id from 1 to 10^12 - 1 parses to it |
| BundleNames.ParsedIsGenerationName | ordinaldb-adapter-store/src/lib.rs:2542-2556 | and no other name does |
| BundleNames.DebrisRecoversId | ordinaldb-adapter-store/src/lib.rs:2564-2576 | which decorated generation names give their id back, exactly; none parses as a committed generation |
| BundleNames.DebrisIsNotCommitted | ordinaldb-adapter-store/src/lib.rs:2564-2576 | no name is both debris and committed |
| BundleNames.GenerationNameOrder | ordinaldb-cli/src/main.rs:1899-1913 | generation names sort as their ids do |
| BundleRegister.MoveAsideKeeps | ordinaldb/src/io.rs:355-360 | moving the path to a backup keeps the register exactly when its content verifies under the default options |
| BundleRegister.EventKeepsRegister | ordinaldb/src/io.rs:335-408 | every event but a publication keeps the register under that condition, despite stale and half-deleted backups |
| BundleRegister.RunIsRegister | ordinaldb/src/io.rs:150-408 | after any run, cut anywhere, the disk stands for the last published bundle |
| BundleRegister.CallIsAtomic | ordinaldb/src/io.rs:150-174 | a crash inside a call that publishes at most once leaves the value before it or the value after it |
| BundleRegister.CallsAreAtomic | ordinaldb/src/io.rs:150-408 | wherever a crash cuts a sequence of writes and recoveries, the disk stands for the value after the calls that had returned or after one more, and a new process can start on it |
| BundleRegister.Candidates | ordinaldb/src/io.rs:431-482 | all backups, newest first by time then process id |
| BackupNames.CandidateNames | ordinaldb/src/io.rs:431-482 | the directories with the backup prefix, newest first by parsed time and process id, unparseable names by modification time, then by name |
| BackupNames.NameOrderIsStampOrder | ordinaldb/src/io.rs:439-446 | stamped names compare as their stamps do and name one stamp each |
| BackupNames.NamesAreChronological | ordinaldb/src/io.rs:431-482 | the sorted names are, one by one, the names of the backups in the register's order |
| BackupNames.TextOrderIsNotChronological | ordinaldb/src/io.rs:439-446 | the names themselves do not sort by age |
| BundleRegister.Storage.WriteContents | ordinaldb/src/io.rs:176-239 | files are written one by one, any may fail; success leaves exactly the given files |
| BundleRegister.Storage.Replace | ordinaldb/src/io.rs:335-382 | success publishes the scratch content once; a failure has published it exactly when the publishing rename is the last event, its directory sync having failed; every step is a legal event |
| BundleRegister.Storage.Write | ordinaldb/src/io.rs:150-174 | at most one publication, one on success, and on failure exactly when the publishing rename is the last event; whenever there is one the path holds the given files and they verified |
| BundleRegister.FailedWriteHasPublished | ordinaldb/src/io.rs:363-365 | a legal run that stops at the failing sync right after the publishing rename, with the register changed |
| BundleRegister.Storage.Recover | ordinaldb/src/io.rs:384-408 | recovery keeps the register even when it fails after its rename; when it succeeds the path holds the register's value whenever there is one |
| BundleRegister.Storage.Serve | ordinaldb/src/io.rs:150-408 | one call as a step of the register: a successful write sets the value, a failed one may have set it, a recovery keeps it |
| BundleRegister.Storage.ServeAll | ordinaldb/src/io.rs:150-408 | any sequence of calls is a history of such steps |
| BundleRegister.LooseOptionsLoseTheRegister | ordinaldb/src/io.rs:320-327 | with looser write options an interrupted write brings an older bundle back |
| WriterLock.StepKeepsInv | ordinaldb-adapter-store/src/lib.rs:2837-2966 | every step of every thread, and every crash, keeps registry, descriptors and OS locks consistent |
| WriterLock.GuardsExclude | ordinaldb-adapter-store/src/lib.rs:2837-2903 | at most one live guard per root over every interleaving of threads in any number of processes |
| WriterLock.GuardUndisturbed | ordinaldb-adapter-store/src/lib.rs:2837-2903 | a live guard keeps its registration and its OS lock through every step of others |
| WriterLock.RollBackIsOwn | ordinaldb-adapter-store/src/lib.rs:2837-2867 | a failed acquire rolls back only its own reservation |
| AdapterStore.OpenIsSound | ordinaldb-adapter-store/src/lib.rs:1655-1768 | acceptance makes the id tables exact, and the document and metadata tables exactly when their counts equal the active id count |
| AdapterStore.ExtraDocumentAccepted | ordinaldb-adapter-store/src/lib.rs:1738-1766 | an accepted store may hold a document row of an inactive id |
| AdapterStore.HealthyOpens | ordinaldb-adapter-store/src/lib.rs:1062-1102 | a store that keeps the invariant opens exactly when the disk says what its manifest recorded |
| AdapterStore.NeverEmptyAgain | ordinaldb-adapter-store/src/lib.rs:2766-2809 | a store with an active generation rejects an empty_lazy snapshot |
| AdapterStore.DeclaredIsTrue | ordinaldb-adapter-store/src/lib.rs:979-989 | the declared generation count is the true one exactly when the id is the active one or has no row |
| AdapterStore.SnapshotKeepsHealthy | ordinaldb-adapter-store/src/lib.rs:949-1036 | a snapshot keeps the invariant and re-opens exactly under that condition; otherwise no later open succeeds |
| AdapterStore.RepublishedGenerationIsLost | ordinaldb-adapter-store/src/lib.rs:979-989 | publishing generations 1, 2 and 1 again passes every check and leaves a store that never opens |
| AdapterStore.PatchedRowsExpand | ordinaldb-adapter-store/src/lib.rs:695-706 | writing only the patched rows leaves the table the expansion of the patched payload |
| AdapterStore.PatchKeepsHealthy | ordinaldb-adapter-store/src/lib.rs:641-729 | a metadata patch keeps the invariant and re-opens |
| AdapterStore.GcRowsNumbered | ordinaldb-adapter-store/src/lib.rs:1190-1201 | queue rows are numbered on without gap and old rows stay |
| AdapterStore.GcKeepsHealthy | ordinaldb-adapter-store/src/lib.rs:1150-1222 | a GC record keeps the invariant and re-opens |
| AdapterRoot.ParsePayloads | ordinaldb-adapter-store/src/lib.rs:1856-1894 | the duplicate loops accept exactly consistent id, slot, document and metadata maps |
| AdapterRoot.VerifyRecords | ordinaldb-adapter-store/src/lib.rs:1285-1337 | the counting loop accepts exactly one active row, the current one, or none for an empty store |
| AdapterRoot.VerifyTables | ordinaldb-adapter-store/src/lib.rs:1691-1768 | the comparison of the five tables with the payloads, documents and metadata one way only |
| AdapterRoot.OpenVerified | ordinaldb-adapter-store/src/lib.rs:1062-1102 | the checks in their order decide the acceptance predicate |
| AdapterRoot.WriteRows | ordinaldb-adapter-store/src/lib.rs:1427-1453 | retain and insert leave exactly one row per active id |
| AdapterRoot.WriteGenerations | ordinaldb-adapter-store/src/lib.rs:1454-1473 | every other row ends retired, once, and the new one is active |
| AdapterRoot.SnapshotTransaction | ordinaldb-adapter-store/src/lib.rs:1379-1499 | the whole database a snapshot transaction leaves |
| AdapterRoot.Root.WriteSnapshot | ordinaldb-adapter-store/src/lib.rs:949-1036 | commits exactly when its checks pass, changes nothing otherwise, and reports the verified re-open |
| AdapterRoot.Root.PatchMetadata | ordinaldb-adapter-store/src/lib.rs:641-729 | the same for a metadata patch |
| AdapterRoot.Root.RecordGc | ordinaldb-adapter-store/src/lib.rs:1150-1222 | the same for GC records; an empty list only opens the store |
| StoreProtocol.StepKeepsInv | ordinaldb-adapter-store/src/lib.rs:527-809 | every interleaved step that the source allows, direct GC records included, keeps the lock discipline, the checked transactions, what each GC driver relies on, and the commit log |
| StoreProtocol.CheckedGcJob | ordinaldb-cli/src/main.rs:485-516 | the compare-and-swap of each GC commit re-establishes what the driver read before the lock |
| StoreProtocol.RemovalIsMarked | ordinaldb-cli/src/main.rs:465-589 | in every run nothing is removed unless its latest event is `deleting`, and what a driver removes as selected is not the active generation |
| StoreProtocol.NoLostUpdates | ordinaldb-adapter-store/src/lib.rs:1125-1148 | in every run each commit replaced the state its revision names; the sequence counts commits; identity and origin never change |
| StoreProtocol.OneCommitPerRevision | ordinaldb-adapter-store/src/lib.rs:1125-1148 | in every run two commits presenting the same revision cannot both succeed |
| StoreProtocol.StaysActive | ordinaldb-adapter-store/src/lib.rs:2766-2809 | in every run a store with an active generation never becomes empty again |
| GcSafety.SnapshotMarks | ordinaldb-adapter-store/src/lib.rs:949-1036 | a snapshot leaves its active path marked `deleting` exactly when it takes a marked path |
| GcSafety.GcMarks | ordinaldb-cli/src/main.rs:485-516 | no commit of a driver marks or unmarks the active path |
| GcSafety.RecordMarks | ordinaldb-adapter-store/src/lib.rs:1150-1222 | a direct record leaves the active path marked exactly when its last update for it is `deleting`, or it was marked and is not mentioned |
| GcSafety.GcIsSafe | ordinaldb-cli/src/main.rs:465-589 | as long as no step marks the active path while a driver may miss that it is active, no step removes the active directory |
| GcSafety.EmptyStoreHasNoMarks | ordinaldb-adapter-store/src/lib.rs:2766-2809 | as long as nobody records a generation on an empty store, its ledger names none, so its first generation never takes a marked path |
| GcExposure.ExposedIsRemoved | ordinaldb-cli/src/main.rs:532-562 | from every state in which a step exposes the active generation there is a continuation in which a driver removes it and the store no longer opens |
| GcExposure.TakenPathIsRemoved | ordinaldb-cli/src/main.rs:532-562 | over a store with an active generation, taking another marked path always is such a step: a driver that reads before the commit removes the directory after it |
| GcExposure.LostIffExposed | ordinaldb-cli/src/main.rs:532-562 | after a disciplined run and for every kind of step, such a continuation exists if and only if the step marks the active path while a driver goes by another one, or can now read another one |
| GcExposure.MarkingIsDangerousIff | ordinaldb-cli/src/main.rs:532-562 | after a prudent run a marking step, a publication or a direct record, may lead to the loss, perhaps with one more reader, if and only if the store opened with another active path at some stage |
| StoreHealth.StoreOpensWhen | ordinaldb-adapter-store/src/lib.rs:1062-1102 | in every state of every careful run, direct records included, the store keeps its invariant; with an active generation it opens, without one it opens exactly when there is no generation directory |
| StoreHealth.OverwrittenActive | ordinaldb-adapter-store/src/lib.rs:1062-1102 | writing at the active path keeps the store open exactly when it writes what stands there |
| StoreHealth.EmptyStoreIsStuck | ordinaldb-adapter-store/src/lib.rs:2766-2809 | an empty store with a generation directory does not open and admits only a snapshot of that directory |
| StoreHealth.NamingRuleIsCareful | ordinaldb-python/python/ordinaldb/adapters/_common.py:1569-1579 | publishers that take the next number use fresh ids and spare the active directory, in every run in which no step exposes the active generation |
| StoreWitnesses.CrashBeforeFirstGeneration | ordinaldb-adapter-store/src/lib.rs:2766-2809 | a run by the naming rule that ends in a store which does not open, without any process misbehaving |
| StoreWitnesses.ActiveGenerationRemoved | ordinaldb-cli/src/main.rs:532-562 | a run by the naming rule that reaches the failing publication, and its continuation |
| StoreWitnesses.RecordedGenerationRemoved | ordinaldb-adapter-store/src/lib.rs:782-809 | a run by the naming rule after which a direct record for the active generation passes its checks and may lose it |
| GcBridge.LatestAgrees | ordinaldb-cli/src/main.rs:591-597 | the state of the highest row of a path is the state a driver finds for the path's string |
| GcBridge.RecoveryAgrees | ordinaldb-cli/src/main.rs:537-541 | the protocol lets recovery remove exactly what the recovery pass takes for interrupted |
| GcBridge.RecordAppends | ordinaldb-adapter-store/src/lib.rs:1190-1201 | a record appends its updates to the events in order |
| GcBridge.ListingAgrees | ordinaldb-cli/src/main.rs:1780-1810 | the protocol lets a driver select exactly what the directory summary lists |
| GcSelection.Summarize | ordinaldb-cli/src/main.rs:1780-1820 | the committed generations in order, without the active one, and the debris |
| GcSelection.PlanRun | ordinaldb-cli/src/main.rs:417-449 | the active generation and pinned paths are never selected, and everything else listed is kept or selected |
| GcSelection.Select | ordinaldb-cli/src/main.rs:424-449 | the budget loop keeps pinned generations and, of the others, those with fewer than `retain` unpinned ones above them |
| GcSelection.HighestAreKept | ordinaldb-cli/src/main.rs:424-449 | every unpinned generation kept has a higher id than every one reclaimed |
| GcSelection.BudgetIsUsed | ordinaldb-cli/src/main.rs:428-439 | exactly `retain` unpinned generations are kept, or all of them when there are fewer |
| GcSelection.SelectionPartitions | ordinaldb-cli/src/main.rs:424-449 | kept and reclaimable generations partition the listed ones, and no pinned one is reclaimed |
| GcSelection.LatestStates | ordinaldb-cli/src/main.rs:591-597 | the map holds the last state recorded for each path |
| GcSelection.GcRoot.FinishDeletions | ordinaldb-cli/src/main.rs:537-573 | only interrupted, unpinned, non-active directories go; a stray file at such a path is an error |
| GcSelection.GcRoot.Recover | ordinaldb-cli/src/main.rs:532-589 | after success no path but the active one and pinned directories is in state `deleting` |
| GcSelection.GcRoot.MarkAndDelete | ordinaldb-cli/src/main.rs:485-504 | a path is removed only after its `deleting` event is in the ledger, wherever the run stops |
| GcSelection.GcRoot.Collect | ordinaldb-cli/src/main.rs:465-517 | after a run that stops anywhere only selected or interrupted paths are gone, each with a `deleting` event; after success every selected path is gone and logged `deleted` |
| GcSelection.GcRoot.RecoverTwice | ordinaldb-cli/src/main.rs:532-589 | after a successful pass a second one succeeds and removes and logs nothing more |
| TreeEnsemble.AcceptsIsExact | ordinaldb-hybrid/src/ltr_model.rs:501-528 | the search accepts exactly when every root path is repeat-free and within the depth limit |
| TreeEnsemble.ValidateReachableTree | ordinaldb-hybrid/src/ltr_model.rs:501-528 | on success `stack` is restored and `visited` has gained exactly the reachable nodes; it terminates on the remaining depth |
| TreeEnsemble.CompileTree | ordinaldb-hybrid/src/ltr_model.rs:395-443 | accepts exactly non-empty, size-bounded, well-formed arrays that form a bounded acyclic graph reaching every node |
| TreeEnsemble.CompiledInRange | ordinaldb-hybrid/src/ltr_model.rs:445-498 | compilation is unambiguous and leaves child and feature indices in range |
| TreeEnsemble.DepthLimitRulesOutCycles | ordinaldb-hybrid/src/ltr_model.rs:501-528 | the depth limit alone already excludes cycles |
| TreeEnsemble.ScoreTree | ordinaldb-hybrid/src/ltr_model.rs:530-552 | the bounded walk equals the recursive meaning of the tree and never runs out of visits |
| TreeEnsemble.ScoreFeatures | ordinaldb-hybrid/src/ltr_model.rs:235-260 | fails exactly on a wrong length, a non-finite feature or a non-finite sum |
| IdMap.InverseTablesHaveOneSize | ordinaldb/src/id_map.rs:91-95 | inverse tables have one size and no repeated id |
| IdMap.SwapRemovedResolve | ordinaldb/src/id_map.rs:258-281 | through swap-remove every surviving id still resolves to its own vector |
| IdMap.IdMapIndex.FirstClash | ordinaldb/src/id_map.rs:227-236 | the batch check reports the first id that is present already or repeated |
| IdMap.IdMapIndex.AddWithIds2d | ordinaldb/src/id_map.rs:203-250 | a batch goes in whole, exactly when admissible, or changes nothing |
| IdMap.BatchAt | ordinaldb/src/id_map.rs:244-247 | in an admitted batch the k-th id gets the k-th row |
| IdMap.IdMapIndex.Remove | ordinaldb/src/id_map.rs:258-281 | removes the id from the abstract map and nothing else |
| IdMap.IdMapIndex.Replay | ordinaldb/src/id_map.rs:203-281 | any sequence of adds and removes refines the map from id to vector |
| IdMap.IdMapIndex.CandidateSlots | ordinaldb/src/id_map.rs:408-420 | sorted distinct slots of exactly the listed ids, or an error exactly on an unknown id or a slot beyond 32 bits |
| IdMap.IdMapIndex.ScoresIds | ordinaldb/src/id_map.rs:422-450 | padding is dropped from scores and ids together; fails exactly on a slot out of range |
| IdMap.FromLoadedParts | ordinaldb/src/id_map.rs:787-812 | accepts exactly distinct ids, one per row, and builds the inverse table |
| Ranking.RankedUnique | ordinaldb-hybrid/src/fusion.rs:379-383 | a set of rows has one ranked listing |
| Ranking.TopRows | ordinaldb-hybrid/src/fusion.rs:299-304 | a cut keeps as many rows as it may, each before every row cut off |
| Fusion.NormalFormKeepsBest | ordinaldb-hybrid/src/fusion.rs:351-364 | the normal form has the same ids and each id's best row |
| Fusion.NormalFormIgnoresOrder | ordinaldb-hybrid/src/fusion.rs:351-364 | it does not depend on the order of the input |
| Fusion.NormalFormIdempotent | ordinaldb-hybrid/src/fusion.rs:351-364 | normalizing twice is normalizing once |
| Fusion.NormalFormFixedPoint | ordinaldb-hybrid/src/fusion.rs:385-417 | a list is its own normal form exactly when it is sorted without repeated ids |
| Fusion.CompactRankedSlice | ordinaldb-hybrid/src/fusion.rs:353-364 | the read and write indices keep the first row of each id |
| Fusion.NormalizeRankedList | ordinaldb-hybrid/src/fusion.rs:351-364 | in place, the prefix becomes the normal form; a non-finite score leaves the list alone |
| Fusion.ValidateSortedRankedSlice | ordinaldb-hybrid/src/fusion.rs:385-417 | accepts exactly finite lists that are their own normal form |
| Fusion.FromOffsetsHits | ordinaldb-hybrid/src/fusion.rs:35-50 | normalizes every window of a well-shaped batch, or fails exactly on bad offsets or scores |
| Fusion.FromSortedOffsetsHits | ordinaldb-hybrid/src/fusion.rs:52-59 | accepts exactly batches whose windows are in normal form |
| Fusion.AddRrfSource | ordinaldb-hybrid/src/fusion.rs:326-349 | each id of the window gets one term of this source, at rank position plus one, independent of map order |
| Fusion.AccumHoldsFusedRows | ordinaldb-hybrid/src/fusion.rs:273-298 | after both sources the map holds exactly the union of the windows with their fused scores |
| Fusion.FuseQuery | ordinaldb-hybrid/src/fusion.rs:272-307 | one query returns the best `top_k` of the ranked union |
| Fusion.RrfFuseBatch | ordinaldb-hybrid/src/fusion.rs:255-309 | all queries, with monotone offsets; fails exactly on a bad configuration or unequal query counts |

## Left out

- SparseWriter.WrittenOpens: assumes of the `f32` arithmetic that an average of lengths is finite, has the sign of its total and is within one epsilon of itself; rounding itself is not modelled.
- Allocation failures (`try_reserve`), which can reject an input the model accepts.
- UTF-8: texts and terms are byte strings; a term that is not UTF-8 is not normalized and is rejected as such.
- The manifest binding of a sidecar to its bundle, batch search (one search per query) and the `ids.bin` sidecar, which has the same shape as the sparse format and is simpler.
- BundleRegister.Storage.Recover: takes every backup to be stamped, and does not reject symlinks; `BackupNames.CandidateNames` also ranks names that do not parse.
- Concurrent writers of one bundle: the clock stamps are assumed to increase and each bundle to have one writer.
- SHA-256, redb, JSON parsing, fsync and Windows retry loops; a generation directory is represented by what verification says about it.
- The `pending_batches` and `tombstones` tables, which no operation writes, and time stamps.
- WriterLock.GuardsExclude: the check that a lock is held by the current process consults only the registry, so exclusion is claimed for guards, with the OS lock per open file description.
- GcSelection.Select: the final sort of the reported path lists, and that one GC run always completes.
- GcBridge.LatestAgrees: is about generation ids of up to twelve digits and debris that has no generation's name; the protocol itself does not bound ids.
- AdapterStore.GcKeepsHealthy: a reason counts as blank when it has only ASCII white space; Unicode white space is not modelled.
- StoreHealth.StoreOpensWhen: is about runs in which publishers use fresh ids, write nothing else at the active path, and no step exposes the active generation; `SnapshotKeepsHealthy`, `OverwrittenActive` and `LostIffExposed` show that each of the three is needed.
- GcSafety.EmptyStoreHasNoMarks: is about runs in which nobody records a generation on an empty store, since a direct record may; `LostIffExposed` covers the other runs.
- GcExposure.TakenPathIsRemoved: asks for a store with an active generation; over an empty store whose ledger names the generation it needs a driver that has read the store before, which `LostIffExposed` decides.
- StoreProtocol.RemovalIsMarked: the ledger of the model names generations and entries of `vectors/`; `record_generation_gc` takes any other relative path too, and a driver then stops with an error.
- StoreProtocol.StepKeepsInv: the machine is a relation between states rather than methods, because its steps interleave; the operations it uses are methods of `AdapterRoot.Root` and `GcSelection.GcRoot`.
- WriterLock.StepKeepsInv: likewise a relation between states; the registry and the guards are values of its world.
- LTR model loading, feature caches, Python bindings, command-line reports and framework adapters.
