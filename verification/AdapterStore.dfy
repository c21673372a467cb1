/** The adapter control plane: one database whose commits are atomic transactions, verified
    against itself and against the generation directories on every open. */
module AdapterStore {
  import opened Wrappers

  /** `index.odb` or `vectors/g{id:012}.odb`. */
  datatype GenPath = Legacy | Generation(id: nat)

  /** What the manifest pipeline says about a generation directory that verifies. */
  datatype GenInfo = GenInfo(bits: nat, dim: nat, vectorCount: nat, sha256: nat, sizeBytes: nat)

  /** The generation directories on disk; `None` is a directory that does not verify. */
  type Dirs = map<GenPath, Option<GenInfo>>

  /** The four payload documents, parsed. */
  datatype Payloads = Payloads(adapterName: string, bits: nat, dim: Option<nat>, emptyLazy: bool, indexPath: GenPath,
                               stringToU64: map<string, u64>, u64ToSlot: map<u64, nat>,
                               documents: map<string, string>, metadata: map<string, string>, nextU64Id: u64)

  datatype Origin = Created | ImportedLegacyJson | UpgradedSchema

  datatype Counts = Counts(stringToU64: nat, u64ToString: nat, u64ToSlot: nat, documents: nat, metadata: nat,
                           generations: nat, gcQueue: nat, audit: nat)

  datatype Manifest = Manifest(storeUuid: nat, adapterName: string, sequence: nat, origin: Origin,
                               bits: nat, dim: Option<nat>, emptyLazy: bool, activeId: nat,
                               activePath: Option<GenPath>, sha256: Option<nat>, sizeBytes: Option<nat>,
                               vectorCount: nat, activeIdCount: nat, nextU64Id: u64, counts: Counts)

  datatype RowState = Active | Retired(bySequence: nat)

  datatype GenerationRow = GenerationRow(id: nat, path: GenPath, state: RowState)

  datatype GcPath = Bundle(path: GenPath) | Debris(name: string)

  datatype GcState = GcActive | GcRetired | Reclaimable | Deleting | Deleted

  datatype GcUpdate = GcUpdate(path: GcPath, state: GcState, reason: string)

  datatype AuditEvent = SnapshotWritten(id: nat) | MetadataPatched(count: nat) | GcRecorded(count: nat)

  datatype Db = Db(manifest: Manifest, payloads: Payloads,
                   stringToU64: map<string, u64>, u64ToString: map<u64, string>, u64ToSlot: map<u64, nat>,
                   documents: map<u64, string>, metadata: map<u64, string>,
                   generations: map<nat, GenerationRow>, gcQueue: map<nat, GcUpdate>, audit: map<nat, AuditEvent>)

  function GenId(p: GenPath): nat {
    match p
    case Legacy => 1
    case Generation(id) => id
  }

  // ----- Payloads -----

  ghost predicate Injective(ids: map<string, u64>) {
    forall a, b :: a in ids && b in ids && ids[a] == ids[b] ==> a == b
  }

  ghost predicate DistinctSlots(slots: map<u64, nat>) {
    forall a, b :: a in slots && b in slots && slots[a] == slots[b] ==> a == b
  }

  /** `ParsedPayloads::validate_maps` */
  ghost predicate MapsOk(p: Payloads) {
    && p.documents.Keys == p.stringToU64.Keys && p.metadata.Keys == p.stringToU64.Keys
    && "" !in p.stringToU64 && Injective(p.stringToU64)
    && (forall s :: s in p.stringToU64 ==> p.stringToU64[s] < p.nextU64Id)
    && p.u64ToSlot.Keys == p.stringToU64.Values && DistinctSlots(p.u64ToSlot)
  }

  /** `ParsedPayloads::parse` */
  ghost predicate PayloadsOk(p: Payloads) {
    && p.bits in {1, 2, 4} && (p.dim.Some? ==> p.dim.value > 0) && MapsOk(p)
    && (p.indexPath.Generation? ==> p.indexPath.id > 0)
  }

  // ----- Generations -----

  datatype Checkpoint = Checkpoint(id: nat, path: Option<GenPath>, emptyLazy: bool, bits: nat, dim: nat,
                                   vectorCount: nat, sha256: Option<nat>, sizeBytes: Option<nat>)

  /** `reject_empty_lazy_vector_artifacts`: nothing with a generation's name, except a prepared one. */
  predicate NoArtifacts(dirs: Dirs, allowed: Option<GenPath>) {
    forall g :: g in dirs ==> Some(g) == allowed
  }

  /** `active_generation_checkpoint` */
  function CheckpointOf(dirs: Dirs, p: Payloads, allowed: Option<GenPath>): Result<Checkpoint> {
    if p.emptyLazy then
      if NoArtifacts(dirs, allowed) then Ok(Checkpoint(0, None, true, p.bits, 0, 0, None, None)) else Err
    else if p.indexPath in dirs && dirs[p.indexPath].Some? then
      var i := dirs[p.indexPath].value;
      Ok(Checkpoint(GenId(p.indexPath), Some(p.indexPath), false, i.bits, i.dim, i.vectorCount, Some(i.sha256),
                    Some(i.sizeBytes)))
    else Err
  }

  /** `validate_against_generation` */
  predicate FitsGeneration(p: Payloads, g: Checkpoint) {
    && p.emptyLazy == g.emptyLazy
    && if p.emptyLazy then
         p.dim.None? && |p.stringToU64| == 0 && |p.u64ToSlot| == 0 && |p.documents| == 0 && |p.metadata| == 0
       else
         && Some(p.indexPath) == g.path && p.bits == g.bits && p.dim == Some(g.dim)
         && |p.stringToU64| == g.vectorCount && |p.u64ToSlot| == g.vectorCount
         && forall u :: u in p.u64ToSlot ==> p.u64ToSlot[u] < g.vectorCount
  }

  // ----- What every open verifies -----

  /** `verify_manifest_payloads` */
  predicate ManifestMatchesPayloads(m: Manifest, p: Payloads) {
    && m.adapterName == p.adapterName && m.bits == p.bits && m.dim == p.dim && m.emptyLazy == p.emptyLazy
    && m.activeIdCount == |p.stringToU64| && m.nextU64Id == p.nextU64Id
  }

  /** `verify_table_counts` */
  predicate CountsMatch(db: Db) {
    db.manifest.counts == Counts(|db.stringToU64|, |db.u64ToString|, |db.u64ToSlot|, |db.documents|, |db.metadata|,
                                 |db.generations|, |db.gcQueue|, |db.audit|)
  }

  ghost predicate IsReverse(table: map<u64, string>, ids: map<string, u64>) {
    && (forall s :: s in ids ==> ids[s] in table && table[ids[s]] == s)
    && (forall u :: u in table ==> table[u] in ids && ids[table[u]] == u)
  }

  /** One direction only: rows of ids that are not active are not looked for. */
  ghost predicate Covers(table: map<u64, string>, ids: map<string, u64>, values: map<string, string>) {
    forall s :: s in values ==> s in ids && ids[s] in table && table[ids[s]] == values[s]
  }

  /** `verify_tables_match_payloads` */
  ghost predicate TablesMatchPayloads(db: Db) {
    && db.stringToU64 == db.payloads.stringToU64
    && IsReverse(db.u64ToString, db.payloads.stringToU64)
    && db.u64ToSlot == db.payloads.u64ToSlot
    && Covers(db.documents, db.payloads.stringToU64, db.payloads.documents)
    && Covers(db.metadata, db.payloads.stringToU64, db.payloads.metadata)
  }

  /** `verify_generation_records`: exactly one active row, the current one, or none when empty. */
  ghost predicate RecordsOk(rows: map<nat, GenerationRow>, g: Checkpoint) {
    && (forall id :: id in rows ==> RecordOk(rows[id], id, g))
    && if g.emptyLazy then forall id :: id in rows ==> !rows[id].state.Active?
       else g.id in rows && rows[g.id].state.Active?
  }

  predicate RecordOk(row: GenerationRow, id: nat, g: Checkpoint) {
    && row.id == id
    && if row.state.Active? then id == g.id && Some(row.path) == g.path else id != g.id
  }

  /** `verify_manifest_generation` */
  predicate ManifestMatchesGeneration(m: Manifest, g: Checkpoint) {
    && m.activeId == g.id && m.activePath == g.path && m.vectorCount == g.vectorCount
    && if g.emptyLazy then m.emptyLazy
       else m.sha256 == g.sha256 && m.sizeBytes == g.sizeBytes
  }

  /** The checks of an open, in its order. */
  datatype Check =
    | PayloadCheck | ManifestCheck | CountCheck | CheckpointCheck
    | TableCheck | RecordCheck | FitCheck | GenerationCheck

  ghost predicate Passes(db: Db, dirs: Dirs, allowed: Option<GenPath>, check: Check) {
    var g := CheckpointOf(dirs, db.payloads, allowed);
    match check
    case PayloadCheck => PayloadsOk(db.payloads)
    case ManifestCheck => ManifestMatchesPayloads(db.manifest, db.payloads)
    case CountCheck => CountsMatch(db)
    case CheckpointCheck => g.Ok?
    case TableCheck => TablesMatchPayloads(db)
    case RecordCheck => g.Ok? && RecordsOk(db.generations, g.value)
    case FitCheck => g.Ok? && FitsGeneration(db.payloads, g.value)
    case GenerationCheck => g.Ok? && ManifestMatchesGeneration(db.manifest, g.value)
  }

  /** `open_verified_at_store_file` */
  ghost predicate OpenOk(db: Db, dirs: Dirs, allowed: Option<GenPath>) {
    forall check: Check :: Passes(db, dirs, allowed, check)
  }

  lemma OpenIs(db: Db, dirs: Dirs, allowed: Option<GenPath>)
    ensures var g := CheckpointOf(dirs, db.payloads, allowed);
            OpenOk(db, dirs, allowed) <==> (
              && PayloadsOk(db.payloads) && ManifestMatchesPayloads(db.manifest, db.payloads) && CountsMatch(db)
              && g.Ok? && TablesMatchPayloads(db) && RecordsOk(db.generations, g.value)
              && FitsGeneration(db.payloads, g.value) && ManifestMatchesGeneration(db.manifest, g.value))
  {
    if OpenOk(db, dirs, allowed) {
      assert Passes(db, dirs, allowed, PayloadCheck) && Passes(db, dirs, allowed, ManifestCheck);
      assert Passes(db, dirs, allowed, CountCheck) && Passes(db, dirs, allowed, CheckpointCheck);
      assert Passes(db, dirs, allowed, TableCheck) && Passes(db, dirs, allowed, RecordCheck);
      assert Passes(db, dirs, allowed, FitCheck) && Passes(db, dirs, allowed, GenerationCheck);
    }
  }

  // ----- Acceptance is sound -----

  ghost function IdsOf(p: Payloads): set<u64> {
    set s | s in p.stringToU64 :: p.stringToU64[s]
  }

  /** Exactly the expansion of the payload: a row for every active id and no other. */
  ghost predicate Expands(table: map<u64, string>, p: Payloads, values: map<string, string>) {
    Covers(table, p.stringToU64, values) && table.Keys == IdsOf(p)
  }

  lemma {:induction false} InjectiveSize(ids: map<string, u64>, keys: set<string>)
    requires Injective(ids) && keys <= ids.Keys
    ensures |set s | s in keys :: ids[s]| == |keys|
  {
    var image := set s | s in keys :: ids[s];
    if keys == {} {
      assert image == {};
    } else {
      var k :| k in keys;
      InjectiveSize(ids, keys - {k});
      assert image == (set s | s in keys - {k} :: ids[s]) + {ids[k]};
    }
  }

  lemma IdsSize(p: Payloads)
    requires Injective(p.stringToU64)
    ensures |IdsOf(p)| == |p.stringToU64|
  {
    InjectiveSize(p.stringToU64, p.stringToU64.Keys);
    assert IdsOf(p) == set s | s in p.stringToU64.Keys :: p.stringToU64[s];
  }

  lemma SubsetOfSameSize<T>(a: set<T>, b: set<T>)
    requires a <= b && |a| == |b|
    ensures a == b
  {
    if a != b {
      var x :| x in b && x !in a;
      assert a <= b - {x};
      SubsetSize(a, b - {x});
      assert false;
    }
  }

  lemma {:induction false} SubsetSize<T>(a: set<T>, b: set<T>)
    requires a <= b
    ensures |a| <= |b|
  {
    if a != {} {
      var x :| x in a;
      SubsetSize(a - {x}, b - {x});
    }
  }

  lemma CoveringTableExact(table: map<u64, string>, p: Payloads, values: map<string, string>)
    requires Injective(p.stringToU64) && values.Keys == p.stringToU64.Keys && Covers(table, p.stringToU64, values)
    ensures Expands(table, p, values) <==> |table| == |p.stringToU64|
  {
    IdsSize(p);
    forall u | u in IdsOf(p) ensures u in table {
      var s :| s in p.stringToU64 && p.stringToU64[s] == u;
      assert s in values;
    }
    assert |table| == |table.Keys|;
    if |table| == |p.stringToU64| {
      SubsetOfSameSize(IdsOf(p), table.Keys);
    }
  }

  /** Acceptance makes the id tables exact. The document and metadata tables are exact if and
      only if their declared row counts equal the active id count, which the open never checks. */
  lemma OpenIsSound(db: Db, dirs: Dirs, allowed: Option<GenPath>)
    requires OpenOk(db, dirs, allowed)
    ensures db.stringToU64 == db.payloads.stringToU64 && db.u64ToSlot == db.payloads.u64ToSlot
    ensures IsReverse(db.u64ToString, db.payloads.stringToU64) && db.u64ToString.Keys == IdsOf(db.payloads)
    ensures Expands(db.documents, db.payloads, db.payloads.documents) <==>
      db.manifest.counts.documents == db.manifest.activeIdCount
    ensures Expands(db.metadata, db.payloads, db.payloads.metadata) <==>
      db.manifest.counts.metadata == db.manifest.activeIdCount
  {
    OpenIs(db, dirs, allowed);
    CoveringTableExact(db.documents, db.payloads, db.payloads.documents);
    CoveringTableExact(db.metadata, db.payloads, db.payloads.metadata);
    ReverseKeys(db.u64ToString, db.payloads);
  }

  lemma ReverseKeys(table: map<u64, string>, p: Payloads)
    requires IsReverse(table, p.stringToU64)
    ensures table.Keys == IdsOf(p)
  {
    forall u ensures u in table <==> u in IdsOf(p) {
      if u in table {
        assert table[u] in p.stringToU64;
      }
    }
  }

  lemma ExtraRow(db: Db, u: u64, row: string, extra: Db)
    requires u !in db.documents && TablesMatchPayloads(db) && CountsMatch(db)
    requires extra == db.(documents := db.documents[u := row],
                          manifest := db.manifest.(counts := db.manifest.counts.(documents := |db.documents| + 1)))
    ensures TablesMatchPayloads(extra) && CountsMatch(extra)
  {
    assert extra.documents.Keys == db.documents.Keys + {u};
    assert |extra.documents| == |extra.documents.Keys|;
  }

  /** An accepted store may hold a document row of an id that is not active. */
  lemma ExtraDocumentAccepted(db: Db, dirs: Dirs, allowed: Option<GenPath>, u: u64, row: string)
    requires OpenOk(db, dirs, allowed) && u !in db.documents
    ensures var extra := db.(documents := db.documents[u := row],
                             manifest := db.manifest.(counts := db.manifest.counts.(documents := |db.documents| + 1)));
            && OpenOk(extra, dirs, allowed)
            && (u !in IdsOf(db.payloads) ==> !Expands(extra.documents, extra.payloads, extra.payloads.documents))
  {
    OpenIs(db, dirs, allowed);
    var extra := db.(documents := db.documents[u := row],
                     manifest := db.manifest.(counts := db.manifest.counts.(documents := |db.documents| + 1)));
    ExtraRow(db, u, row, extra);
    OpenIs(extra, dirs, allowed);
    assert u in extra.documents;
  }

  // ----- Revisions -----

  datatype Revision = Revision(storeUuid: nat, sequence: nat, activeId: nat, activePath: Option<GenPath>,
                               sha256: Option<nat>, activeIdCount: nat)

  /** `StoreRevision::from_manifest` */
  function RevisionOf(m: Manifest): Revision {
    Revision(m.storeUuid, m.sequence, m.activeId, m.activePath, m.sha256, m.activeIdCount)
  }

  /** `verify_expected_revision` */
  predicate ExpectedOk(current: Option<Db>, expected: Option<Revision>) {
    match (current, expected)
    case (None, None) => true
    case (Some(db), Some(r)) => RevisionOf(db.manifest) == r
    case _ => false
  }

  // ----- Snapshots -----

  function CountsOf(prev: Option<Db>): Counts {
    if prev.Some? then prev.value.manifest.counts else Counts(0, 0, 0, 0, 0, 0, 0, 0)
  }

  function SequenceOf(prev: Option<Db>): nat {
    if prev.Some? then prev.value.manifest.sequence else 0
  }

  /** The generation row count a snapshot declares; it never looks into the table. */
  function DeclaredGenerations(prev: Option<Db>, g: Checkpoint): nat {
    var recorded := prev.Some? && prev.value.manifest.activeId == g.id;
    CountsOf(prev).generations + if g.emptyLazy || recorded then 0 else 1
  }

  function SnapshotManifest(prev: Option<Db>, p: Payloads, g: Checkpoint, uuid: nat, origin: Origin): Manifest {
    var n := |p.stringToU64|;
    var counts := Counts(n, n, |p.u64ToSlot|, |p.documents|, |p.metadata|, DeclaredGenerations(prev, g),
                         CountsOf(prev).gcQueue, CountsOf(prev).audit + 1);
    Manifest(if prev.Some? then prev.value.manifest.storeUuid else uuid, p.adapterName, SequenceOf(prev) + 1,
             if prev.Some? then prev.value.manifest.origin else origin, p.bits, p.dim, p.emptyLazy,
             g.id, g.path, g.sha256, g.sizeBytes, g.vectorCount, n, p.nextU64Id, counts)
  }

  /** `retire_generation_record` */
  function Retire(row: GenerationRow, sequence: nat): GenerationRow {
    if row.state.Retired? then row else row.(state := Retired(sequence))
  }

  function RowsOf(prev: Option<Db>): map<nat, GenerationRow> {
    if prev.Some? then prev.value.generations else map[]
  }

  /** Every other row retired, the new one active. */
  function SnapshotRows(rows: map<nat, GenerationRow>, g: Checkpoint, sequence: nat): map<nat, GenerationRow> {
    if g.emptyLazy || g.path.None? then rows
    else (map id | id in rows :: Retire(rows[id], sequence))[g.id := GenerationRow(g.id, g.path.value, Active)]
  }

  /** The database one snapshot transaction leaves. */
  ghost predicate IsSnapshot(prev: Option<Db>, p: Payloads, g: Checkpoint, uuid: nat, origin: Origin, next: Db) {
    && next.manifest == SnapshotManifest(prev, p, g, uuid, origin) && next.payloads == p
    && next.stringToU64 == p.stringToU64 && next.u64ToSlot == p.u64ToSlot
    && IsReverse(next.u64ToString, p.stringToU64)
    && Expands(next.documents, p, p.documents) && Expands(next.metadata, p, p.metadata)
    && next.generations == SnapshotRows(RowsOf(prev), g, SequenceOf(prev) + 1)
    && next.gcQueue == (if prev.Some? then prev.value.gcQueue else map[])
    && next.audit == (if prev.Some? then prev.value.audit else map[])[SequenceOf(prev) + 1 := SnapshotWritten(g.id)]
  }

  function PreparedPath(p: Payloads): Option<GenPath> {
    if p.emptyLazy then None else Some(p.indexPath)
  }

  /** Everything `write_legacy_snapshot_inner` checks before it writes. */
  ghost predicate SnapshotChecks(prev: Option<Db>, dirs: Dirs, expected: Option<Revision>, p: Payloads) {
    var g := CheckpointOf(dirs, p, None);
    && PayloadsOk(p) && g.Ok? && FitsGeneration(p, g.value)
    && (prev.Some? ==> OpenOk(prev.value, dirs, PreparedPath(p)))
    && ExpectedOk(prev, expected)
    && DeclaredGenerations(prev, g.value) < U64_END && CountsOf(prev).audit + 1 < U64_END
    && SequenceOf(prev) + 1 < U64_END
  }

  // ----- What every commit keeps -----

  /** The active generation as the manifest records it. */
  function Recorded(m: Manifest): Checkpoint {
    Checkpoint(m.activeId, m.activePath, m.emptyLazy, m.bits, if m.dim.Some? then m.dim.value else 0, m.vectorCount,
               m.sha256, m.sizeBytes)
  }

  /** Rows 1 to n, no other. */
  ghost predicate Numbered<T>(table: map<nat, T>, n: nat) {
    forall k :: k in table <==> 1 <= k <= n
  }

  /** The manifest describes the payloads and the generation it recorded. */
  ghost predicate ContentOk(m: Manifest, p: Payloads) {
    && PayloadsOk(p) && ManifestMatchesPayloads(m, p) && FitsGeneration(p, Recorded(m))
    && (m.emptyLazy ==> Recorded(m) == Checkpoint(0, None, true, m.bits, 0, 0, None, None))
    && (!m.emptyLazy ==> m.activeId == GenId(p.indexPath))
  }

  /** All five row tables are the expansions of the payloads. */
  ghost predicate TablesExact(db: Db) {
    && TablesMatchPayloads(db)
    && Expands(db.documents, db.payloads, db.payloads.documents)
    && Expands(db.metadata, db.payloads, db.payloads.metadata)
  }

  ghost predicate LedgersOk(db: Db) {
    Numbered(db.audit, db.manifest.sequence) && Numbered(db.gcQueue, db.manifest.counts.gcQueue)
  }

  datatype Clause = ContentClause | CountClause | TableClause | RecordClause | LedgerClause

  ghost predicate Holds(db: Db, clause: Clause) {
    match clause
    case ContentClause => ContentOk(db.manifest, db.payloads)
    case CountClause => CountsMatch(db)
    case TableClause => TablesExact(db)
    case RecordClause => RecordsOk(db.generations, Recorded(db.manifest))
    case LedgerClause => LedgersOk(db)
  }

  /** The store invariant: all that an open verifies inside the database, and what it does not:
      exact document and metadata tables, audit rows 1 to sequence, GC rows 1 to their count. */
  ghost predicate Healthy(db: Db) {
    forall clause: Clause :: Holds(db, clause)
  }

  lemma HealthyIs(db: Db)
    ensures Healthy(db) <==> (
      && ContentOk(db.manifest, db.payloads) && CountsMatch(db) && TablesExact(db)
      && RecordsOk(db.generations, Recorded(db.manifest)) && LedgersOk(db))
  {
    if Healthy(db) {
      assert Holds(db, ContentClause) && Holds(db, CountClause) && Holds(db, TableClause);
      assert Holds(db, RecordClause) && Holds(db, LedgerClause);
    }
  }

  /** A healthy store opens exactly when the disk still says what its manifest recorded. */
  lemma HealthyOpens(db: Db, dirs: Dirs, allowed: Option<GenPath>)
    requires Healthy(db)
    ensures OpenOk(db, dirs, allowed) <==> CheckpointOf(dirs, db.payloads, allowed) == Ok(Recorded(db.manifest))
  {
    HealthyIs(db);
    OpenIs(db, dirs, allowed);
  }

  /** A store with an active generation never returns to the empty state: its own directory is in the way. */
  lemma NeverEmptyAgain(prev: Db, dirs: Dirs, expected: Option<Revision>, p: Payloads)
    requires SnapshotChecks(Some(prev), dirs, expected, p) && !prev.manifest.emptyLazy
    ensures !p.emptyLazy
  {
    OpenIs(prev, dirs, PreparedPath(p));
  }

  /** The id a snapshot may use: the active one, or one without a row. */
  predicate FreshId(prev: Option<Db>, p: Payloads) {
    || p.emptyLazy || prev.None?
    || GenId(p.indexPath) == prev.value.manifest.activeId
    || GenId(p.indexPath) !in prev.value.generations
  }

  lemma MapSize<K, V>(m: map<K, V>)
    ensures |m| == |m.Keys|
  {
  }

  lemma SnapshotRowCount(rows: map<nat, GenerationRow>, g: Checkpoint, sequence: nat)
    requires !g.emptyLazy && g.path.Some?
    ensures |SnapshotRows(rows, g, sequence)| == |rows| + if g.id in rows then 0 else 1
  {
    var next := SnapshotRows(rows, g, sequence);
    assert next.Keys == rows.Keys + {g.id};
    MapSize(next);
    MapSize(rows);
    assert |next.Keys| == |rows.Keys| + if g.id in rows.Keys then 0 else 1 by {
      if g.id in rows.Keys {
        assert next.Keys == rows.Keys;
      }
    }
  }

  lemma SnapshotRowsOk(rows: map<nat, GenerationRow>, g: Checkpoint, sequence: nat)
    requires !g.emptyLazy && g.path.Some? && forall id :: id in rows ==> rows[id].id == id
    ensures RecordsOk(SnapshotRows(rows, g, sequence), g)
  {
    var next := SnapshotRows(rows, g, sequence);
    forall id | id in next ensures RecordOk(next[id], id, g) {
      assert id != g.id ==> id in rows && next[id] == Retire(rows[id], sequence);
    }
  }

  lemma ExpandedSize(table: map<u64, string>, p: Payloads, values: map<string, string>)
    requires Injective(p.stringToU64) && Expands(table, p, values)
    ensures |table| == |p.stringToU64|
  {
    IdsSize(p);
    MapSize(table);
  }

  lemma ReverseSize(table: map<u64, string>, p: Payloads)
    requires Injective(p.stringToU64) && IsReverse(table, p.stringToU64)
    ensures |table| == |p.stringToU64|
  {
    ReverseKeys(table, p);
    IdsSize(p);
    MapSize(table);
  }

  function UpTo(n: nat): (s: set<nat>)
    ensures |s| == n && forall k :: k in s <==> 1 <= k <= n
  {
    if n == 0 then {} else UpTo(n - 1) + {n}
  }

  lemma NumberedSize<T>(table: map<nat, T>, n: nat)
    requires Numbered(table, n)
    ensures |table| == n
  {
    MapSize(table);
    assert table.Keys == UpTo(n);
  }

  // ----- Snapshots keep the invariant -----

  ghost predicate HealthyOrNone(prev: Option<Db>) {
    prev.Some? ==> Healthy(prev.value)
  }

  /** The declared generation count is the true one exactly when the id is fresh. */
  lemma DeclaredIsTrue(prev: Option<Db>, dirs: Dirs, p: Payloads, g: Checkpoint)
    requires HealthyOrNone(prev) && PayloadsOk(p) && CheckpointOf(dirs, p, None) == Ok(g)
    ensures DeclaredGenerations(prev, g) == |SnapshotRows(RowsOf(prev), g, SequenceOf(prev) + 1)| <==> FreshId(prev, p)
  {
    if prev.Some? {
      HealthyIs(prev.value);
    }
    if !g.emptyLazy {
      SnapshotRowCount(RowsOf(prev), g, SequenceOf(prev) + 1);
      if prev.Some? {
        assert CountsMatch(prev.value);
        assert prev.value.manifest.activeId == g.id ==> g.id in prev.value.generations;
      }
    }
  }

  lemma SnapshotAudit(prev: Option<Db>, p: Payloads, g: Checkpoint, uuid: nat, origin: Origin, next: Db)
    requires HealthyOrNone(prev) && IsSnapshot(prev, p, g, uuid, origin, next)
    ensures Numbered(next.audit, next.manifest.sequence) && |next.audit| == next.manifest.counts.audit
    ensures Numbered(next.gcQueue, next.manifest.counts.gcQueue) && |next.gcQueue| == next.manifest.counts.gcQueue
  {
    if prev.Some? {
      HealthyIs(prev.value);
    }
    NumberedSize(next.audit, next.manifest.sequence);
    if prev.Some? {
      NumberedSize(prev.value.audit, prev.value.manifest.sequence);
    }
    NumberedSize(next.gcQueue, next.manifest.counts.gcQueue);
  }

  lemma SnapshotCounts(prev: Option<Db>, dirs: Dirs, p: Payloads, g: Checkpoint, uuid: nat, origin: Origin, next: Db)
    requires HealthyOrNone(prev) && PayloadsOk(p) && CheckpointOf(dirs, p, None) == Ok(g)
    requires IsSnapshot(prev, p, g, uuid, origin, next)
    ensures CountsMatch(next) <==> FreshId(prev, p)
  {
    DeclaredIsTrue(prev, dirs, p, g);
    SnapshotAudit(prev, p, g, uuid, origin, next);
    ReverseSize(next.u64ToString, p);
    ExpandedSize(next.documents, p, p.documents);
    ExpandedSize(next.metadata, p, p.metadata);
    MapSize(p.documents);
    MapSize(p.metadata);
    MapSize(p.stringToU64);
  }

  lemma EmptyRecords(prev: Db, g: Checkpoint)
    requires Healthy(prev) && prev.manifest.emptyLazy && g == Checkpoint(0, None, true, g.bits, 0, 0, None, None)
    ensures RecordsOk(prev.generations, g)
  {
    HealthyIs(prev);
  }

  lemma RowIdsOk(prev: Db)
    requires Healthy(prev)
    ensures forall id :: id in prev.generations ==> prev.generations[id].id == id
  {
    HealthyIs(prev);
    forall id | id in prev.generations ensures prev.generations[id].id == id {
      assert RecordOk(prev.generations[id], id, Recorded(prev.manifest));
    }
  }

  lemma SnapshotRecords(prev: Option<Db>, dirs: Dirs, expected: Option<Revision>, p: Payloads, g: Checkpoint)
    requires HealthyOrNone(prev) && SnapshotChecks(prev, dirs, expected, p) && CheckpointOf(dirs, p, None) == Ok(g)
    ensures RecordsOk(SnapshotRows(RowsOf(prev), g, SequenceOf(prev) + 1), g)
  {
    if prev.Some? {
      RowIdsOk(prev.value);
    }
    if g.emptyLazy {
      if prev.Some? {
        if !prev.value.manifest.emptyLazy {
          NeverEmptyAgain(prev.value, dirs, expected, p);
          assert false;
        }
        EmptyRecords(prev.value, g);
      }
    } else {
      SnapshotRowsOk(RowsOf(prev), g, SequenceOf(prev) + 1);
    }
  }

  lemma SnapshotContent(prev: Option<Db>, dirs: Dirs, p: Payloads, g: Checkpoint, uuid: nat, origin: Origin)
    requires PayloadsOk(p) && CheckpointOf(dirs, p, None) == Ok(g) && FitsGeneration(p, g)
    ensures var m := SnapshotManifest(prev, p, g, uuid, origin); Recorded(m) == g && ContentOk(m, p)
  {
  }

  lemma SnapshotTables(prev: Option<Db>, p: Payloads, g: Checkpoint, uuid: nat, origin: Origin, next: Db)
    requires PayloadsOk(p) && IsSnapshot(prev, p, g, uuid, origin, next)
    ensures TablesExact(next)
  {
  }

  lemma SnapshotRest(prev: Option<Db>, dirs: Dirs, expected: Option<Revision>, p: Payloads, g: Checkpoint, uuid: nat,
                     origin: Origin, next: Db)
    requires HealthyOrNone(prev) && SnapshotChecks(prev, dirs, expected, p) && CheckpointOf(dirs, p, None) == Ok(g)
    requires IsSnapshot(prev, p, g, uuid, origin, next)
    ensures Recorded(next.manifest) == g && (Healthy(next) <==> CountsMatch(next))
  {
    HealthyIs(next);
    SnapshotContent(prev, dirs, p, g, uuid, origin);
    SnapshotTables(prev, p, g, uuid, origin, next);
    SnapshotRecords(prev, dirs, expected, p, g);
    SnapshotAudit(prev, p, g, uuid, origin, next);
  }

  /** A snapshot that passes its checks keeps the invariant, and its own re-open succeeds, if and
      only if its generation id is the active one or has no row. Otherwise the commit stands and
      no open of the store succeeds again. */
  lemma SnapshotKeepsHealthy(prev: Option<Db>, dirs: Dirs, expected: Option<Revision>, p: Payloads, uuid: nat,
                             origin: Origin, next: Db)
    requires HealthyOrNone(prev) && SnapshotChecks(prev, dirs, expected, p)
    requires IsSnapshot(prev, p, CheckpointOf(dirs, p, None).value, uuid, origin, next)
    ensures Healthy(next) <==> FreshId(prev, p)
    ensures OpenOk(next, dirs, None) <==> FreshId(prev, p)
    ensures !FreshId(prev, p) ==> forall later, allowed :: !OpenOk(next, later, allowed)
  {
    HealthyIs(next);
    var g := CheckpointOf(dirs, p, None).value;
    SnapshotCounts(prev, dirs, p, g, uuid, origin, next);
    SnapshotRest(prev, dirs, expected, p, g, uuid, origin, next);
    if FreshId(prev, p) {
      HealthyOpens(next, dirs, None);
    }
    forall later, allowed | !FreshId(prev, p) ensures !OpenOk(next, later, allowed) {
      OpenIs(next, later, allowed);
    }
  }

  // ----- A generation published twice -----

  const INFO := GenInfo(1, 2, 0, 0, 0)

  const TWO_GENERATIONS: Dirs := map[Generation(1) := Some(INFO), Generation(2) := Some(INFO)]

  function NoRecords(id: nat): Payloads {
    Payloads("adapter", 1, Some(2), false, Generation(id), map[], map[], map[], map[], 0)
  }

  function CheckpointFor(id: nat): Checkpoint {
    Checkpoint(id, Some(Generation(id)), false, 1, 2, 0, Some(0), Some(0))
  }

  /** The database after publishing generation `id`, without any record. */
  function Published(prev: Option<Db>, id: nat): Db {
    var g := CheckpointFor(id);
    Db(SnapshotManifest(prev, NoRecords(id), g, 0, Created), NoRecords(id), map[], map[], map[], map[], map[],
       SnapshotRows(RowsOf(prev), g, SequenceOf(prev) + 1), if prev.Some? then prev.value.gcQueue else map[],
       (if prev.Some? then prev.value.audit else map[])[SequenceOf(prev) + 1 := SnapshotWritten(id)])
  }

  lemma PublishedIsSnapshot(prev: Option<Db>, id: nat, dirs: Dirs)
    requires id > 0 && Generation(id) in dirs && dirs[Generation(id)] == Some(INFO)
    ensures CheckpointOf(dirs, NoRecords(id), None) == Ok(CheckpointFor(id))
    ensures PayloadsOk(NoRecords(id)) && FitsGeneration(NoRecords(id), CheckpointFor(id))
    ensures IsSnapshot(prev, NoRecords(id), CheckpointFor(id), 0, Created, Published(prev, id))
  {
    var p := NoRecords(id);
    assert IdsOf(p) == {};
  }

  lemma PublishedKeeps(prev: Option<Db>, id: nat)
    requires id in {1, 2} && HealthyOrNone(prev)
    requires prev.Some? ==> OpenOk(prev.value, TWO_GENERATIONS, Some(Generation(id)))
    requires DeclaredGenerations(prev, CheckpointFor(id)) < U64_END
    requires CountsOf(prev).audit + 1 < U64_END && SequenceOf(prev) + 1 < U64_END
    ensures var expected := if prev.Some? then Some(RevisionOf(prev.value.manifest)) else None;
            SnapshotChecks(prev, TWO_GENERATIONS, expected, NoRecords(id))
    ensures Healthy(Published(prev, id)) <==> FreshId(prev, NoRecords(id))
    ensures !FreshId(prev, NoRecords(id)) ==> forall later, allowed :: !OpenOk(Published(prev, id), later, allowed)
  {
    PublishedIsSnapshot(prev, id, TWO_GENERATIONS);
    SnapshotKeepsHealthy(prev, TWO_GENERATIONS, if prev.Some? then Some(RevisionOf(prev.value.manifest)) else None,
                         NoRecords(id), 0, Created, Published(prev, id));
  }

  lemma PublishedOpens(prev: Option<Db>, id: nat, allowed: Option<GenPath>)
    requires id in {1, 2} && Healthy(Published(prev, id))
    ensures OpenOk(Published(prev, id), TWO_GENERATIONS, allowed)
  {
    HealthyIs(Published(prev, id));
    PublishedIsSnapshot(prev, id, TWO_GENERATIONS);
    HealthyOpens(Published(prev, id), TWO_GENERATIONS, allowed);
  }

  /** Publishing generations 1, 2 and 1 again passes every check, and the store it leaves never
      opens: two rows are in the table, three are declared. */
  lemma RepublishedGenerationIsLost()
    ensures
      var first := Published(None, 1);
      var second := Published(Some(first), 2);
      var third := Published(Some(second), 1);
      && SnapshotChecks(Some(second), TWO_GENERATIONS, Some(RevisionOf(second.manifest)), NoRecords(1))
      && IsSnapshot(Some(second), NoRecords(1), CheckpointFor(1), 0, Created, third)
      && forall later, allowed :: !OpenOk(third, later, allowed)
  {
    var first := Published(None, 1);
    PublishedKeeps(None, 1);
    PublishedOpens(None, 1, Some(Generation(2)));
    var second := Published(Some(first), 2);
    PublishedKeeps(Some(first), 2);
    PublishedOpens(Some(first), 2, Some(Generation(1)));
    PublishedKeeps(Some(second), 1);
    PublishedIsSnapshot(Some(second), 1, TWO_GENERATIONS);
  }

  // ----- Metadata patches -----

  datatype Patch = Patch(id: string, metadata: string)

  /** The metadata payload after the first `n` patches. */
  function PatchedPayload(metadata: map<string, string>, patches: seq<Patch>, n: nat): map<string, string>
    requires n <= |patches|
  {
    if n == 0 then metadata else PatchedPayload(metadata, patches, n - 1)[patches[n - 1].id := patches[n - 1].metadata]
  }

  /** Everything `commit_metadata_patch` checks before it writes. */
  ghost predicate PatchChecks(prev: Option<Db>, dirs: Dirs, expected: Revision, patches: seq<Patch>) {
    && patches != [] && prev.Some? && OpenOk(prev.value, dirs, None) && ExpectedOk(prev, Some(expected))
    && (forall i :: 0 <= i < |patches| ==> patches[i].id != "" && patches[i].id in prev.value.payloads.stringToU64)
    && prev.value.manifest.sequence + 1 < U64_END && prev.value.manifest.counts.audit + 1 < U64_END
  }

  /** The rows after the first `n` patches; each one is written with the final value of its id. */
  function PatchedRows(table: map<u64, string>, p: Payloads, patches: seq<Patch>, n: nat): map<u64, string>
    requires n <= |patches|
    requires forall i :: 0 <= i < |patches| ==> patches[i].id in p.stringToU64 && patches[i].id in p.metadata
  {
    if n == 0 then table
    else PatchedRows(table, p, patches, n - 1)[p.stringToU64[patches[n - 1].id] := p.metadata[patches[n - 1].id]]
  }

  function CommitManifest(m: Manifest, gcRows: nat): Manifest {
    m.(sequence := m.sequence + 1,
       counts := m.counts.(audit := m.counts.audit + 1, gcQueue := m.counts.gcQueue + gcRows))
  }

  lemma {:induction false} PatchedPayloadKeys(metadata: map<string, string>, patches: seq<Patch>, n: nat)
    requires n <= |patches| && forall i :: 0 <= i < |patches| ==> patches[i].id in metadata
    ensures PatchedPayload(metadata, patches, n).Keys == metadata.Keys
  {
    if n > 0 {
      PatchedPayloadKeys(metadata, patches, n - 1);
    }
  }

  ghost predicate Named(patches: seq<Patch>, n: nat, s: string)
    requires n <= |patches|
  {
    exists i :: 0 <= i < n && patches[i].id == s
  }

  lemma {:induction false} UnpatchedStays(metadata: map<string, string>, patches: seq<Patch>, n: nat, s: string)
    requires n <= |patches| && s in metadata && !Named(patches, n, s)
    ensures s in PatchedPayload(metadata, patches, n) && PatchedPayload(metadata, patches, n)[s] == metadata[s]
  {
    if n > 0 {
      assert !Named(patches, n - 1, s);
      UnpatchedStays(metadata, patches, n - 1, s);
    }
  }

  lemma {:induction false} PatchedRowsAt(table: map<u64, string>, p: Payloads, patches: seq<Patch>, n: nat, s: string)
    requires n <= |patches| && Injective(p.stringToU64) && s in p.stringToU64 && s in p.metadata
    requires forall i :: 0 <= i < |patches| ==> patches[i].id in p.stringToU64 && patches[i].id in p.metadata
    requires p.stringToU64[s] in table && table.Keys == IdsOf(p)
    ensures PatchedRows(table, p, patches, n).Keys == table.Keys
    ensures PatchedRows(table, p, patches, n)[p.stringToU64[s]] ==
      if Named(patches, n, s) then p.metadata[s] else table[p.stringToU64[s]]
  {
    if n > 0 {
      PatchedRowsAt(table, p, patches, n - 1, s);
      assert p.stringToU64[patches[n - 1].id] in IdsOf(p);
      assert Named(patches, n, s) <==> Named(patches, n - 1, s) || patches[n - 1].id == s;
    }
  }

  /** Writing only the patched rows leaves the table the expansion of the patched payload. */
  lemma PatchedRowsExpand(table: map<u64, string>, before: Payloads, after: Payloads, patches: seq<Patch>)
    requires Injective(before.stringToU64) && before.metadata.Keys == before.stringToU64.Keys
    requires forall i :: 0 <= i < |patches| ==> patches[i].id in before.stringToU64
    requires after == before.(metadata := PatchedPayload(before.metadata, patches, |patches|))
    requires Expands(table, before, before.metadata)
    ensures after.metadata.Keys == before.metadata.Keys
    ensures Expands(PatchedRows(table, after, patches, |patches|), after, after.metadata)
  {
    PatchedPayloadKeys(before.metadata, patches, |patches|);
    var rows := PatchedRows(table, after, patches, |patches|);
    assert IdsOf(after) == IdsOf(before);
    forall s | s in after.metadata
      ensures after.stringToU64[s] in rows && rows[after.stringToU64[s]] == after.metadata[s]
    {
      PatchedRowsAt(table, after, patches, |patches|, s);
      if !Named(patches, |patches|, s) {
        UnpatchedStays(before.metadata, patches, |patches|, s);
      }
    }
    PatchedRowsKeys(table, after, patches, |patches|);
  }

  lemma {:induction false} PatchedRowsKeys(table: map<u64, string>, p: Payloads, patches: seq<Patch>, n: nat)
    requires n <= |patches| && table.Keys == IdsOf(p)
    requires forall i :: 0 <= i < |patches| ==> patches[i].id in p.stringToU64 && patches[i].id in p.metadata
    ensures PatchedRows(table, p, patches, n).Keys == table.Keys
  {
    if n > 0 {
      PatchedRowsKeys(table, p, patches, n - 1);
      assert p.stringToU64[patches[n - 1].id] in IdsOf(p);
    }
  }

  /** The database one metadata transaction leaves. */
  ghost predicate IsPatched(prev: Db, patches: seq<Patch>, next: Db) {
    && (forall i :: 0 <= i < |patches| ==> patches[i].id in prev.payloads.stringToU64)
    && prev.payloads.metadata.Keys == prev.payloads.stringToU64.Keys
    && (PatchedPayloadKeys(prev.payloads.metadata, patches, |patches|);
        var payloads := prev.payloads.(metadata := PatchedPayload(prev.payloads.metadata, patches, |patches|));
        next == prev.(manifest := CommitManifest(prev.manifest, 0), payloads := payloads,
                      metadata := PatchedRows(prev.metadata, payloads, patches, |patches|),
                      audit := prev.audit[prev.manifest.sequence + 1 := MetadataPatched(|patches|)]))
  }

  lemma PatchKeepsContent(prev: Db, patches: seq<Patch>, next: Db)
    requires ContentOk(prev.manifest, prev.payloads)
    requires IsPatched(prev, patches, next)
    ensures ContentOk(next.manifest, next.payloads)
  {
    PatchedPayloadKeys(prev.payloads.metadata, patches, |patches|);
    MapSize(prev.payloads.metadata);
    MapSize(next.payloads.metadata);
  }

  lemma PatchKeepsTables(prev: Db, patches: seq<Patch>, next: Db)
    requires PayloadsOk(prev.payloads) && TablesExact(prev)
    requires IsPatched(prev, patches, next)
    ensures TablesExact(next) && |next.metadata| == |prev.metadata|
  {
    PatchedRowsExpand(prev.metadata, prev.payloads, next.payloads, patches);
    ExpandedSize(next.metadata, next.payloads, next.payloads.metadata);
    ExpandedSize(prev.metadata, prev.payloads, prev.payloads.metadata);
    assert IdsOf(next.payloads) == IdsOf(prev.payloads);
  }

  lemma AuditNext(prev: Db, next: Db, gcRows: nat, e: AuditEvent)
    requires LedgersOk(prev) && CountsMatch(prev) && next.manifest == CommitManifest(prev.manifest, gcRows)
    requires next.audit == prev.audit[prev.manifest.sequence + 1 := e]
    requires Numbered(next.gcQueue, next.manifest.counts.gcQueue)
    ensures LedgersOk(next)
    ensures |next.audit| == next.manifest.counts.audit && |next.gcQueue| == next.manifest.counts.gcQueue
  {
    NumberedSize(prev.audit, prev.manifest.sequence);
    NumberedSize(next.audit, next.manifest.sequence);
    NumberedSize(next.gcQueue, next.manifest.counts.gcQueue);
  }

  /** A commit that leaves the recorded generation alone still opens. */
  lemma StillOpens(prev: Db, next: Db, dirs: Dirs)
    requires Healthy(prev) && Healthy(next) && OpenOk(prev, dirs, None)
    requires Recorded(next.manifest) == Recorded(prev.manifest)
    requires next.payloads.(metadata := map[]) == prev.payloads.(metadata := map[])
    ensures OpenOk(next, dirs, None)
  {
    HealthyOpens(prev, dirs, None);
    HealthyOpens(next, dirs, None);
  }

  lemma PatchHealthy(prev: Db, patches: seq<Patch>, next: Db)
    requires Healthy(prev) && IsPatched(prev, patches, next)
    ensures Healthy(next)
  {
    HealthyIs(prev);
    HealthyIs(next);
    PatchKeepsContent(prev, patches, next);
    PatchKeepsTables(prev, patches, next);
    AuditNext(prev, next, 0, MetadataPatched(|patches|));
  }

  lemma PatchKeepsHealthy(prev: Db, dirs: Dirs, expected: Revision, patches: seq<Patch>, next: Db)
    requires Healthy(prev) && PatchChecks(Some(prev), dirs, expected, patches) && IsPatched(prev, patches, next)
    ensures Healthy(next) && OpenOk(next, dirs, None)
  {
    PatchHealthy(prev, patches, next);
    StillOpens(prev, next, dirs);
  }

  // ----- GC records -----

  predicate IsBlank(c: char) {
    c in {' ', '\t', '\n', '\r'} || c as int == 11 || c as int == 12
  }

  /** `validate_gc_update` */
  predicate GcUpdateOk(u: GcUpdate) {
    u.path != Bundle(Legacy) && exists i :: 0 <= i < |u.reason| && !IsBlank(u.reason[i])
  }

  /** The queue after the first `n` updates. */
  function GcRows(queue: map<nat, GcUpdate>, base: nat, updates: seq<GcUpdate>, n: nat): map<nat, GcUpdate>
    requires n <= |updates|
  {
    if n == 0 then queue else GcRows(queue, base, updates, n - 1)[base + n := updates[n - 1]]
  }

  lemma {:induction false} GcRowsNumbered(queue: map<nat, GcUpdate>, base: nat, updates: seq<GcUpdate>, n: nat)
    requires n <= |updates| && Numbered(queue, base)
    ensures Numbered(GcRows(queue, base, updates, n), base + n)
    ensures forall k :: k in queue ==> GcRows(queue, base, updates, n)[k] == queue[k]
    ensures forall i :: 0 <= i < n ==> GcRows(queue, base, updates, n)[base + 1 + i] == updates[i]
  {
    if n > 0 {
      GcRowsNumbered(queue, base, updates, n - 1);
    }
  }

  /** Everything `record_generation_gc_inner` checks before it writes a non-empty list. */
  ghost predicate GcChecks(prev: Option<Db>, dirs: Dirs, expected: Option<Revision>, updates: seq<GcUpdate>) {
    && (forall i :: 0 <= i < |updates| ==> GcUpdateOk(updates[i]))
    && prev.Some? && OpenOk(prev.value, dirs, None) && ExpectedOk(prev, expected)
    && prev.value.manifest.sequence + 1 < U64_END && prev.value.manifest.counts.audit + 1 < U64_END
    && prev.value.manifest.counts.gcQueue + |updates| < U64_END
  }

  /** The database one GC transaction leaves. */
  ghost predicate IsGcRecorded(prev: Db, updates: seq<GcUpdate>, next: Db) {
    next == prev.(manifest := CommitManifest(prev.manifest, |updates|),
                  gcQueue := GcRows(prev.gcQueue, prev.manifest.counts.gcQueue, updates, |updates|),
                  audit := prev.audit[prev.manifest.sequence + 1 := GcRecorded(|updates|)])
  }

  lemma GcKeepsHealthy(prev: Db, dirs: Dirs, expected: Option<Revision>, updates: seq<GcUpdate>, next: Db)
    requires Healthy(prev) && GcChecks(Some(prev), dirs, expected, updates) && IsGcRecorded(prev, updates, next)
    ensures Healthy(next) && OpenOk(next, dirs, None)
    ensures forall k :: k in prev.gcQueue ==> k in next.gcQueue && next.gcQueue[k] == prev.gcQueue[k]
  {
    HealthyIs(prev);
    HealthyIs(next);
    GcRowsNumbered(prev.gcQueue, prev.manifest.counts.gcQueue, updates, |updates|);
    AuditNext(prev, next, |updates|, GcRecorded(|updates|));
    GcKeepsContent(prev, updates, next);
    StillOpens(prev, next, dirs);
  }

  lemma GcKeepsContent(prev: Db, updates: seq<GcUpdate>, next: Db)
    requires ContentOk(prev.manifest, prev.payloads) && TablesExact(prev) && IsGcRecorded(prev, updates, next)
    requires RecordsOk(prev.generations, Recorded(prev.manifest))
    ensures ContentOk(next.manifest, next.payloads) && TablesExact(next)
    ensures RecordsOk(next.generations, Recorded(next.manifest))
  {
  }
}
