/** The operations on an adapter root, with the table loops of each transaction. A transaction is
    one atomic step: it assembles the new tables and replaces the database at its commit. */
module AdapterRoot {
  import opened Wrappers
  import opened AdapterStore

  // ----- Verification loops -----

  /** The duplicate-id loop of `validate_maps`. */
  method DistinctIds(ids: map<string, u64>, next: u64) returns (ok: bool)
    ensures ok <==> "" !in ids && Injective(ids) && forall s :: s in ids ==> ids[s] < next
  {
    var seen: set<u64> := {};
    var left := ids.Keys;
    while left != {}
      invariant left <= ids.Keys && ("" in ids ==> "" in left)
      invariant forall u :: u in seen <==> exists s :: s in ids && s !in left && ids[s] == u
      invariant forall s :: s in ids && s !in left ==> ids[s] < next
      invariant forall a, b :: a in ids && b in ids && a !in left && b !in left && ids[a] == ids[b] ==> a == b
    {
      var s :| s in left;
      if s == "" || ids[s] in seen || ids[s] >= next {
        return false;
      }
      seen, left := seen + {ids[s]}, left - {s};
    }
    ok := true;
  }

  /** The duplicate-slot loop of `validate_maps`. */
  method SlotsAreDistinct(slots: map<u64, nat>) returns (ok: bool)
    ensures ok <==> DistinctSlots(slots)
  {
    var seen: set<nat> := {};
    var left := slots.Keys;
    while left != {}
      invariant left <= slots.Keys
      invariant forall v :: v in seen <==> exists u :: u in slots && u !in left && slots[u] == v
      invariant forall a, b :: a in slots && b in slots && a !in left && b !in left && slots[a] == slots[b] ==> a == b
    {
      var u :| u in left;
      if slots[u] in seen {
        return false;
      }
      seen, left := seen + {slots[u]}, left - {u};
    }
    ok := true;
  }

  /** `ParsedPayloads::parse`, after the JSON. */
  method ParsePayloads(p: Payloads) returns (ok: bool)
    ensures ok <==> PayloadsOk(p)
  {
    if p.bits !in {1, 2, 4} || (p.dim.Some? && p.dim.value == 0) || (p.indexPath.Generation? && p.indexPath.id == 0) {
      return false;
    }
    if p.documents.Keys != p.stringToU64.Keys || p.metadata.Keys != p.stringToU64.Keys {
      return false;
    }
    ok := DistinctIds(p.stringToU64, p.nextU64Id);
    if !ok {
      return;
    }
    if p.u64ToSlot.Keys != p.stringToU64.Values {
      return false;
    }
    ok := SlotsAreDistinct(p.u64ToSlot);
  }

  /** The generation loop counts active rows and rejects a wrong one on sight. */
  method VerifyRecords(rows: map<nat, GenerationRow>, g: Checkpoint) returns (ok: bool)
    ensures ok <==> RecordsOk(rows, g)
  {
    var activeRows := 0;
    var left := rows.Keys;
    while left != {}
      invariant left <= rows.Keys
      invariant forall id :: id in rows && id !in left ==> RecordOk(rows[id], id, g)
      invariant activeRows == if g.id in rows && g.id !in left && rows[g.id].state.Active? then 1 else 0
    {
      var id :| id in left;
      if !RecordOk(rows[id], id, g) {
        return false;
      }
      if rows[id].state.Active? {
        activeRows := activeRows + 1;
      }
      left := left - {id};
    }
    ok := activeRows == if g.emptyLazy then 0 else 1;
  }

  /** `documents` and `metadata`: every payload entry is looked up, nothing else. */
  method VerifyCovers(table: map<u64, string>, ids: map<string, u64>, values: map<string, string>) returns (ok: bool)
    requires values.Keys == ids.Keys
    ensures ok <==> Covers(table, ids, values)
  {
    var left := values.Keys;
    while left != {}
      invariant left <= values.Keys
      invariant forall s :: s in values && s !in left ==> ids[s] in table && table[ids[s]] == values[s]
    {
      var s :| s in left;
      if ids[s] !in table || table[ids[s]] != values[s] {
        return false;
      }
      left := left - {s};
    }
    ok := true;
  }

  /** The reverse of the id map, collected entry by entry. */
  method ReverseOf(ids: map<string, u64>) returns (table: map<u64, string>)
    requires Injective(ids)
    ensures IsReverse(table, ids)
  {
    table := map[];
    var left := ids.Keys;
    while left != {}
      invariant left <= ids.Keys
      invariant forall s :: s in ids && s !in left ==> ids[s] in table && table[ids[s]] == s
      invariant forall u :: u in table ==> table[u] in ids && table[u] !in left && ids[table[u]] == u
    {
      var s :| s in left;
      table, left := table[ids[s] := s], left - {s};
    }
  }

  lemma ReverseUnique(a: map<u64, string>, b: map<u64, string>, ids: map<string, u64>)
    requires IsReverse(a, ids)
    ensures IsReverse(b, ids) <==> a == b
  {
    if IsReverse(b, ids) {
      assert forall u :: u in a <==> u in b;
    }
  }

  method VerifyTables(db: Db) returns (ok: bool)
    requires PayloadsOk(db.payloads)
    ensures ok <==> TablesMatchPayloads(db)
  {
    var p := db.payloads;
    var reverse := ReverseOf(p.stringToU64);
    ReverseUnique(reverse, db.u64ToString, p.stringToU64);
    if db.stringToU64 != p.stringToU64 || db.u64ToString != reverse || db.u64ToSlot != p.u64ToSlot {
      return false;
    }
    ok := VerifyCovers(db.documents, p.stringToU64, p.documents);
    if ok {
      ok := VerifyCovers(db.metadata, p.stringToU64, p.metadata);
    }
  }

  /** `open_verified_at_store_file` */
  method OpenVerified(db: Db, dirs: Dirs, allowed: Option<GenPath>) returns (ok: bool)
    ensures ok <==> OpenOk(db, dirs, allowed)
  {
    OpenIs(db, dirs, allowed);
    ok := ParsePayloads(db.payloads);
    if !ok || !ManifestMatchesPayloads(db.manifest, db.payloads) || !CountsMatch(db) {
      return false;
    }
    var g := CheckpointOf(dirs, db.payloads, allowed);
    if g.Err? {
      return false;
    }
    ok := VerifyTables(db);
    if !ok {
      return;
    }
    ok := VerifyRecords(db.generations, g.value);
    ok := ok && FitsGeneration(db.payloads, g.value) && ManifestMatchesGeneration(db.manifest, g.value);
  }

  // ----- Table writes -----

  /** Drops the rows of inactive ids, then writes the row of every active one. */
  method WriteRows(table: map<u64, string>, p: Payloads, values: map<string, string>) returns (r: map<u64, string>)
    requires Injective(p.stringToU64) && values.Keys == p.stringToU64.Keys
    ensures Expands(r, p, values)
  {
    var active := p.stringToU64.Values;
    r := map u | u in table && u in active :: table[u];
    var left := values.Keys;
    while left != {}
      invariant left <= values.Keys && r.Keys <= active
      invariant forall s :: s in values && s !in left ==> p.stringToU64[s] in r && r[p.stringToU64[s]] == values[s]
    {
      var s :| s in left;
      r, left := r[p.stringToU64[s] := values[s]], left - {s};
    }
    forall u ensures u in r <==> u in IdsOf(p) {
      if u in IdsOf(p) {
        var s :| s in p.stringToU64 && p.stringToU64[s] == u;
        assert s in values;
      }
    }
  }

  /** The same for `u64_to_string`. */
  method WriteReverse(table: map<u64, string>, ids: map<string, u64>) returns (r: map<u64, string>)
    requires Injective(ids)
    ensures IsReverse(r, ids)
  {
    var active := ids.Values;
    r := map u | u in table && u in active :: table[u];
    var left := ids.Keys;
    while left != {}
      invariant left <= ids.Keys && r.Keys <= active
      invariant forall s :: s in ids && s !in left ==> ids[s] in r && r[ids[s]] == s
    {
      var s :| s in left;
      r, left := r[ids[s] := s], left - {s};
    }
    forall u | u in r ensures r[u] in ids && ids[r[u]] == u {
      var s :| s in ids && ids[s] == u;
    }
  }

  /** Collects the other rows, retires them and writes the new active one. */
  method WriteGenerations(rows: map<nat, GenerationRow>, g: Checkpoint, sequence: nat)
    returns (r: map<nat, GenerationRow>)
    requires g.emptyLazy || g.path.Some?
    ensures r == SnapshotRows(rows, g, sequence)
  {
    r := rows;
    if !g.emptyLazy {
      var left := rows.Keys - {g.id};
      while left != {}
        invariant left <= rows.Keys - {g.id} && r.Keys == rows.Keys
        invariant forall id :: id in rows && id != g.id ==>
          r[id] == if id in left then rows[id] else Retire(rows[id], sequence)
      {
        var id :| id in left;
        r, left := r[id := Retire(rows[id], sequence)], left - {id};
      }
      r := r[g.id := GenerationRow(g.id, g.path.value, Active)];
    }
  }

  method WriteTables(prev: Option<Db>, p: Payloads)
    returns (reverse: map<u64, string>, documents: map<u64, string>, metadata: map<u64, string>)
    requires PayloadsOk(p)
    ensures IsReverse(reverse, p.stringToU64) && Expands(documents, p, p.documents) && Expands(metadata, p, p.metadata)
  {
    reverse := WriteReverse(if prev.Some? then prev.value.u64ToString else map[], p.stringToU64);
    documents := WriteRows(if prev.Some? then prev.value.documents else map[], p, p.documents);
    metadata := WriteRows(if prev.Some? then prev.value.metadata else map[], p, p.metadata);
  }

  /** `write_snapshot_transaction` */
  method SnapshotTransaction(prev: Option<Db>, p: Payloads, g: Checkpoint, uuid: nat, origin: Origin) returns (next: Db)
    requires PayloadsOk(p) && (g.emptyLazy || g.path.Some?)
    ensures IsSnapshot(prev, p, g, uuid, origin, next)
  {
    var reverse, documents, metadata := WriteTables(prev, p);
    var generations := WriteGenerations(RowsOf(prev), g, SequenceOf(prev) + 1);
    var queue := if prev.Some? then prev.value.gcQueue else map[];
    var audit := if prev.Some? then prev.value.audit else map[];
    next := Db(SnapshotManifest(prev, p, g, uuid, origin), p, p.stringToU64, reverse, p.u64ToSlot, documents, metadata,
               generations, queue, audit[SequenceOf(prev) + 1 := SnapshotWritten(g.id)]);
  }

  /** The loop that applies the patches to the payload. */
  method PatchPayload(metadata: map<string, string>, patches: seq<Patch>) returns (r: map<string, string>)
    ensures r == PatchedPayload(metadata, patches, |patches|)
  {
    r := metadata;
    for i := 0 to |patches|
      invariant r == PatchedPayload(metadata, patches, i)
    {
      r := r[patches[i].id := patches[i].metadata];
    }
  }

  /** The loop that writes the patched rows. */
  method PatchRows(table: map<u64, string>, p: Payloads, patches: seq<Patch>) returns (r: map<u64, string>)
    requires forall i :: 0 <= i < |patches| ==> patches[i].id in p.stringToU64 && patches[i].id in p.metadata
    ensures r == PatchedRows(table, p, patches, |patches|)
  {
    r := table;
    for i := 0 to |patches|
      invariant r == PatchedRows(table, p, patches, i)
    {
      r := r[p.stringToU64[patches[i].id] := p.metadata[patches[i].id]];
    }
  }

  method PatchTransaction(prev: Db, patches: seq<Patch>) returns (next: Db)
    requires prev.payloads.metadata.Keys == prev.payloads.stringToU64.Keys
    requires forall i :: 0 <= i < |patches| ==> patches[i].id in prev.payloads.stringToU64
    ensures IsPatched(prev, patches, next)
  {
    var metadata := PatchPayload(prev.payloads.metadata, patches);
    PatchedPayloadKeys(prev.payloads.metadata, patches, |patches|);
    var payloads := prev.payloads.(metadata := metadata);
    var rows := PatchRows(prev.metadata, payloads, patches);
    next := prev.(manifest := CommitManifest(prev.manifest, 0), payloads := payloads, metadata := rows,
                  audit := prev.audit[prev.manifest.sequence + 1 := MetadataPatched(|patches|)]);
  }

  /** The loop that appends queue rows after the last one. */
  method GcTransaction(prev: Db, updates: seq<GcUpdate>) returns (next: Db)
    ensures IsGcRecorded(prev, updates, next)
  {
    var queue := prev.gcQueue;
    var base := prev.manifest.counts.gcQueue;
    for i := 0 to |updates|
      invariant queue == GcRows(prev.gcQueue, base, updates, i)
    {
      queue := queue[base + i + 1 := updates[i]];
    }
    next := prev.(manifest := CommitManifest(prev.manifest, |updates|), gcQueue := queue,
                  audit := prev.audit[prev.manifest.sequence + 1 := GcRecorded(|updates|)]);
  }

  // ----- Operations -----

  class Root {
    var db: Option<Db>
    var dirs: Dirs

    constructor (dirs: Dirs)
      ensures db == None && this.dirs == dirs
    {
      this.db := None;
      this.dirs := dirs;
    }

    /** `current_verified_store` and `verify_expected_revision`. */
    method CheckCurrent(allowed: Option<GenPath>, expected: Option<Revision>) returns (ok: bool)
      ensures ok <==> (db.Some? ==> OpenOk(db.value, dirs, allowed)) && ExpectedOk(db, expected)
    {
      ok := true;
      if db.Some? {
        ok := OpenVerified(db.value, dirs, allowed);
      }
      ok := ok && ExpectedOk(db, expected);
    }

    /** The checks of `write_legacy_snapshot_inner`, in its order. */
    method CheckSnapshot(expected: Option<Revision>, p: Payloads) returns (g: Result<Checkpoint>)
      ensures g.Ok? <==> SnapshotChecks(db, dirs, expected, p)
      ensures g.Ok? ==> g == CheckpointOf(dirs, p, None)
    {
      var parsed := ParsePayloads(p);
      if !parsed {
        return Err;
      }
      g := CheckpointOf(dirs, p, None);
      if g.Err? || !FitsGeneration(p, g.value) {
        return Err;
      }
      var current := CheckCurrent(PreparedPath(p), expected);
      if !current {
        return Err;
      }
      if DeclaredGenerations(db, g.value) >= U64_END || CountsOf(db).audit + 1 >= U64_END
        || SequenceOf(db) + 1 >= U64_END
      {
        return Err;
      }
    }

    /** `write_legacy_snapshot_inner`: `committed` when the transaction went through, `ok` when the
        verified re-open after it did as well. */
    method WriteSnapshot(expected: Option<Revision>, p: Payloads, uuid: nat, origin: Origin)
      returns (committed: bool, ok: bool)
      modifies `db
      ensures committed <==> SnapshotChecks(old(db), dirs, expected, p)
      ensures committed ==>
        db.Some? && IsSnapshot(old(db), p, CheckpointOf(dirs, p, None).value, uuid, origin, db.value)
      ensures !committed ==> db == old(db)
      ensures ok <==> committed && OpenOk(db.value, dirs, None)
    {
      var g := CheckSnapshot(expected, p);
      if g.Err? {
        return false, false;
      }
      var next := SnapshotTransaction(db, p, g.value, uuid, origin);
      db := Some(next);
      committed := true;
      ok := OpenVerified(next, dirs, None);
    }

    /** The checks of `commit_metadata_patch`, in its order. */
    method CheckPatch(expected: Revision, patches: seq<Patch>) returns (ok: bool)
      ensures ok <==> PatchChecks(db, dirs, expected, patches)
    {
      if patches == [] || db.None? {
        return false;
      }
      ok := CheckCurrent(None, Some(expected));
      if !ok {
        return;
      }
      for i := 0 to |patches|
        invariant forall j :: 0 <= j < i ==> patches[j].id != "" && patches[j].id in db.value.payloads.stringToU64
      {
        if patches[i].id == "" || patches[i].id !in db.value.payloads.stringToU64 {
          return false;
        }
      }
      ok := db.value.manifest.sequence + 1 < U64_END && db.value.manifest.counts.audit + 1 < U64_END;
    }

    /** `commit_metadata_patch` */
    method PatchMetadata(expected: Revision, patches: seq<Patch>) returns (committed: bool, ok: bool)
      modifies `db
      ensures committed <==> PatchChecks(old(db), dirs, expected, patches)
      ensures committed ==> db.Some? && IsPatched(old(db).value, patches, db.value)
      ensures !committed ==> db == old(db)
      ensures ok <==> committed && OpenOk(db.value, dirs, None)
    {
      committed := CheckPatch(expected, patches);
      if !committed {
        return false, false;
      }
      OpenIs(db.value, dirs, None);
      var next := PatchTransaction(db.value, patches);
      db := Some(next);
      ok := OpenVerified(next, dirs, None);
    }

    /** The checks of `record_generation_gc_inner`, in its order. */
    method CheckGc(expected: Option<Revision>, updates: seq<GcUpdate>) returns (ok: bool)
      ensures ok <==> GcChecks(db, dirs, expected, updates)
    {
      if exists i :: 0 <= i < |updates| && !GcUpdateOk(updates[i]) {
        return false;
      }
      if db.None? {
        return false;
      }
      ok := CheckCurrent(None, expected);
      ok := ok && db.value.manifest.sequence + 1 < U64_END && db.value.manifest.counts.audit + 1 < U64_END
        && db.value.manifest.counts.gcQueue + |updates| < U64_END;
    }

    /** `record_generation_gc_inner`. An empty list only opens the store; its `expected` is not
        looked at. */
    method RecordGc(expected: Option<Revision>, updates: seq<GcUpdate>) returns (committed: bool, ok: bool)
      modifies `db
      ensures committed <==> updates != [] && GcChecks(old(db), dirs, expected, updates)
      ensures committed ==> db.Some? && IsGcRecorded(old(db).value, updates, db.value)
      ensures !committed ==> db == old(db)
      ensures ok <==> (committed || updates == []) && db.Some? && OpenOk(db.value, dirs, None)
    {
      committed, ok := false, false;
      if updates == [] {
        if db.Some? {
          ok := OpenVerified(db.value, dirs, None);
        }
        return;
      }
      committed := CheckGc(expected, updates);
      if committed {
        var next := GcTransaction(db.value, updates);
        db := Some(next);
        ok := OpenVerified(next, dirs, None);
      }
    }
  }
}
