/** `IdMapIndex`: a vector index plus two inverse tables between caller ids and slots. */
module IdMap {
  import opened Wrappers
  import opened Floats

  type Vector = seq<F32>

  /** The rows of a flat row-major buffer. */
  function RowsOf(vectors: seq<F32>, dim: nat): (rows: seq<Vector>)
    requires 0 < dim
    ensures |rows| == |vectors| / dim
    ensures forall k :: 0 <= k < |rows| ==> |rows[k]| == dim
  {
    seq(|vectors| / dim, k requires 0 <= k < |vectors| / dim => RowAt(vectors, dim, k))
  }

  function RowAt(vectors: seq<F32>, dim: nat, k: nat): (row: Vector)
    requires 0 < dim && k < |vectors| / dim
    ensures |row| == dim
  {
    RowFits(|vectors|, dim, k);
    vectors[k * dim..k * dim + dim]
  }

  lemma MulMonotone(a: nat, b: nat, c: nat)
    requires a <= b
    ensures a * c <= b * c
  {
  }

  lemma RowFits(len: nat, dim: nat, k: nat)
    requires 0 < dim && k < len / dim
    ensures 0 <= k * dim && k * dim + dim <= len
  {
    MulMonotone(k + 1, len / dim, dim);
    assert (k + 1) * dim == k * dim + dim;
  }

  /** The dense index as its callers see it: a committed dimension and one vector a slot.
      `admits` stands for its own checks of a batch (bit width, sign policy, coordinates). */
  class OrdinalIndex {
    const admits: (seq<F32>, nat) -> bool
    var dim: Option<nat>
    var rows: seq<Vector>

    constructor (admits: (seq<F32>, nat) -> bool)
      ensures this.admits == admits && dim == None && rows == []
    {
      this.admits := admits;
      dim, rows := None, [];
    }

    /** `add_2d`: all rows are appended, or nothing changes. */
    method Add2d(vectors: seq<F32>, d: nat) returns (ok: bool)
      requires 0 < d && |vectors| % d == 0 && 0 < |vectors|
      modifies this
      ensures ok <==> (old(dim) == None || old(dim) == Some(d)) && admits(vectors, d)
      ensures !ok ==> dim == old(dim) && rows == old(rows)
      ensures ok ==> dim == Some(d) && rows == old(rows) + RowsOf(vectors, d)
    {
      ok := (dim == None || dim == Some(d)) && admits(vectors, d);
      if ok {
        dim := Some(d);
        rows := rows + RowsOf(vectors, d);
      }
    }

    /** `swap_remove`: the last row takes the freed slot. */
    method SwapRemove(slot: nat) returns (movedFrom: nat)
      requires slot < |rows|
      modifies this`rows
      ensures movedFrom == |old(rows)| - 1
      ensures rows == SwapRemoved(old(rows), slot)
    {
      movedFrom := |rows| - 1;
      rows := SwapRemoved(rows, slot);
    }
  }

  function SwapRemoved<T>(s: seq<T>, slot: nat): (r: seq<T>)
    requires slot < |s|
    ensures |r| == |s| - 1
    ensures forall k :: 0 <= k < |r| ==> r[k] == if k == slot then s[|s| - 1] else s[k]
  {
    if slot == |s| - 1 then s[..slot] else s[..|s| - 1][slot := s[|s| - 1]]
  }

  datatype AddOutcome =
    | Added
    | DimInvalid
    | BufferNotMultipleOfDim
    | IdsCountMismatch
    | IdAlreadyPresent(id: u64)
    | RejectedByIndex

  // ----- The abstract map -----

  /** What a caller knows of the index: the committed dimension and a vector for every id. */
  datatype IdMapState = IdMapState(dim: Option<nat>, vectors: map<u64, Vector>)

  datatype Op = Add(vectors: seq<F32>, dim: nat, ids: seq<u64>) | Remove(id: u64)

  ghost predicate NoRepeat(ids: seq<u64>) {
    forall i, j :: 0 <= i < j < |ids| ==> ids[i] != ids[j]
  }

  /** When a batch goes in. */
  ghost predicate Admissible(admits: (seq<F32>, nat) -> bool, s: IdMapState, vectors: seq<F32>, dim: nat,
                             ids: seq<u64>) {
    && 2 <= dim < U16_END
    && |vectors| % dim == 0 && |ids| == |vectors| / dim
    && NoRepeat(ids) && (forall id :: id in ids ==> id !in s.vectors)
    && (ids != [] ==> (s.dim == None || s.dim == Some(dim)) && admits(vectors, dim))
  }

  /** The `k`-th id names the `k`-th row. */
  ghost function Batch(ids: seq<u64>, rows: seq<Vector>): map<u64, Vector>
    requires |ids| == |rows|
  {
    if ids == [] then map[]
    else
      var k := |ids| - 1;
      Batch(ids[..k], rows[..k])[ids[k] := rows[k]]
  }

  lemma {:induction false} BatchHas(ids: seq<u64>, rows: seq<Vector>, id: u64)
    requires |ids| == |rows|
    ensures id in Batch(ids, rows) <==> id in ids
  {
    if ids != [] {
      var k := |ids| - 1;
      BatchHas(ids[..k], rows[..k], id);
      assert ids == ids[..k] + [ids[k]];
    }
  }

  lemma {:induction false} BatchAt(ids: seq<u64>, rows: seq<Vector>, i: nat)
    requires |ids| == |rows| && NoRepeat(ids) && i < |ids|
    ensures ids[i] in Batch(ids, rows) && Batch(ids, rows)[ids[i]] == rows[i]
  {
    var k := |ids| - 1;
    if i < k {
      BatchAt(ids[..k], rows[..k], i);
    }
  }

  ghost function Apply(admits: (seq<F32>, nat) -> bool, s: IdMapState, op: Op): IdMapState {
    match op
    case Add(vectors, dim, ids) =>
      if Admissible(admits, s, vectors, dim, ids) && ids != []
      then IdMapState(Some(dim), s.vectors + Batch(ids, RowsOf(vectors, dim)))
      else s
    case Remove(id) => s.(vectors := s.vectors - {id})
  }

  ghost function ApplyAll(admits: (seq<F32>, nat) -> bool, s: IdMapState, ops: seq<Op>): IdMapState {
    if ops == [] then s else Apply(admits, ApplyAll(admits, s, ops[..|ops| - 1]), ops[|ops| - 1])
  }

  // ----- The concrete index -----

  /** `slotToId` and `idToSlot` are inverse to each other. */
  ghost predicate Inverse(slotToId: seq<u64>, idToSlot: map<u64, nat>) {
    && (forall slot :: 0 <= slot < |slotToId| ==> slotToId[slot] in idToSlot && idToSlot[slotToId[slot]] == slot)
    && (forall id :: id in idToSlot ==> id in slotToId)
  }

  lemma InverseAt(slotToId: seq<u64>, idToSlot: map<u64, nat>, id: u64)
    requires Inverse(slotToId, idToSlot) && id in idToSlot
    ensures idToSlot[id] < |slotToId| && slotToId[idToSlot[id]] == id
  {
    var slot :| 0 <= slot < |slotToId| && slotToId[slot] == id;
  }

  lemma {:induction false} InverseTablesHaveOneSize(slotToId: seq<u64>, idToSlot: map<u64, nat>)
    requires Inverse(slotToId, idToSlot)
    ensures |idToSlot| == |slotToId| && NoRepeat(slotToId)
  {
    if slotToId == [] {
      assert forall id :: id in idToSlot ==> id in slotToId;
      assert idToSlot.Keys == {};
    } else {
      var last := |slotToId| - 1;
      var smaller := idToSlot - {slotToId[last]};
      assert Inverse(slotToId[..last], smaller);
      InverseTablesHaveOneSize(slotToId[..last], smaller);
      assert idToSlot.Keys == smaller.Keys + {slotToId[last]};
    }
  }

  /** The vector every id resolves to. */
  ghost function Resolve(idToSlot: map<u64, nat>, rows: seq<Vector>): map<u64, Vector> {
    map id | id in idToSlot && idToSlot[id] < |rows| :: rows[idToSlot[id]]
  }

  class IdMapIndex {
    const inner: OrdinalIndex
    var slotToId: seq<u64>
    var idToSlot: map<u64, nat>

    ghost predicate Valid()
      reads this, inner
    {
      Inverse(slotToId, idToSlot) && |slotToId| == |inner.rows|
    }

    /** The map from id to vector this index stands for. */
    ghost function Abstract(): (s: IdMapState)
      requires Valid()
      ensures s.vectors.Keys == idToSlot.Keys
      reads this, inner
    {
      forall id | id in idToSlot ensures idToSlot[id] < |inner.rows| { InverseAt(slotToId, idToSlot, id); }
      IdMapState(inner.dim, Resolve(idToSlot, inner.rows))
    }

    constructor (inner: OrdinalIndex)
      requires inner.rows == []
      ensures this.inner == inner && Valid() && Abstract() == IdMapState(inner.dim, map[])
    {
      this.inner := inner;
      slotToId, idToSlot := [], map[];
    }

    ghost predicate IsFirstClash(ids: seq<u64>, k: nat)
      requires k < |ids|
      reads this
    {
      && (ids[k] in idToSlot || ids[k] in ids[..k])
      && NoRepeat(ids[..k]) && forall id :: id in ids[..k] ==> id !in idToSlot
    }

    /** The loop that checks a batch of ids against the index and against itself. */
    method FirstClash(ids: seq<u64>) returns (clash: Option<u64>)
      ensures clash == None <==> NoRepeat(ids) && forall id :: id in ids ==> id !in idToSlot
      ensures clash.Some? ==> exists k :: 0 <= k < |ids| && IsFirstClash(ids, k) && ids[k] == clash.value
    {
      var batch: set<u64> := {};
      for n := 0 to |ids|
        invariant forall id :: id in batch <==> id in ids[..n]
        invariant NoRepeat(ids[..n]) && forall id :: id in ids[..n] ==> id !in idToSlot
      {
        assert forall i :: 0 <= i < n ==> ids[..n][i] == ids[i];
        if ids[n] in idToSlot || ids[n] in batch {
          assert IsFirstClash(ids, n);
          return Some(ids[n]);
        }
        batch := batch + {ids[n]};
        assert ids[..n + 1] == ids[..n] + [ids[n]];
      }
      assert ids[..|ids|] == ids;
      return None;
    }

    /** `add_with_ids_2d`: a batch goes in whole or not at all. */
    method AddWithIds2d(vectors: seq<F32>, dim: nat, ids: seq<u64>) returns (r: AddOutcome)
      requires Valid()
      modifies this, inner
      ensures Valid()
      ensures r.IdAlreadyPresent? ==> exists k :: 0 <= k < |ids| && old(IsFirstClash(ids, k)) && ids[k] == r.id
      ensures r == Added <==> Admissible(inner.admits, old(Abstract()), vectors, dim, ids)
      ensures Abstract() == Apply(inner.admits, old(Abstract()), Add(vectors, dim, ids))
      ensures r != Added ==> slotToId == old(slotToId) && idToSlot == old(idToSlot) && inner.rows == old(inner.rows)
      ensures r == Added ==> slotToId == old(slotToId) + ids
    {
      if dim < 2 || dim >= U16_END {
        return DimInvalid;
      }
      if |vectors| % dim != 0 {
        return BufferNotMultipleOfDim;
      }
      if |ids| != |vectors| / dim {
        return IdsCountMismatch;
      }
      var clash := FirstClash(ids);
      if clash.Some? {
        return IdAlreadyPresent(clash.value);
      }
      if |ids| == 0 {
        return Added;
      }
      var firstNewSlot := |inner.rows|;
      var ok := inner.Add2d(vectors, dim);
      if !ok {
        return RejectedByIndex;
      }
      InsertIds(ids, firstNewSlot, old(inner.rows), RowsOf(vectors, dim));
      slotToId := slotToId + ids;
      return Added;
    }

    /** The loop that gives the batch the slots after the old ones. The rows are in already. */
    method InsertIds(ids: seq<u64>, firstNewSlot: nat, ghost rows: seq<Vector>, ghost added: seq<Vector>)
      requires Inverse(slotToId, idToSlot) && firstNewSlot == |slotToId| == |rows| && |ids| == |added|
      requires NoRepeat(ids) && forall k :: 0 <= k < |ids| ==> ids[k] !in slotToId
      modifies this`idToSlot
      ensures Inverse(slotToId + ids, idToSlot)
      ensures Resolve(idToSlot, rows + added) == Resolve(old(idToSlot), rows) + Batch(ids, added)
    {
      ghost var table, before := slotToId, idToSlot;
      NoneInserted(table, before, rows, ids, added);
      for offset := 0 to |ids|
        invariant slotToId == table && Inserted(table, before, rows, ids, added, offset, idToSlot)
      {
        InsertedNext(table, before, rows, ids, added, offset, idToSlot);
        idToSlot := idToSlot[ids[offset] := firstNewSlot + offset];
      }
      AllInserted(table, before, rows, ids, added, idToSlot);
    }

    /** `remove`: the tail row takes the freed slot and both tables follow it. */
    method Remove(id: u64) returns (found: bool)
      requires Valid()
      modifies this, inner
      ensures Valid()
      ensures found <==> id in old(idToSlot)
      ensures Abstract() == Apply(inner.admits, old(Abstract()), Op.Remove(id))
      ensures !found ==> slotToId == old(slotToId) && idToSlot == old(idToSlot) && inner.rows == old(inner.rows)
    {
      if id !in idToSlot {
        return false;
      }
      var slot := idToSlot[id];
      SwapRemovedTables(slotToId, idToSlot, slot);
      SwapRemovedResolve(slotToId, idToSlot, inner.rows, slot);
      idToSlot := idToSlot - {id};
      var backfilledFrom := inner.SwapRemove(slot);
      slotToId := SwapRemoved(slotToId, slot);
      if slot < |slotToId| {
        idToSlot := idToSlot[slotToId[slot] := slot];
      }
      assert idToSlot == SwapRemovedSlots(old(slotToId), old(idToSlot), slot);
      return true;
    }

    /** Any run of adds and removes is the same run on the abstract map. */
    method Replay(ops: seq<Op>)
      requires Valid()
      modifies this, inner
      ensures Valid() && |idToSlot| == |slotToId| == |inner.rows|
      ensures Abstract() == ApplyAll(inner.admits, old(Abstract()), ops)
    {
      for n := 0 to |ops|
        invariant Valid() && Abstract() == ApplyAll(inner.admits, old(Abstract()), ops[..n])
      {
        assert ops[..n + 1][..n] == ops[..n] && ops[..n + 1][n] == ops[n];
        ghost var before := Abstract();
        match ops[n] {
        case Add(vectors, dim, ids) =>
          var outcome := AddWithIds2d(vectors, dim, ids);
        case Remove(id) =>
          var found := Remove(id);
        }
        assert Abstract() == Apply(inner.admits, before, ops[n]);
      }
      assert ops[..|ops|] == ops;
      InverseTablesHaveOneSize(slotToId, idToSlot);
    }

    /** `candidate_slots_from_allowlist`: the slots of the listed ids, each once, ascending. */
    method CandidateSlots(ids: seq<u64>) returns (r: Result<seq<nat>>)
      requires Valid()
      ensures r.Ok? <==> forall id :: id in ids ==> id in idToSlot && idToSlot[id] < U32_END
      ensures r.Ok? ==> forall i, j :: 0 <= i < j < |r.value| ==> r.value[i] < r.value[j]
      ensures r.Ok? ==> forall slot: nat :: slot in r.value <==> slot < |slotToId| && slotToId[slot] in ids
    {
      var candidates: seq<nat> := [];
      for n := 0 to |ids|
        invariant forall k :: 0 <= k < n ==> ids[k] in idToSlot && idToSlot[ids[k]] < U32_END
        invariant |candidates| == n && forall k :: 0 <= k < n ==> candidates[k] == idToSlot[ids[k]]
      {
        assert ids[n] in ids;
        if ids[n] !in idToSlot || idToSlot[ids[n]] >= U32_END {
          return Err;
        }
        candidates := candidates + [idToSlot[ids[n]]];
      }
      var sorted := SortAndDedup(candidates);
      forall slot: nat ensures slot in sorted <==> slot < |slotToId| && slotToId[slot] in ids {
        if slot in candidates {
          var k :| 0 <= k < |candidates| && candidates[k] == slot;
          InverseAt(slotToId, idToSlot, ids[k]);
        }
        if slot < |slotToId| && slotToId[slot] in ids {
          var k :| 0 <= k < |ids| && ids[k] == slotToId[slot];
          assert candidates[k] == slot;
        }
      }
      return Ok(sorted);
    }

    /** `scores_ids_from_results` for one flat result of the dense search: negative slots are
        padding and drop out together with their scores. */
    method ScoresIds(scores: seq<F32>, indices: seq<int>) returns (r: Result<(seq<F32>, seq<u64>)>)
      requires Valid() && |scores| == |indices|
      ensures r.Ok? <==> forall k :: 0 <= k < |indices| ==> indices[k] < |slotToId|
      ensures r.Ok? ==> r.value == Unpadded(slotToId, scores, indices)
    {
      var outScores: seq<F32>, outIds: seq<u64> := [], [];
      for n := 0 to |indices|
        invariant forall k :: 0 <= k < n ==> indices[k] < |slotToId|
        invariant (outScores, outIds) == Unpadded(slotToId, scores[..n], indices[..n])
      {
        assert scores[..n + 1][..n] == scores[..n] && indices[..n + 1][..n] == indices[..n];
        if indices[n] >= 0 {
          if indices[n] >= |slotToId| {
            return Err;
          }
          outScores := outScores + [scores[n]];
          outIds := outIds + [slotToId[indices[n]]];
        }
      }
      assert scores[..|scores|] == scores && indices[..|indices|] == indices;
      return Ok((outScores, outIds));
    }
  }

  /** The tables once the first `n` ids of a batch are in. */
  ghost predicate Inserted(oldIds: seq<u64>, oldSlots: map<u64, nat>, rows: seq<Vector>,
                           ids: seq<u64>, added: seq<Vector>, n: nat, slots: map<u64, nat>)
    requires n <= |ids| == |added|
  {
    && Inverse(oldIds + ids[..n], slots)
    && Resolve(slots, rows + added) == Resolve(oldSlots, rows) + Batch(ids[..n], added[..n])
  }

  lemma NoneInserted(oldIds: seq<u64>, oldSlots: map<u64, nat>, rows: seq<Vector>, ids: seq<u64>, added: seq<Vector>)
    requires Inverse(oldIds, oldSlots) && |oldIds| == |rows| && |ids| == |added|
    ensures Inserted(oldIds, oldSlots, rows, ids, added, 0, oldSlots)
  {
    assert oldIds + ids[..0] == oldIds;
    forall i | i in oldSlots ensures oldSlots[i] < |oldIds| { InverseAt(oldIds, oldSlots, i); }
  }

  lemma InsertedNext(oldIds: seq<u64>, oldSlots: map<u64, nat>, rows: seq<Vector>,
                     ids: seq<u64>, added: seq<Vector>, n: nat, slots: map<u64, nat>)
    requires |oldIds| == |rows| && n < |ids| == |added| && NoRepeat(ids) && ids[n] !in oldIds
    requires Inserted(oldIds, oldSlots, rows, ids, added, n, slots)
    ensures Inserted(oldIds, oldSlots, rows, ids, added, n + 1, slots[ids[n] := |oldIds| + n])
  {
    InverseNext(oldIds, ids, n, slots);
    ResolveNext(slots, rows, Resolve(oldSlots, rows), ids, added, n);
  }

  lemma AllInserted(oldIds: seq<u64>, oldSlots: map<u64, nat>, rows: seq<Vector>,
                    ids: seq<u64>, added: seq<Vector>, slots: map<u64, nat>)
    requires |ids| == |added| && Inserted(oldIds, oldSlots, rows, ids, added, |ids|, slots)
    ensures Inverse(oldIds + ids, slots)
    ensures Resolve(slots, rows + added) == Resolve(oldSlots, rows) + Batch(ids, added)
  {
    assert ids[..|ids|] == ids && added[..|ids|] == added;
  }

  lemma InverseSnoc(ids: seq<u64>, slots: map<u64, nat>, id: u64)
    requires Inverse(ids, slots) && id !in ids
    ensures Inverse(ids + [id], slots[id := |ids|])
  {
  }

  lemma InverseNext(oldIds: seq<u64>, ids: seq<u64>, n: nat, slots: map<u64, nat>)
    requires n < |ids| && NoRepeat(ids) && ids[n] !in oldIds
    requires Inverse(oldIds + ids[..n], slots)
    ensures Inverse(oldIds + ids[..n + 1], slots[ids[n] := |oldIds| + n])
  {
    assert ids[n] !in ids[..n];
    InverseSnoc(oldIds + ids[..n], slots, ids[n]);
    assert oldIds + ids[..n + 1] == oldIds + ids[..n] + [ids[n]];
  }

  lemma BatchNext(ids: seq<u64>, rows: seq<Vector>, k: nat, before: map<u64, Vector>)
    requires |ids| == |rows| && k < |ids|
    ensures before + Batch(ids[..k + 1], rows[..k + 1]) == (before + Batch(ids[..k], rows[..k]))[ids[k] := rows[k]]
  {
    assert ids[..k + 1][..k] == ids[..k] && rows[..k + 1][..k] == rows[..k];
  }

  lemma ResolveNext(slots: map<u64, nat>, rows: seq<Vector>, before: map<u64, Vector>, ids: seq<u64>,
                    added: seq<Vector>, n: nat)
    requires |ids| == |added| && n < |ids|
    requires Resolve(slots, rows + added) == before + Batch(ids[..n], added[..n])
    ensures Resolve(slots[ids[n] := |rows| + n], rows + added) == before + Batch(ids[..n + 1], added[..n + 1])
  {
    BatchNext(ids, added, n, before);
    assert (rows + added)[|rows| + n] == added[n];
  }

  /** The id tables after a swap-remove: the relocated id points at the freed slot. */
  function SwapRemovedSlots(ids: seq<u64>, slots: map<u64, nat>, slot: nat): map<u64, nat>
    requires slot < |ids|
  {
    var rest := slots - {ids[slot]};
    if slot < |ids| - 1 then rest[ids[|ids| - 1] := slot] else rest
  }

  lemma SwapRemovedTables(ids: seq<u64>, slots: map<u64, nat>, slot: nat)
    requires Inverse(ids, slots) && slot < |ids|
    ensures Inverse(SwapRemoved(ids, slot), SwapRemovedSlots(ids, slots, slot))
    ensures SwapRemovedSlots(ids, slots, slot).Keys == slots.Keys - {ids[slot]}
    ensures forall id :: id in slots && id != ids[slot] ==>
      SwapRemovedSlots(ids, slots, slot)[id] == if slots[id] == |ids| - 1 then slot else slots[id]
  {
    assert ids[|ids| - 1] in slots && ids[slot] in slots;
  }

  /** Every surviving id keeps its own vector through a swap-remove. */
  lemma SwapRemovedResolve(ids: seq<u64>, slots: map<u64, nat>, rows: seq<Vector>, slot: nat)
    requires Inverse(ids, slots) && slot < |ids| == |rows|
    ensures Resolve(SwapRemovedSlots(ids, slots, slot), SwapRemoved(rows, slot)) == Resolve(slots, rows) - {ids[slot]}
  {
    SwapRemovedTables(ids, slots, slot);
    forall i | i in slots ensures slots[i] < |ids| && ids[slots[i]] == i { InverseAt(ids, slots, i); }
  }

  /** The result rows that name a slot, in order, with the slot's id. */
  ghost function Unpadded(slotToId: seq<u64>, scores: seq<F32>, indices: seq<int>): (r: (seq<F32>, seq<u64>))
    requires |scores| == |indices|
    ensures |r.0| == |r.1|
  {
    if indices == [] then ([], [])
    else
      var k := |indices| - 1;
      var r := Unpadded(slotToId, scores[..k], indices[..k]);
      if 0 <= indices[k] < |slotToId| then (r.0 + [scores[k]], r.1 + [slotToId[indices[k]]]) else r
  }

  /** `sort_unstable` followed by `dedup`. */
  method SortAndDedup(s: seq<nat>) returns (r: seq<nat>)
    ensures forall i, j :: 0 <= i < j < |r| ==> r[i] < r[j]
    ensures forall x :: x in r <==> x in s
  {
    r := [];
    for n := 0 to |s|
      invariant forall i, j :: 0 <= i < j < |r| ==> r[i] < r[j]
      invariant forall x :: x in r <==> x in s[..n]
    {
      assert s[..n + 1] == s[..n] + [s[n]];
      r := InsertOnce(r, s[n]);
    }
    assert s[..|s|] == s;
  }

  method InsertOnce(s: seq<nat>, x: nat) returns (r: seq<nat>)
    requires forall i, j :: 0 <= i < j < |s| ==> s[i] < s[j]
    ensures forall i, j :: 0 <= i < j < |r| ==> r[i] < r[j]
    ensures forall y :: y in r <==> y in s || y == x
  {
    var k := 0;
    while k < |s| && s[k] < x
      invariant k <= |s| && forall i :: 0 <= i < k ==> s[i] < x
    {
      k := k + 1;
    }
    if k < |s| && s[k] == x {
      return s;
    }
    assert s == s[..k] + s[k..];
    r := s[..k] + [x] + s[k..];
  }

  /** `from_loaded_parts`: the two tables are rebuilt from the persisted ids, or the ids are
      refused because their number is wrong or one repeats. */
  method FromLoadedParts(rowCount: nat, slotToId: seq<u64>) returns (r: Result<map<u64, nat>>)
    ensures r.Ok? <==> |slotToId| == rowCount && NoRepeat(slotToId)
    ensures r.Ok? ==> Inverse(slotToId, r.value)
  {
    if rowCount != |slotToId| {
      return Err;
    }
    var idToSlot: map<u64, nat> := map[];
    for slot := 0 to |slotToId|
      invariant Inverse(slotToId[..slot], idToSlot)
      invariant NoRepeat(slotToId[..slot])
    {
      assert slotToId[..slot + 1] == slotToId[..slot] + [slotToId[slot]];
      if slotToId[slot] in idToSlot {
        InverseAt(slotToId[..slot], idToSlot, slotToId[slot]);
        return Err;
      }
      InverseSnoc(slotToId[..slot], idToSlot, slotToId[slot]);
      idToSlot := idToSlot[slotToId[slot] := slot];
    }
    assert slotToId[..|slotToId|] == slotToId;
    return Ok(idToSlot);
  }
}
