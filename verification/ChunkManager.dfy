// The chunk manager: staged changes over stored chunks, read, written and
// truncated in place (rust/src/chunk_manager.rs).
module ChunkManager {
  import opened Bytes
  import opened Chunks
  import opened Coalesce
  import opened Geometry
  import opened Images
  import opened Keys
  import opened KvStore
  import opened Tapes

  // The bytes of `buf` that `slice` selects come from `chunk`; a short chunk
  // contributes only the bytes it has. Even an empty range of the chunk has to
  // start inside it: a slice that starts past its end is out of range.
  method CopyChunkInto(buf: array<byte>, slice: ChunkSlice, chunk: bytes) returns (r: Result<()>)
    requires slice.bufOffset + slice.len <= buf.Length
    modifies buf
    ensures r == if |chunk| < slice.chunkOffset then Failure(SliceOutOfRange) else Success(())
    ensures buf[..] == CopySlice(old(buf[..]), slice, chunk)
  {
    var rest := if |chunk| > slice.chunkOffset then |chunk| - slice.chunkOffset else 0;
    var available := if rest < slice.len then rest else slice.len;
    if slice.chunkOffset + available > |chunk| { return Failure(SliceOutOfRange); }
    for n := 0 to available
      invariant forall j :: 0 <= j < buf.Length ==>
        buf[j] == if slice.bufOffset <= j < slice.bufOffset + n
                  then chunk[slice.chunkOffset + (j - slice.bufOffset)] else old(buf[j])
    {
      buf[slice.bufOffset + n] := chunk[slice.chunkOffset + n];
    }
    return Success(());
  }

  method SplitIntoChunks(g: Geometry, len: nat, offset: u64) returns (slices: seq<ChunkSlice>)
    requires g.Valid() && offset + len < U64_LIMIT
    ensures slices == Split(g, len, offset)
    ensures Tiles(g, offset, slices, 0, len)
  {
    hide SplitFrom, Tiles, Start;
    slices := [];
    var covered := 0;
    while covered < len
      invariant covered <= len
      invariant slices + SplitFrom(g, len, offset, covered) == Split(g, len, offset)
      decreases len - covered
    {
      var position: u64 := offset + covered;
      var chunkIdx: u64, chunkOffset: u64, available: u64;
      LocateSound(g, position);
      if position < g.base {
        chunkIdx, chunkOffset, available := 0, position, g.base - position;
      } else {
        var aligned := position - g.base;
        DivModParts(aligned, g.chunkSize);
        chunkOffset := aligned % g.chunkSize;
        chunkIdx := aligned / g.chunkSize + if g.base != 0 then 1 else 0;
        available := g.chunkSize - chunkOffset;
      }
      var sliceLen := if len - covered < available then len - covered else available;
      var slice := ChunkSlice(chunkIdx, covered, chunkOffset, sliceLen);
      SplitStep(g, len, offset, covered);
      assert slice == SliceAt(g, len, offset, covered);
      slices := slices + [slice];
      covered := covered + sliceLen;
    }
    SplitDone(g, len, offset);
    SplitTiles(g, len, offset);
  }

  class ChunkManager {
    const store: Store
    const fileId: u64
    const geometry: Geometry
    var pending: Pending

    constructor (store: Store, fileId: u64, geometry: Geometry)
      ensures this.store == store && this.fileId == fileId && this.geometry == geometry && pending == map[]
    {
      this.store, this.fileId, this.geometry, pending := store, fileId, geometry, map[];
    }

    ghost function Stored(): ChunkMap
      reads store`kv
    {
      StoredChunks(store.kv, fileId)
    }

    ghost function Shown(): ChunkMap
      reads this, store`kv
    {
      Overlay(Stored(), pending)
    }

    ghost predicate WellFormed()
      reads store`kv
    {
      WellFormedKeys(store.kv.Keys)
    }

    // -----------------------------------------------------------------------
    // Reading the store

    method ReadChunkFromStore(chunkIdx: u64) returns (r: Result<bytes>)
      modifies store`faults
      ensures r == Failure(StoreFault) <==> store.faults != old(store.faults)
      ensures r.Failure? ==> r.error == StoreFault
      ensures r.Success? ==> r.value == ChunkAt(Stored(), chunkIdx)
    {
      var chunk := store.Get(ChunkKey(fileId, chunkIdx));
      if chunk.Failure? { return Failure(chunk.error); }
      return Success(match chunk.value case Some(data) => data case None => []);
    }

    method ChunkContents(chunkIdx: u64) returns (r: Result<bytes>)
      modifies store`faults
      ensures r == Failure(StoreFault) <==> store.faults != old(store.faults)
      ensures r.Failure? ==> r.error == StoreFault && chunkIdx !in pending
      ensures r.Success? ==> r.value == ChunkAt(Shown(), chunkIdx)
    {
      if chunkIdx in pending {
        match pending[chunkIdx]
        case Written(chunk) => return Success(chunk);
        case Deleted => return Success([]);
      }
      r := ReadChunkFromStore(chunkIdx);
    }

    ghost function InRun(group: Run): ChunkMap
      reads store`kv
    {
      map i | i in Stored() && group.first <= i <= group.last :: Stored()[i]
    }

    // The stored chunks with an index in the group, under their indices.
    method ReadChunkGroupFromStore(group: Run) returns (r: Result<map<u64, bytes>>)
      requires group.first <= group.last
      modifies store`faults
      ensures r == Failure(StoreFault) <==> store.faults != old(store.faults)
      ensures WellFormed() && r.Failure? ==> r.error == StoreFault
      ensures WellFormed() && r.Success? ==> r.value == InRun(group)
    {
      hide ChunkKey, ParseChunkIdx;
      if group.first == group.last {
        var chunk := store.Get(ChunkKey(fileId, group.first));
        if chunk.Failure? { return Failure(chunk.error); }
        match chunk.value
        case Some(data) => return Success(map[group.first := data]);
        case None => return Success(map[]);
      }
      var first, last := ChunkKey(fileId, group.first), ChunkKey(fileId, group.last);
      var scanned := store.ScanInclusive(first, last);
      if scanned.Failure? { return Failure(scanned.error); }
      r := ParsePairs(group, scanned.value);
    }

    method ParsePairs(group: Run, pairs: seq<(bytes, bytes)>) returns (r: Result<map<u64, bytes>>)
      requires group.first <= group.last
      requires IsScan(store.kv, RangeKeys(store.kv, ChunkKey(fileId, group.first), ChunkKey(fileId, group.last)), pairs)
      ensures WellFormed() ==> r == Success(InRun(group))
      ensures r != Failure(StoreFault)
    {
      hide ChunkKey, ParseChunkIdx, WellFormedKeys, StoredChunks;
      ghost var wellFormed := WellFormed();
      var chunks: map<u64, bytes> := map[];
      for n := 0 to |pairs|
        invariant wellFormed ==> forall i :: i in chunks ==> i in InRun(group) && chunks[i] == InRun(group)[i]
        invariant wellFormed ==> forall k, i: u64 :: 0 <= k < n && pairs[k].0 == ChunkKey(fileId, i) ==> i in chunks
      {
        var parsed := ParseChunkIdx(pairs[n].0);
        if wellFormed { ScannedKey(group, pairs[n]); }
        if parsed.Failure? { return Failure(parsed.error); }
        chunks := chunks[parsed.value := pairs[n].1];
        forall i: u64 | pairs[n].0 == ChunkKey(fileId, i) ensures i == parsed.value {
          ParseChunkIdxInverts(fileId, i);
        }
      }
      if wellFormed {
        forall i | i in InRun(group) ensures i in chunks {
          StoredKeyScanned(group, i);
          assert HasKey(pairs, ChunkKey(fileId, i));
        }
        assert chunks == InRun(group);
      }
      return Success(chunks);
    }

    lemma StoredKeyScanned(group: Run, i: u64)
      requires WellFormed() && group.first <= i <= group.last && i in Stored()
      ensures ChunkKey(fileId, i) in RangeKeys(store.kv, ChunkKey(fileId, group.first), ChunkKey(fileId, group.last))
    {
      hide ChunkKey;
      RangeScanExact(store.kv.Keys, fileId, group.first, group.last, ChunkKey(fileId, i));
    }

    // A key met by the group's range scan is a chunk of the group, and parses
    // back to its index.
    lemma ScannedKey(group: Run, pair: (bytes, bytes))
      requires WellFormed() && group.first <= group.last
      requires pair.0 in RangeKeys(store.kv, ChunkKey(fileId, group.first), ChunkKey(fileId, group.last))
      requires Lookup(store.kv, pair.0) == Some(pair.1)
      ensures ParseChunkIdx(pair.0).Success?
      ensures var i := ParseChunkIdx(pair.0).value;
        group.first <= i <= group.last && i in Stored() && Stored()[i] == pair.1
    {
      RangeScanExact(store.kv.Keys, fileId, group.first, group.last, pair.0);
      var i: u64 :| group.first <= i <= group.last && pair.0 == ChunkKey(fileId, i);
      ParseChunkIdxInverts(fileId, i);
    }

    ghost function Wanted(indices: seq<u64>): ChunkMap
      reads store`kv
    {
      Selected(Stored(), indices)
    }

    method ReadChunksFromStore(indices: seq<u64>) returns (r: Result<map<u64, bytes>>)
      requires Ascending(indices)
      modifies store`faults
      ensures r == Failure(StoreFault) <==> store.faults != old(store.faults)
      ensures r.Failure? ==> indices != []
      ensures WellFormed() && r.Failure? ==> r.error == StoreFault
      ensures WellFormed() && r.Success? ==> r.value == Wanted(indices)
    {
      hide StoredChunks, WellFormedKeys, Flatten;
      if indices == [] { return Success(map[]); }
      var groups := CoalesceChunkIndices(indices);
      var fetched: map<u64, bytes> := map[];
      for n := 0 to |groups|
        invariant store.faults == old(store.faults)
        invariant WellFormed() ==>
          forall i :: i in fetched <==> i in Stored() && exists k :: 0 <= k < n && groups[k].first <= i <= groups[k].last
        invariant WellFormed() ==> forall i :: i in fetched ==> fetched[i] == Stored()[i]
      {
        var chunks := ReadChunkGroupFromStore(groups[n]);
        if chunks.Failure? { return Failure(chunks.error); }
        fetched := fetched + chunks.value;
      }
      forall i: u64 ensures i in indices <==> exists k :: 0 <= k < |groups| && groups[k].first <= i <= groups[k].last {
        FlattenContains(groups, i);
      }
      return Success(fetched);
    }

    // The stored indices of this file from `min` on.
    method CollectPersistedChunkIndices(min: nat) returns (r: Result<set<u64>>)
      modifies store`faults
      ensures r == Failure(StoreFault) <==> store.faults != old(store.faults)
      ensures WellFormed() && r.Failure? ==> r.error == StoreFault
      ensures WellFormed() && r.Success? ==> r.value == IndicesFrom(Stored(), min)
    {
      hide ChunkKey, ParseChunkIdx;
      var scanned := store.KeysWithPrefix(ChunkPrefix(fileId));
      if scanned.Failure? { return Failure(scanned.error); }
      var keys := scanned.value;
      ghost var wellFormed := WellFormed();
      var indices: set<u64> := {};
      for n := 0 to |keys|
        invariant store.faults == old(store.faults)
        invariant wellFormed ==> indices <= IndicesFrom(Stored(), min)
        invariant wellFormed ==>
          forall i: u64 :: i >= min && (exists k :: 0 <= k < n && keys[k] == ChunkKey(fileId, i)) ==> i in indices
      {
        var parsed := ParseChunkIdx(keys[n]);
        if wellFormed { PrefixedKey(keys[n]); }
        if parsed.Failure? { return Failure(parsed.error); }
        if parsed.value >= min {
          indices := indices + {parsed.value};
        }
        forall i: u64 | keys[n] == ChunkKey(fileId, i) ensures i == parsed.value {
          ParseChunkIdxInverts(fileId, i);
        }
      }
      if wellFormed {
        forall i | i in IndicesFrom(Stored(), min) ensures i in indices {
          var key := ChunkKey(fileId, i);
          PrefixScanExact(store.kv.Keys, fileId, key);
          assert key in PrefixKeys(store.kv, ChunkPrefix(fileId));
          assert key in keys;
        }
      }
      return Success(indices);
    }

    lemma PrefixedKey(key: bytes)
      requires WellFormed() && key in PrefixKeys(store.kv, ChunkPrefix(fileId))
      ensures ParseChunkIdx(key).Success? && ParseChunkIdx(key).value in Stored()
    {
      PrefixScanExact(store.kv.Keys, fileId, key);
      var i: u64 :| key == ChunkKey(fileId, i);
      ParseChunkIdxInverts(fileId, i);
    }

    // -----------------------------------------------------------------------
    // Reading

    // Bytes no chunk covers read as zero; the buffer past `len` is left alone.
    // Reading what is staged does not depend on the store. A read that starts in
    // a gap is out of range instead, unless the store fails before that shows.
    method Read(buf: array<byte>, len: nat, offset: u64) returns (r: Result<()>)
      requires geometry.Valid() && len <= buf.Length && offset + len < U64_LIMIT
      modifies buf, store`faults
      ensures r == Failure(StoreFault) <==> store.faults != old(store.faults)
      ensures forall j :: len <= j < buf.Length ==> buf[j] == old(buf[j])
      ensures WellFormed() && r.Failure? ==> r.error == StoreFault || r.error == SliceOutOfRange
      ensures WellFormed() && r == Failure(StoreFault) ==>
        && Unstaged(Split(geometry, len, offset), pending) != []
        && (InGap(geometry, Shown(), offset) ==> Locate(geometry, offset).chunk !in pending)
      ensures WellFormed() && r == Failure(SliceOutOfRange) ==> InGap(geometry, Shown(), offset)
      ensures WellFormed() && r.Success? ==> len == 0 || !InGap(geometry, Shown(), offset)
      ensures WellFormed() && r.Success? ==>
        forall j :: 0 <= j < len ==> buf[j] == Byte(geometry, Shown(), offset + j)
    {
      hide Locate, Start, Capacity, Split, Tiles, Unstaged, CopySlices, Overlay, Byte, StoredChunks, WellFormedKeys, InGap, StartsPast;
      for n := 0 to len
        invariant store.faults == old(store.faults)
        invariant forall j :: 0 <= j < buf.Length ==> buf[j] == if j < n then 0 else old(buf[j])
      {
        buf[n] := 0;
      }
      ghost var zeroed := buf[..];
      var slices := SplitIntoChunks(geometry, len, offset);
      GapOfFirst(slices, len, offset);
      var staged := CopyStaged(buf, len, offset, slices);
      if staged.Failure? { return Failure(staged.error); }
      var persisted := staged.value;
      ghost var first := buf[..];

      TilingChunksAscend(geometry, offset, slices, len);
      UnstagedAscends(slices, pending);
      var indices := IndicesOf(persisted);
      var fetched := ReadChunksFromStore(indices);
      assert persisted != [] ==> persisted[0] in slices;
      if fetched.Failure? { return Failure(fetched.error); }
      if WellFormed() && len > 0 && slices[0] in persisted {
        FetchedStarts(persisted, fetched.value, Stored(), slices[0]);
      }
      var copied := CopyFetched(buf, len, offset, slices, persisted, fetched.value);
      if copied.Failure? { return Failure(copied.error); }
      if WellFormed() {
        FetchedMatches(persisted, fetched.value, Stored());
        forall j | 0 <= j < len ensures buf[..][j] == Byte(geometry, Shown(), offset + j) {
          TwoPassRead(geometry, Stored(), pending, offset, len, fetched.value, zeroed, j);
        }
      }
      return Success(());
    }

    // A read starts in a gap when its first slice starts past the end of its
    // chunk, as staged, or else as stored.
    lemma GapOfFirst(slices: seq<ChunkSlice>, len: nat, offset: u64)
      requires geometry.Valid() && offset + len < U64_LIMIT && slices == Split(geometry, len, offset)
      ensures len > 0 <==> slices != []
      ensures len > 0 ==>
        && slices[0].chunkIdx == Locate(geometry, offset).chunk
        && (InGap(geometry, Shown(), offset)
            <==> if slices[0].chunkIdx in pending then StartsPast(slices[0], Overlay(map[], pending))
                 else StartsPast(slices[0], Stored()))
        && (StartsPast(slices[0], Overlay(map[], pending)) ==> slices[0].chunkIdx in pending)
    {
      hide Locate, Start, Capacity, Split, StoredChunks, Overlay;
      SplitTiles(geometry, len, offset);
      if len > 0 {
        StartsPastIff(geometry, len, offset, Shown(), slices[0]);
        StartsPastOverlay(Stored(), pending, slices[0]);
      }
    }

    // Fill the buffer from the staged chunks; the slices of the others are left
    // for the store.
    method CopyStaged(buf: array<byte>, len: nat, offset: u64, slices: seq<ChunkSlice>) returns (r: Result<seq<ChunkSlice>>)
      requires geometry.Valid() && len <= buf.Length && offset + len < U64_LIMIT && slices == Split(geometry, len, offset)
      modifies buf
      ensures forall j :: len <= j < buf.Length ==> buf[j] == old(buf[j])
      ensures r.Success? ==>
        && buf[..] == CopySlices(old(buf[..]), slices, Overlay(map[], pending))
        && r.value == Unstaged(slices, pending)
      ensures r.Failure? ==> r.error == SliceOutOfRange
      ensures r.Failure? <==> slices != [] && StartsPast(slices[0], Overlay(map[], pending))
    {
      hide Tiles, CopySlice, CopySlices, Unstaged, Split, Locate, InGap, StartsPast, Overlay, ChunkAt;
      var persisted: seq<ChunkSlice> := [];
      SplitTiles(geometry, len, offset);
      TilingBounds(geometry, offset, slices, 0, len);
      CopyNone(buf[..], slices, Overlay(map[], pending), pending);
      for n := 0 to |slices|
        invariant buf[..] == CopySlices(old(buf[..]), slices[..n], Overlay(map[], pending))
        invariant persisted == Unstaged(slices[..n], pending)
        invariant n > 0 ==> !StartsPast(slices[0], Overlay(map[], pending))
        invariant forall j :: len <= j < buf.Length ==> buf[j] == old(buf[j])
      {
        var slice := slices[n];
        CopySlicesNext(old(buf[..]), slices, n, Overlay(map[], pending));
        UnstagedNext(slices, n, pending);
        StartsPastIff(geometry, len, offset, Overlay(map[], pending), slice);
        StagedChunk(pending, slice);
        if slice.chunkIdx in pending && pending[slice.chunkIdx].Written? {
          var copied := CopyChunkInto(buf, slice, pending[slice.chunkIdx].data);
          if copied.Failure? { return Failure(copied.error); }
        } else {
          CopyNothing(buf[..], slice);
          if slice.chunkIdx !in pending {
            persisted := persisted + [slice];
          }
        }
      }
      assert slices[..|slices|] == slices;
      return Success(persisted);
    }

    method CopyFetched(
      buf: array<byte>, len: nat, offset: u64, slices: seq<ChunkSlice>, persisted: seq<ChunkSlice>, chunks: map<u64, bytes>)
      returns (r: Result<()>)
      requires geometry.Valid() && len <= buf.Length && offset + len < U64_LIMIT && slices == Split(geometry, len, offset)
      requires forall s :: s in persisted ==> s in slices
      modifies buf
      ensures forall j :: len <= j < buf.Length ==> buf[j] == old(buf[j])
      ensures r.Success? ==> buf[..] == CopySlices(old(buf[..]), persisted, chunks)
      ensures r.Failure? ==> r.error == SliceOutOfRange
      ensures r.Failure? <==> slices != [] && slices[0] in persisted && StartsPast(slices[0], chunks)
    {
      hide Tiles, CopySlice, Split, Locate, InGap;
      SplitTiles(geometry, len, offset);
      TilingBounds(geometry, offset, slices, 0, len);
      for n := 0 to |persisted|
        invariant buf[..] == CopySlices(old(buf[..]), persisted[..n], chunks)
        invariant forall k :: 0 <= k < n ==> !StartsPast(persisted[k], chunks)
        invariant forall j :: len <= j < buf.Length ==> buf[j] == old(buf[j])
      {
        var slice := persisted[n];
        assert slice in slices;
        assert persisted[..n + 1][..n] == persisted[..n];
        StartsPastIff(geometry, len, offset, chunks, slice);
        if slice.chunkIdx in chunks {
          var copied := CopyChunkInto(buf, slice, chunks[slice.chunkIdx]);
          if copied.Failure? { return Failure(copied.error); }
        } else {
          CopyNothing(buf[..], slice);
        }
      }
      assert persisted[..|persisted|] == persisted;
      return Success(());
    }

    // -----------------------------------------------------------------------
    // Writing

    // `staged` slices were staged: all of them, or those before the one whose
    // old bytes could not be read.
    method Write(data: bytes, offset: u64) returns (r: Result<()>, ghost staged: nat)
      requires geometry.Valid() && offset + |data| < U64_LIMIT
      requires WithinCapacity(geometry, Shown())
      modifies this`pending, store`faults
      ensures r == Failure(StoreFault) <==> store.faults != old(store.faults)
      ensures staged <= |Split(geometry, |data|, offset)|
      ensures pending == Staged(geometry, Stored(), old(pending), data, offset, staged)
      ensures WithinCapacity(geometry, Shown())
      ensures r.Success? ==> staged == |Split(geometry, |data|, offset)|
      ensures r.Failure? ==>
        && r.error == StoreFault
        && staged < |Split(geometry, |data|, offset)|
        && NeedsFetch(geometry, old(pending), Split(geometry, |data|, offset)[staged])
    {
      hide Locate, Start, Capacity, Splice, Split, Staged, Overlay, Padded, SliceData, WithinCapacity, InChunk, Tiles;
      var slices := SplitIntoChunks(geometry, |data|, offset);
      TilingBounds(geometry, offset, slices, 0, |data|);
      StagedNone(geometry, Stored(), pending, data, offset);
      for n := 0 to |slices|
        invariant store.faults == old(store.faults)
        invariant pending == Staged(geometry, Stored(), old(pending), data, offset, n)
        invariant pending.Keys >= old(pending).Keys
        invariant WithinCapacity(geometry, Shown())
      {
        SliceInChunk(geometry, offset, slices, 0, |data|, n);
        var one := WriteOneSlice(slices[n], data, offset);
        if one.Failure? { return Failure(one.error), n; }
        StagedStep(geometry, Stored(), old(pending), data, offset, n);
      }
      return Success(()), |slices|;
    }

    // One turn of the write loop.
    method WriteOneSlice(slice: ChunkSlice, data: bytes, ghost offset: u64) returns (r: Result<()>)
      requires geometry.Valid() && InChunk(geometry, offset, slice) && slice.bufOffset + slice.len <= |data|
      requires WithinCapacity(geometry, Shown())
      modifies this`pending, store`faults
      ensures r == Failure(StoreFault) <==> store.faults != old(store.faults)
      ensures r.Failure? ==> r.error == StoreFault && NeedsFetch(geometry, pending, slice) && pending == old(pending)
      ensures r.Success? ==>
        pending == old(pending)[slice.chunkIdx :=
          Written(Splice(ChunkAt(old(Shown()), slice.chunkIdx), slice.chunkOffset, SliceData(slice, data)))]
      ensures WithinCapacity(geometry, Shown())
    {
      hide Locate, Start, Splice, Overlay, Padded, WithinCapacity, Capacity, SliceData, StoredChunks;
      var requiredLen := slice.chunkOffset + slice.len;
      var fetched := ChunkToOverwrite(slice, data, offset);
      if fetched.Failure? { return Failure(fetched.error); }
      var chunk := fetched.value;
      SpliceParts(chunk, slice.chunkOffset, SliceData(slice, data));
      if |chunk| < requiredLen {
        chunk := Padded(chunk, requiredLen);
      } else {
        PaddedEnough(chunk, requiredLen);
      }
      SliceDataIs(slice, data);
      chunk := chunk[..slice.chunkOffset] + data[slice.bufOffset..slice.bufOffset + slice.len] + chunk[requiredLen..];
      StageWithinCapacity(geometry, Stored(), pending, offset, slice, data);
      pending := pending[slice.chunkIdx := Written(chunk)];
      return Success(());
    }

    // The bytes a slice is written over: fresh zeros when it covers its whole
    // chunk, which comes to the same as fetching the old ones.
    method ChunkToOverwrite(slice: ChunkSlice, data: bytes, ghost offset: u64) returns (r: Result<bytes>)
      requires geometry.Valid() && InChunk(geometry, offset, slice) && slice.bufOffset + slice.len <= |data|
      requires WithinCapacity(geometry, Shown())
      modifies store`faults
      ensures r == Failure(StoreFault) <==> store.faults != old(store.faults)
      ensures r.Failure? ==> r.error == StoreFault && NeedsFetch(geometry, pending, slice)
      ensures r.Success? ==>
        Splice(r.value, slice.chunkOffset, SliceData(slice, data))
        == Splice(ChunkAt(Shown(), slice.chunkIdx), slice.chunkOffset, SliceData(slice, data))
    {
      hide Locate, Start, Splice, Overlay, Padded;
      if slice.chunkOffset == 0 && slice.len == geometry.chunkSize {
        WholeChunkExact(ChunkAt(Shown(), slice.chunkIdx), SliceData(slice, data));
        return Success(Zeros(geometry.chunkSize));
      }
      r := ChunkContents(slice.chunkIdx);
    }

    // -----------------------------------------------------------------------
    // Truncating

    method MarkChunksDeleted(indices: set<u64>)
      modifies this`pending
      ensures pending == MarkDeleted(old(pending), indices)
    {
      pending := MarkDeleted(pending, indices);
    }

    // Both store reads come before the first change, so a failed truncation
    // changes nothing.
    method Truncate(newSize: u64) returns (r: Result<()>)
      requires geometry.Valid()
      modifies this`pending, store`faults
      ensures r == Failure(StoreFault) <==> store.faults != old(store.faults)
      ensures WellFormed() && r.Failure? ==> r.error == StoreFault
      ensures r.Failure? ==> pending == old(pending)
      ensures WellFormed() && r.Success? ==> pending == TruncatePending(geometry, Stored(), old(pending), newSize)
    {
      hide Locate, Start, Capacity, Split, IndicesFrom, MarkDeleted, ShortenLast;
      if newSize == 0 {
        var doomed := CollectPersistedChunkIndices(0);
        if doomed.Failure? { return Failure(doomed.error); }
        pending := map[];
        MarkChunksDeleted(doomed.value);
        return Success(());
      }

      var slices := SplitIntoChunks(geometry, 1, newSize - 1);
      SplitOneByte(geometry, newSize - 1);
      var lastChunk, lastLen := slices[0].chunkIdx, slices[0].chunkOffset + 1;
      var shortened: Option<bytes> := None;
      if lastChunk !in pending {
        var persisted := ReadChunkFromStore(lastChunk);
        if persisted.Failure? { return Failure(persisted.error); }
        if |persisted.value| > lastLen {
          shortened := Some(persisted.value[..lastLen]);
        }
      }
      var doomed := CollectPersistedChunkIndices(lastChunk + 1);
      if doomed.Failure? { return Failure(doomed.error); }

      StageShortened(lastChunk, lastLen, shortened);
      MarkChunksDeleted(doomed.value);
      return Success(());
    }

    // Drop what is staged past the new last chunk and cut that one short.
    method StageShortened(lastChunk: u64, lastLen: nat, shortened: Option<bytes>)
      requires shortened == if lastChunk !in pending && lastChunk in Stored() && |Stored()[lastChunk]| > lastLen
                            then Some(Stored()[lastChunk][..lastLen]) else None
      modifies this`pending
      ensures pending == ShortenLast(Stored(), Kept(old(pending), lastChunk), lastChunk, lastLen)
    {
      pending := Kept(pending, lastChunk);
      if lastChunk in pending && pending[lastChunk].Written? {
        if |pending[lastChunk].data| > lastLen {
          pending := pending[lastChunk := Written(pending[lastChunk].data[..lastLen])];
        }
      } else if shortened.Some? {
        pending := pending[lastChunk := Written(shortened.value)];
      }
    }

    // -----------------------------------------------------------------------
    // Flushing

    method AddPendingToBatch(batch: Batch) returns (r: Batch)
      ensures r == batch + PendingBatch(fileId, pending)
    {
      hide ChunkKey, PendingBatch, ChangeFor;
      r := batch;
      var rest := pending.Keys;
      PendingBatchNone(fileId);
      ghost var done: Pending := map[];
      while rest != {}
        invariant rest <= pending.Keys && done.Keys == pending.Keys - rest
        invariant forall i :: i in done ==> done[i] == pending[i]
        invariant r == batch + PendingBatch(fileId, done)
        decreases rest
      {
        var i :| i in rest;
        PendingBatchAdd(fileId, done, i, pending[i]);
        r := r[ChunkKey(fileId, i) := ChangeFor(pending[i])];
        rest, done := rest - {i}, done[i := pending[i]];
      }
      assert done == pending;
    }

    method MarkFlushed()
      modifies this`pending
      ensures pending == map[]
    {
      pending := map[];
    }
  }
}
