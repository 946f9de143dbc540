// Where a write can fail, and what a failed write can leave behind.
module WriteFaults {
  import opened Bytes
  import opened Chunks
  import opened FileFlags
  import opened FileHandle
  import opened FlatFile
  import opened Geometry
  import opened Images
  import opened Metadata
  import opened Tapes

  // The slice of a write that is neither first nor last covers its whole chunk,
  // so its chunk is never read: a write can only fail at one of its two ends.
  lemma FailsOnlyAtEnds(h: Handle, data: bytes, offset: u64, n: nat)
    requires h.geometry.Valid() && offset + |data| < U64_LIMIT && FailsAt(h, data, offset, n)
    ensures n == 0 || n == |Split(h.geometry, |data|, offset)| - 1
  {
    hide Split, Locate;
    var slices := Split(h.geometry, |data|, offset);
    SplitTiles(h.geometry, |data|, offset);
    if 0 < n < |slices| - 1 {
      assert Follows(slices[n - 1], slices[n]) && Follows(slices[n], slices[n + 1]);
      SliceInChunk(h.geometry, offset, slices, 0, |data|, n);
      SliceInChunk(h.geometry, offset, slices, 0, |data|, n + 1);
      StartOfNext(h.geometry, slices[n].chunkIdx);
    }
  }

  // The one slice whose failure finds other slices already staged.
  predicate LastSliceFetches(h: Handle, data: bytes, offset: u64)
    requires h.geometry.Valid() && offset + |data| < U64_LIMIT
  {
    var slices := Split(h.geometry, |data|, offset);
    |slices| > 1 && NeedsFetch(h.geometry, h.pending, slices[|slices| - 1])
  }

  // A write is all or nothing under every fault exactly when its last slice
  // needs no fetch: it fills its chunk, the chunk is staged, or it is the first.
  lemma WriteAtomicIff(h: Handle, data: bytes, offset: u64)
    requires h.geometry.Valid() && offset + |data| < U64_LIMIT
    ensures (forall n :: FailsAt(h, data, offset, n) ==> Covered(Split(h.geometry, |data|, offset), n) == 0)
       <==> !LastSliceFetches(h, data, offset)
  {
    hide Split;
    var slices := Split(h.geometry, |data|, offset);
    SplitTiles(h.geometry, |data|, offset);
    if LastSliceFetches(h, data, offset) {
      var n := |slices| - 1;
      assert FailsAt(h, data, offset, n);
      SliceInChunk(h.geometry, offset, slices, 0, |data|, n - 1);
      assert Covered(slices, n) > 0;
    } else {
      forall n | FailsAt(h, data, offset, n) ensures Covered(slices, n) == 0 {
        FailsOnlyAtEnds(h, data, offset, n);
      }
    }
  }

  // A failed write can leave bytes past the end of the file exactly when its
  // last slice needs a fetch and starts past the end.
  lemma WriteSpillsIff(h: Handle, f: Flat, data: bytes, offset: u64)
    requires h.geometry.Valid() && h.size == f.size && offset + |data| < U64_LIMIT
    ensures var slices := Split(h.geometry, |data|, offset);
      (exists n :: FailsAt(h, data, offset, n) && Spills(h.flags, f, PWrite(data, offset), Faulted(Covered(slices, n))))
      <==> LastSliceFetches(h, data, offset) && offset + Covered(slices, |slices| - 1) > h.size
  {
    hide Split;
    var slices := Split(h.geometry, |data|, offset);
    SplitTiles(h.geometry, |data|, offset);
    var op := PWrite(data, offset);
    forall n | FailsAt(h, data, offset, n) && Spills(h.flags, f, op, Faulted(Covered(slices, n)))
      ensures LastSliceFetches(h, data, offset) && offset + Covered(slices, |slices| - 1) > h.size
    {
      FailsOnlyAtEnds(h, data, offset, n);
    }
    if LastSliceFetches(h, data, offset) && offset + Covered(slices, |slices| - 1) > h.size {
      var n := |slices| - 1;
      assert FailsAt(h, data, offset, n);
      SliceInChunk(h.geometry, offset, slices, 0, |data|, n - 1);
      assert Spills(h.flags, f, op, Faulted(Covered(slices, n)));
    }
  }

  // With the geometry of a new file the database's header is chunk 0 and each of
  // its blocks fills exactly one chunk, so writing a block never reads the store.
  const HEADER := 12288
  const BLOCK := 262144

  lemma BlockIsOneChunk(block: nat)
    requires HEADER + (block + 1) * BLOCK < U64_LIMIT
    ensures Split(NEW_METADATA.geometry, HEADER, 0) == [ChunkSlice(0, 0, 0, HEADER)]
    ensures Split(NEW_METADATA.geometry, BLOCK, HEADER + block * BLOCK) == [ChunkSlice(block + 1, 0, 0, BLOCK)]
  {
    hide Split;
    var g := NEW_METADATA.geometry;
    ChunkBoundaries(g, 0, block);
    OneSlice(g, HEADER, 0);
    OneSlice(g, BLOCK, HEADER + block * BLOCK);
  }

  // A range that fits into the rest of its first chunk is one slice.
  lemma OneSlice(g: Geometry, len: nat, offset: u64)
    requires g.Valid() && 0 < len && offset + len < U64_LIMIT
    requires Locate(g, offset).offset + len <= Capacity(g, Locate(g, offset).chunk)
    ensures Locate(g, offset).chunk <= offset
    ensures Split(g, len, offset) == [ChunkSlice(Locate(g, offset).chunk, 0, Locate(g, offset).offset, len)]
  {
    hide Locate;
    LocateSound(g, offset);
    SplitStep(g, len, offset, 0);
    SplitDone(g, len, offset);
  }

  lemma BlockWritesNeverFail(h: Handle, data: bytes, block: nat, n: nat)
    requires h.geometry == NEW_METADATA.geometry && |data| == BLOCK && HEADER + (block + 1) * BLOCK < U64_LIMIT
    ensures !FailsAt(h, data, HEADER + block * BLOCK, n)
  {
    hide Split;
    BlockIsOneChunk(block);
  }

  // The promise that growing a file adds zeros is not kept after such a write.
  // In a new file of 8-byte chunks a 10-byte write fails at its second chunk;
  // the file is still empty, but grown to 8 bytes it shows the write's data.
  const SPILL_FLAGS := Flags(true, true, true, false, false)
  const SPILL_DATA: bytes := [1, 2, 3, 4, 5, 6, 7, 8, 9, 10]
  const SPILL_START := Handle(ReadWrite, 1, Geometry(8, 0), map[], 0, 0, false, SPILL_FLAGS)

  lemma SpillSlices()
    ensures Split(Geometry(8, 0), 10, 0) == [ChunkSlice(0, 0, 0, 8), ChunkSlice(1, 8, 0, 2)]
  {
    hide SplitFrom;
    var g := Geometry(8, 0);
    assert SliceAt(g, 10, 0, 0) == ChunkSlice(0, 0, 0, 8);
    assert SliceAt(g, 10, 0, 8) == ChunkSlice(1, 8, 0, 2);
    hide SliceAt;
    SplitStep(g, 10, 0, 0);
    SplitStep(g, 10, 0, 8);
    SplitDone(g, 10, 0);
  }

  lemma SpillFails() returns (failed: Handle)
    ensures HandleStep(map[], SPILL_START, PWrite(SPILL_DATA, 0), Faulted(8), map[], failed)
    ensures failed.size == 0 && failed.flags == SPILL_FLAGS && failed.geometry == Geometry(8, 0)
    ensures Represents(map[], failed, Flat(SPILL_DATA[..8], 0, 0))
  {
    hide Split, Locate, StoredChunks, Overlay, Staged;
    var g, start := Geometry(8, 0), Flat([], 0, 0);
    SpillSlices();
    assert FailsAt(SPILL_START, SPILL_DATA, 0, 1);
    failed := SPILL_START.(pending := Staged(g, StoredChunks(map[], 1), map[], SPILL_DATA, 0, 1));
    EmptyRepresents();
    PWriteRefines(map[], SPILL_START, start, SPILL_DATA, 0, Faulted(8), failed);
    assert Overwritten([], 0, SPILL_DATA, 8) == SPILL_DATA[..8];
  }

  lemma EmptyRepresents()
    ensures Represents(map[], SPILL_START, Flat([], 0, 0))
  {
    hide Locate;
    assert Shown(map[], SPILL_START) == map[];
  }

  lemma SpillWitness() returns (failed: Handle, grown: Handle)
    ensures failed.geometry == grown.geometry == Geometry(8, 0)
    ensures HandleStep(map[], SPILL_START, PWrite(SPILL_DATA, 0), Faulted(8), map[], failed)
    ensures failed.size == 0
    ensures HandleStep(map[], failed, Truncate(8), Done, map[], grown)
    ensures ShownBytes(map[], grown, 8, 0) == SPILL_DATA[..8]
  {
    hide Split, Locate, StoredChunks, Overlay, ShownBytes, PWriteStep, Represents, Padded;
    failed := SpillFails();
    grown := failed.(size := 8, dirty := true);
    TruncateRefines(map[], failed, Flat(SPILL_DATA[..8], 0, 0), 8, Done, grown);
    PaddedEnough(SPILL_DATA[..8], 8);
    ReadRefines(map[], grown, Flat(SPILL_DATA[..8], 8, 0), 8, 0);
  }
}
