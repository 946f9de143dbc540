// Reads that go out of range: exactly when they do, a run that reaches one, and
// the runs that never do (rust/src/chunk_manager.rs:335-342).
module ReadGaps {
  import opened Bytes
  import opened Chunks
  import opened FileFlags
  import opened FileHandle
  import opened FileRuns
  import opened FlatFile
  import opened Geometry
  import opened Images
  import opened KvStore
  import opened Tapes

  // A read inside the file can deliver its bytes exactly when it does not start
  // in a gap, and goes out of range exactly when it does.
  lemma ReadDeliversIff(kv: Kv, h: Handle, f: Flat, len: nat, offset: u64)
    requires Represents(kv, h, f) && h.flags.read && len > 0 && offset < h.size
    ensures PReadStep(kv, h, len, offset, Data(ReadAt(f, len, offset))) <==> !InGap(h.geometry, Shown(kv, h), offset)
    ensures PReadStep(kv, h, len, offset, Rejected(SliceOutOfRange)) <==> InGap(h.geometry, Shown(kv, h), offset)
  {
    hide Locate, Shown, InGap, Split, Unstaged;
    ReadRefines(kv, h, f, len, offset);
  }

  // A file has no position in a gap exactly when each of its chunks lacks at
  // most one byte of what the chunk has room for, or the file has left for it.
  lemma GapFreeIff(g: Geometry, chunks: ChunkMap, size: nat)
    requires g.Valid()
    ensures (forall p: nat :: p < size ==> !InGap(g, chunks, p))
       <==> (forall i :: i in chunks && Start(g, i) < size ==> |chunks[i]| + 1 >= Min(Capacity(g, i), size - Start(g, i)))
  {
    if i :| i in chunks && Start(g, i) < size && |chunks[i]| + 1 < Min(Capacity(g, i), size - Start(g, i)) {
      LocateUnique(g, i, |chunks[i]| + 1);
      assert InGap(g, chunks, Start(g, i) + |chunks[i]| + 1);
    } else {
      forall p: nat | p < size ensures !InGap(g, chunks, p) { LocateSound(g, p); }
    }
  }

  // -------------------------------------------------------------------------
  // Files without holes

  // Every byte below `end` is in a chunk that reaches it.
  ghost predicate Dense(g: Geometry, chunks: ChunkMap, end: nat)
    requires g.Valid()
  {
    forall p: nat :: p < end ==> Backed(g, chunks, p)
  }

  predicate Backed(g: Geometry, chunks: ChunkMap, position: nat)
    requires g.Valid()
  {
    var l := Locate(g, position);
    l.chunk < U64_LIMIT && l.chunk in chunks && l.offset < |chunks[l.chunk]|
  }

  lemma WriteSliceDense(g: Geometry, chunks: ChunkMap, offset: nat, s: ChunkSlice, data: bytes, end: nat)
    requires g.Valid() && InChunk(g, offset, s) && s.bufOffset + s.len <= |data|
    requires Dense(g, chunks, end) && offset + s.bufOffset <= end
    ensures Dense(g, WriteSlice(chunks, s, data), Max(end, offset + s.bufOffset + s.len))
  {
    hide Locate, Start, Capacity, InChunk, Splice;
    var after := WriteSlice(chunks, s, data);
    forall p: nat | p < Max(end, offset + s.bufOffset + s.len) ensures Backed(g, after, p) {
      SliceOwns(g, offset, s, p);
      if p < end { assert Backed(g, chunks, p); }
    }
  }

  lemma {:induction false} StageSlicesDense(
    g: Geometry, stored: ChunkMap, pending: Pending, offset: nat, slices: seq<ChunkSlice>, data: bytes, n: nat, tape: bytes)
    requires g.Valid() && n <= |slices| && Tiles(g, offset, slices, 0, |data|) && offset <= |tape|
    requires forall i :: 0 <= i < |slices| ==> slices[i].bufOffset + slices[i].len <= |data|
    requires Dense(g, Overlay(stored, pending), |tape|)
    ensures Covered(slices, n) <= |data|
    ensures Dense(g, Overlay(stored, StageSlices(stored, pending, slices[..n], data)),
      |Overwritten(tape, offset, data, Covered(slices, n))|)
    decreases n
  {
    hide Splice, Locate, WriteSlice, StageSlices, Dense, Start, Capacity, Overlay;
    if n == 0 {
      assert slices[..0] == [];
      StageNone(stored, pending, data);
    } else {
      StageSlicesDense(g, stored, pending, offset, slices, data, n - 1, tape);
      var s := slices[n - 1];
      var half := Overwritten(tape, offset, data, Covered(slices, n - 1));
      assert InChunk(g, offset, s);
      assert s.bufOffset == Covered(slices, n - 1) by {
        if n > 1 { assert Follows(slices[n - 2], slices[n - 1]); }
      }
      StageSlicesLast(stored, pending, slices[..n], data);
      assert slices[..n][..n - 1] == slices[..n - 1];
      WriteSliceDense(g, Overlay(stored, StageSlices(stored, pending, slices[..n - 1], data)), offset, s, data, |half|);
    }
  }

  lemma CutDense(g: Geometry, chunks: ChunkMap, end: nat, size: nat)
    requires g.Valid() && Dense(g, chunks, end) && size <= end
    ensures Dense(g, Cut(g, chunks, size), size)
  {
    hide Locate;
    forall p: nat | p < size ensures Backed(g, Cut(g, chunks, size), p) {
      assert Backed(g, chunks, p);
      LocateOrder(g, p, size - 1);
    }
  }

  // -------------------------------------------------------------------------
  // Runs that never leave a hole

  // Writes start inside the file or at its end, and truncations do not grow it.
  predicate LeavesNoHole(flags: Flags, f: Flat, op: Op) {
    match op
    case PWrite(_, offset) => offset <= f.size
    case Write(_) => WriteOffset(flags, f) <= f.size
    case Truncate(size) => size <= f.size
    case _ => true
  }

  ghost predicate DenseFile(kv: Kv, h: Handle, f: Flat) {
    Represents(kv, h, f) && Dense(h.geometry, Shown(kv, h), |f.tape|)
  }

  lemma PWriteDense(kv: Kv, h: Handle, f: Flat, data: bytes, offset: u64, reply: Reply, h': Handle)
    requires DenseFile(kv, h, f) && PWriteStep(kv, h, data, offset, reply, h') && offset <= f.size
    ensures AllowsWrite(h.flags, data, offset, reply)
    ensures DenseFile(kv, h', AfterWrite(f, data, offset, reply))
  {
    hide Split, Overlay, StoredChunks, Shows, Fits, Splice, Staged, Dense;
    PWriteRefines(kv, h, f, data, offset, reply, h');
    if h.flags.write && data != [] && offset + |data| < U64_LIMIT {
      var slices := Split(h.geometry, |data|, offset);
      if reply == Done {
        StagedDense(kv, h, f, data, offset, |slices|);
        CoveredAll(h.geometry, |data|, offset);
        assert data[..|data|] == data;
      } else {
        var n: nat :| FailsAt(h, data, offset, n) && reply == Faulted(Covered(slices, n))
          && h' == h.(pending := Staged(h.geometry, StoredChunks(kv, h.fileId), h.pending, data, offset, n));
        StagedDense(kv, h, f, data, offset, n);
      }
    }
  }

  lemma StagedDense(kv: Kv, h: Handle, f: Flat, data: bytes, offset: u64, n: nat)
    requires DenseFile(kv, h, f) && offset <= f.size && offset + |data| < U64_LIMIT
    requires n <= |Split(h.geometry, |data|, offset)|
    ensures Covered(Split(h.geometry, |data|, offset), n) <= |data|
    ensures var stored := StoredChunks(kv, h.fileId);
      Dense(h.geometry, Overlay(stored, Staged(h.geometry, stored, h.pending, data, offset, n)),
        |Overwritten(f.tape, offset, data, Covered(Split(h.geometry, |data|, offset), n))|)
  {
    hide Split, Overlay, StoredChunks, Shows, Fits, Overwritten, Dense;
    var slices := Split(h.geometry, |data|, offset);
    SplitTiles(h.geometry, |data|, offset);
    TilingBounds(h.geometry, offset, slices, 0, |data|);
    StageSlicesDense(h.geometry, StoredChunks(kv, h.fileId), h.pending, offset, slices, data, n, f.tape);
  }

  // Such a step keeps a file without holes, and is not out of range.
  lemma StepKeepsDense(kv: Kv, h: Handle, f: Flat, op: Op, reply: Reply, kv': Kv, h': Handle)
    requires DenseFile(kv, h, f) && HandleStep(kv, h, op, reply, kv', h') && LeavesNoHole(h.flags, f, op)
    ensures reply != Rejected(SliceOutOfRange)
    ensures Allows(h.flags, f, op, reply) && DenseFile(kv', h', Next(h.flags, f, op, reply))
  {
    hide Overlay, StoredChunks, Shows, Fits, ShownBytes, InGap, Dense, Splice, Padded, Split, Staged, TruncatePending, Apply, SyncBatch;
    HandleRefinesFlat(kv, h, f, op, reply, kv', h');
    match op
    case PRead(len, offset) => if offset < h.size { NoGapInside(kv, h, f, offset); }
    case Read(len) => if h.position < h.size { NoGapInside(kv, h, f, h.position); }
    case PWrite(data, offset) => PWriteDense(kv, h, f, data, offset, reply, h');
    case Write(data) =>
      var offset := if h.flags.append then h.size else h.position;
      PWriteDense(kv, h, f, data, offset, reply, h'.(position := h.position));
    case Truncate(size) => TruncateDense(kv, h, f, size, reply, h');
    case Sync => SyncShows(kv, h, reply, kv', h');
    case _ =>
  }

  lemma NoGapInside(kv: Kv, h: Handle, f: Flat, offset: nat)
    requires DenseFile(kv, h, f) && offset < h.size
    ensures !InGap(h.geometry, Shown(kv, h), offset)
  {
    hide Shown, Shows, Fits;
    assert Backed(h.geometry, Shown(kv, h), offset);
  }

  lemma TruncateDense(kv: Kv, h: Handle, f: Flat, size: u64, reply: Reply, h': Handle)
    requires DenseFile(kv, h, f) && TruncateStep(kv, h, size, reply, h') && size <= f.size
    ensures Allows(h.flags, f, Truncate(size), reply)
    ensures Dense(h'.geometry, Shown(kv, h'), |Next(h.flags, f, Truncate(size), reply).tape|)
  {
    hide Overlay, StoredChunks, Shows, Fits, TruncatePending, Cut, Dense;
    if h.flags.write && reply == Done && size < h.size {
      TruncateIsCut(h.geometry, StoredChunks(kv, h.fileId), h.pending, size);
      CutDense(h.geometry, Shown(kv, h), |f.tape|, size);
    } else if size == f.size {
      PaddedEnough(f.tape, size);
    }
  }

  ghost predicate NeverLeavesHole(flags: Flags, f: Flat, events: seq<Event>)
    requires f.Valid()
  {
    forall n :: 0 <= n < |events| && events[n].Own? ==>
      var g := Follow(flags, f, events[..n]);
      g.Some? ==> LeavesNoHole(flags, g.value, events[n].op)
  }

  // Over every run that leaves no hole, from a file without one, no read ever
  // goes out of range, whatever the faults.
  lemma {:induction false} DenseRunsStayInRange(states: seq<Snapshot>, events: seq<Event>, f: Flat)
    requires IsRun(states, events) && DenseFile(states[0].kv, states[0].handle, f)
    requires f.Valid() && NeverLeavesHole(states[0].handle.flags, f, events)
    ensures forall n :: 0 <= n < |events| && events[n].Own? ==> events[n].reply != Rejected(SliceOutOfRange)
    ensures var end := Follow(states[0].handle.flags, f, events);
      end.Some? && DenseFile(states[|events|].kv, states[|events|].handle, end.value)
    decreases |events|
  {
    hide HandleStep, Represents, Dense, LeavesNoHole, Allows, Next, ImageOf;
    if events != [] {
      var n := |events| - 1;
      assert IsRun(states[..n + 1], events[..n]);
      forall m | 0 <= m < n ensures events[..n][m] == events[m] && events[..n][..m] == events[..m] {
      }
      assert NeverLeavesHole(states[0].handle.flags, f, events[..n]);
      DenseRunsStayInRange(states[..n + 1], events[..n], f);
      RunKeepsIdentity(states[..n + 1], events[..n]);
      var a, b := states[n], states[n + 1];
      var g := Follow(states[0].handle.flags, f, events[..n]).value;
      assert EventStep(a, events[n], b);
      match events[n]
      case Own(op, reply) => StepKeepsDense(a.kv, a.handle, g, op, reply, b.kv, b.handle);
      case Others => RepresentsFrame(a.kv, b.kv, a.handle, g); ShownFrame(a, b);
    }
    forall n | 0 <= n < |events| && events[n].Own? ensures events[n].reply != Rejected(SliceOutOfRange) {
      if n < |events| - 1 { assert events[..|events| - 1][n] == events[n]; }
    }
  }

  lemma ShownFrame(a: Snapshot, b: Snapshot)
    requires b.handle == a.handle && b.Image() == a.Image()
    ensures Shown(b.kv, b.handle) == Shown(a.kv, a.handle)
  {
    hide StoredChunks, Overlay;
  }

  // A new file has no hole.
  lemma EmptyIsDense(g: Geometry, chunks: ChunkMap)
    requires g.Valid()
    ensures Dense(g, chunks, 0)
  {
  }

  // -------------------------------------------------------------------------
  // A run that goes out of range

  // Growing a file is meant to show zeros. In a new file of 8-byte chunks three
  // bytes are written and the file grown to 8; the byte after them reads as
  // zero, but a read from the byte after that is out of range, with no fault.
  const GAP_FLAGS := Flags(true, true, true, false, false)
  const GAP_START := Handle(ReadWrite, 1, Geometry(8, 0), map[], 0, 0, false, GAP_FLAGS)
  const GAP_DATA: bytes := [1, 2, 3]

  lemma GapSlices()
    ensures Split(Geometry(8, 0), 3, 0) == [ChunkSlice(0, 0, 0, 3)]
  {
    hide SplitFrom;
    var g := Geometry(8, 0);
    assert SliceAt(g, 3, 0, 0) == ChunkSlice(0, 0, 0, 3);
    hide SliceAt;
    SplitStep(g, 3, 0, 0);
    SplitDone(g, 3, 0);
  }

  lemma GapStaged()
    ensures |Split(Geometry(8, 0), 3, 0)| == 1
    ensures Staged(Geometry(8, 0), map[], map[], GAP_DATA, 0, 1) == map[0 := Written(GAP_DATA)]
  {
    hide Split, Locate, Staged;
    GapSlices();
    StagedNone(Geometry(8, 0), map[], map[], GAP_DATA, 0);
    StagedStep(Geometry(8, 0), map[], map[], GAP_DATA, 0, 0);
    assert Splice([], 0, GAP_DATA) == GAP_DATA;
  }

  lemma GapWritten() returns (written: Handle)
    ensures HandleStep(map[], GAP_START, PWrite(GAP_DATA, 0), Done, map[], written)
    ensures written == GAP_START.(pending := map[0 := Written(GAP_DATA)], size := 3, dirty := true)
  {
    hide Split, Locate, Staged;
    GapSlices();
    GapStaged();
    assert StoredChunks(map[], 1) == map[];
    written := GAP_START.(pending := map[0 := Written(GAP_DATA)], size := 3, dirty := true);
  }

  lemma GapWitness() returns (written: Handle, grown: Handle)
    ensures written.geometry == grown.geometry == Geometry(8, 0)
    ensures HandleStep(map[], GAP_START, PWrite(GAP_DATA, 0), Done, map[], written)
    ensures HandleStep(map[], written, Truncate(8), Done, map[], grown)
    ensures !InGap(grown.geometry, Shown(map[], grown), 3) && InGap(grown.geometry, Shown(map[], grown), 4)
    ensures forall reply :: PReadStep(map[], grown, 2, 4, reply) <==> reply == Rejected(SliceOutOfRange)
  {
    hide HandleStep, PReadStep, InGap, Shown, Locate;
    written := GapWritten();
    grown := GapGrown(written);
    ShownWritten(grown);
    GapPositions();
    GapRead(grown);
  }

  lemma GapGrown(written: Handle) returns (grown: Handle)
    requires written.geometry.Valid() && written.flags.write && written.size == 3
    ensures grown == written.(size := 8, dirty := true)
    ensures HandleStep(map[], written, Truncate(8), Done, map[], grown)
  {
    hide TruncatePending, StoredChunks;
    grown := written.(size := 8, dirty := true);
  }

  lemma GapPositions()
    ensures var g := Geometry(8, 0);
      Locate(g, 4).chunk == 0 && !InGap(g, map[0 := GAP_DATA], 3) && InGap(g, map[0 := GAP_DATA], 4)
  {
  }

  lemma GapRead(h: Handle)
    requires h.geometry == Geometry(8, 0) && h.flags.read && h.size == 8 && 0 in h.pending
    requires Locate(h.geometry, 4).chunk == 0 && InGap(h.geometry, Shown(map[], h), 4)
    ensures forall reply :: PReadStep(map[], h, 2, 4, reply) <==> reply == Rejected(SliceOutOfRange)
  {
    hide Locate, InGap, Shown, ShownBytes, Split, Unstaged;
  }

  lemma ShownWritten(h: Handle)
    requires h.pending == map[0 := Written(GAP_DATA)]
    ensures Shown(map[], h) == map[0 := GAP_DATA]
  {
  }
}
