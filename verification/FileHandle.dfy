// The file handle: cursor, size and dirty state over the chunk overlay
// (rust/src/file_handle.rs), as a step relation on values, as a class proved to
// take only such steps, and as a refinement of the flat file.
module FileHandle {
  import opened Bytes
  import opened ChunkManager
  import opened Chunks
  import opened FileFlags
  import opened FlatFile
  import opened Geometry
  import opened Images
  import opened Keys
  import opened KvStore
  import opened Metadata
  import opened Tapes

  datatype Client = ReadWrite | ReadOnly

  datatype Handle = Handle(
    client: Client, fileId: u64, geometry: Geometry, pending: Pending,
    size: u64, position: u64, dirty: bool, flags: Flags)
  {
    function Record(): bytes { Encode(FileMetadata(size, geometry)) }

    // Nothing for a sync to do.
    predicate Clean() { pending == map[] && !dirty }
  }

  // with_chunk_store_internal
  function OpenHandle(client: Client, fileId: u64, m: FileMetadata, flags: Flags): (r: Result<Handle>)
    ensures r.Failure? ==> r.error == InvalidArgument || r.error == ReadOnlyViolation
  {
    if flags.Validate().Failure? then Failure(InvalidArgument)
    else if client.ReadOnly? && !flags.read then Failure(InvalidArgument)
    else if client.ReadOnly? && flags.write then Failure(ReadOnlyViolation)
    else if ValidatedGeometry(m).Failure? then Failure(InvalidArgument)
    else Success(Handle(client, fileId, m.geometry, map[], m.size, if flags.append then m.size else 0, false, flags))
  }

  ghost function Shown(kv: Kv, h: Handle): ChunkMap {
    Overlay(StoredChunks(kv, h.fileId), h.pending)
  }

  // -------------------------------------------------------------------------
  // Steps

  ghost function ShownBytes(kv: Kv, h: Handle, len: nat, offset: nat): bytes
    requires h.geometry.Valid()
  {
    seq<byte>(len, j requires 0 <= j < len => Byte(h.geometry, Shown(kv, h), offset + j))
  }

  // Some chunk of the range is not staged, so reading it takes the store.
  predicate ReadsStore(h: Handle, len: nat, offset: u64)
    requires h.geometry.Valid() && offset + len < U64_LIMIT
  {
    Unstaged(Split(h.geometry, len, offset), h.pending) != []
  }

  ghost predicate PReadStep(kv: Kv, h: Handle, len: nat, offset: u64, reply: Reply)
    requires h.geometry.Valid()
  {
    if !h.flags.read then reply == Rejected(InvalidArgument)
    else if len == 0 || offset >= h.size then reply == Data([])
    else
      var n := Min(h.size - offset, len);
      if InGap(h.geometry, Shown(kv, h), offset) then
        || reply == Rejected(SliceOutOfRange)
        || (reply == Faulted(0) && Locate(h.geometry, offset).chunk !in h.pending)
      else reply == Data(ShownBytes(kv, h, n, offset)) || (reply == Faulted(0) && ReadsStore(h, n, offset))
  }

  ghost predicate ReadStep(kv: Kv, h: Handle, len: nat, reply: Reply, h': Handle)
    requires h.geometry.Valid()
  {
    var available := Min(Max(h.size - h.position, 0), len);
    if available == 0 then reply == Data([]) && h' == h
    else
      && PReadStep(kv, h, available, h.position, reply)
      && (if reply.Data? then h.position + |reply.data| < U64_LIMIT && h' == h.(position := h.position + |reply.data|)
          else h' == h)
  }

  // The write stopped at slice `n`, whose chunk had to be read and was not.
  ghost predicate FailsAt(h: Handle, data: bytes, offset: u64, n: nat)
    requires h.geometry.Valid() && offset + |data| < U64_LIMIT
  {
    n < |Split(h.geometry, |data|, offset)| && NeedsFetch(h.geometry, h.pending, Split(h.geometry, |data|, offset)[n])
  }

  ghost predicate PWriteStep(kv: Kv, h: Handle, data: bytes, offset: u64, reply: Reply, h': Handle)
    requires h.geometry.Valid()
  {
    if !h.flags.write then reply == Rejected(ReadOnlyViolation) && h' == h
    else if data == [] then reply == Done && h' == h
    else if offset + |data| >= U64_LIMIT then reply == Rejected(InvalidArgument) && h' == h
    else
      var slices := Split(h.geometry, |data|, offset);
      var stored := StoredChunks(kv, h.fileId);
      || (reply == Done
          && h' == h.(pending := Staged(h.geometry, stored, h.pending, data, offset, |slices|),
                      size := Max(h.size, offset + |data|), dirty := true))
      || (exists n :: (
          && FailsAt(h, data, offset, n)
          && reply == Faulted(Covered(slices, n))
          && h' == h.(pending := Staged(h.geometry, stored, h.pending, data, offset, n))))
  }

  ghost predicate WriteStep(kv: Kv, h: Handle, data: bytes, reply: Reply, h': Handle)
    requires h.geometry.Valid()
  {
    var offset := if h.flags.append then h.size else h.position;
    && PWriteStep(kv, h, data, offset, reply, h'.(position := h.position))
    && h'.position == if reply.Done? then offset + |data| else h.position
  }

  ghost predicate TruncateStep(kv: Kv, h: Handle, size: u64, reply: Reply, h': Handle)
    requires h.geometry.Valid()
  {
    if !h.flags.write then reply == Rejected(ReadOnlyViolation) && h' == h
    else if size == h.size then reply == Done && h' == h
    else if size > h.size then reply == Done && h' == h.(size := size, dirty := true)
    else
      || (reply == Done
          && h' == h.(pending := TruncatePending(h.geometry, StoredChunks(kv, h.fileId), h.pending, size),
                      size := size, dirty := true))
      || (reply == Faulted(0) && h' == h)
  }

  // A failed sync leaves the database at the old state or the new one.
  ghost predicate SyncStep(kv: Kv, h: Handle, reply: Reply, kv': Kv, h': Handle) {
    var synced := Apply(kv, SyncBatch(h.fileId, h.pending, h.Record()));
    if h.Clean() then reply == Done && kv' == kv && h' == h
    else if h.client.ReadOnly? then reply == Rejected(ReadOnlyViolation) && kv' == kv && h' == h
    else
      || (reply == Done && kv' == synced && h' == h.(pending := map[], dirty := false))
      || (reply == Faulted(0) && (kv' == kv || kv' == synced) && h' == h)
  }

  ghost predicate HandleStep(kv: Kv, h: Handle, op: Op, reply: Reply, kv': Kv, h': Handle)
    requires h.geometry.Valid()
  {
    match op
    case PRead(len, offset) => PReadStep(kv, h, len, offset, reply) && kv' == kv && h' == h
    case PWrite(data, offset) => PWriteStep(kv, h, data, offset, reply, h') && kv' == kv
    case Read(len) => ReadStep(kv, h, len, reply, h') && kv' == kv
    case Write(data) => WriteStep(kv, h, data, reply, h') && kv' == kv
    case Seek(position) => reply == Done && kv' == kv && h' == h.(position := position)
    case Reset => reply == Done && kv' == kv && h' == h.(position := 0)
    case Truncate(size) => TruncateStep(kv, h, size, reply, h') && kv' == kv
    case Sync => SyncStep(kv, h, reply, kv', h')
  }

  // Every call has an answer that reports no fault.
  lemma FaultFreeStep(kv: Kv, h: Handle, op: Op) returns (reply: Reply, kv': Kv, h': Handle)
    requires h.geometry.Valid()
    ensures HandleStep(kv, h, op, reply, kv', h') && !reply.Faulted?
  {
    hide Shown, Split, Staged, Apply, SyncBatch, TruncatePending, StoredChunks, InGap;
    reply, kv', h' := Done, kv, h;
    match op
    case PRead(len, offset) => reply := FaultFreeRead(kv, h, len, offset);
    case Read(len) =>
      var available := Min(Max(h.size - h.position, 0), len);
      if available == 0 {
        reply := Data([]);
      } else {
        reply := FaultFreeRead(kv, h, available, h.position);
        if reply.Data? { h' := h.(position := h.position + |reply.data|); }
      }
    case PWrite(data, offset) => reply, h' := FaultFreeWrite(kv, h, data, offset);
    case Write(data) =>
      var offset := if h.flags.append then h.size else h.position;
      reply, h' := FaultFreeWrite(kv, h, data, offset);
      if reply.Done? { h' := h'.(position := offset + |data|); }
    case Seek(position) => h' := h.(position := position);
    case Reset => h' := h.(position := 0);
    case Truncate(size) =>
      if !h.flags.write { reply := Rejected(ReadOnlyViolation); }
      else if size > h.size { h' := h.(size := size, dirty := true); }
      else if size < h.size {
        var pending := TruncatePending(h.geometry, StoredChunks(kv, h.fileId), h.pending, size);
        h' := h.(pending := pending, size := size, dirty := true);
      }
    case Sync =>
      if !h.Clean() {
        if h.client.ReadOnly? { reply := Rejected(ReadOnlyViolation); }
        else {
          kv' := Apply(kv, SyncBatch(h.fileId, h.pending, h.Record()));
          h' := h.(pending := map[], dirty := false);
        }
      }
  }

  lemma FaultFreeRead(kv: Kv, h: Handle, len: nat, offset: u64) returns (reply: Reply)
    requires h.geometry.Valid()
    ensures PReadStep(kv, h, len, offset, reply) && !reply.Faulted?
    ensures reply.Data? ==> |reply.data| <= len && (reply.data != [] ==> offset + |reply.data| <= h.size)
  {
    hide Shown, Split, Unstaged, InGap, Byte;
    if !h.flags.read { reply := Rejected(InvalidArgument); }
    else if len == 0 || offset >= h.size { reply := Data([]); }
    else if InGap(h.geometry, Shown(kv, h), offset) { reply := Rejected(SliceOutOfRange); }
    else { reply := Data(ShownBytes(kv, h, Min(h.size - offset, len), offset)); }
  }

  lemma FaultFreeWrite(kv: Kv, h: Handle, data: bytes, offset: u64) returns (reply: Reply, h': Handle)
    requires h.geometry.Valid()
    ensures PWriteStep(kv, h, data, offset, reply, h') && !reply.Faulted? && h'.position == h.position
    ensures reply == Done ==> offset + |data| < U64_LIMIT
  {
    hide Split, Staged, StoredChunks;
    reply, h' := Done, h;
    if !h.flags.write { reply := Rejected(ReadOnlyViolation); }
    else if data != [] {
      if offset + |data| >= U64_LIMIT { reply := Rejected(InvalidArgument); }
      else {
        var pending := Staged(h.geometry, StoredChunks(kv, h.fileId), h.pending, data, offset, |Split(h.geometry, |data|, offset)|);
        h' := h.(pending := pending, size := Max(h.size, offset + |data|), dirty := true);
      }
    }
  }

  // -------------------------------------------------------------------------
  // What the steps rely on

  // The store holds only keys this program writes, and what a writer shows is
  // within capacity. Every handle of every run is sound.
  ghost predicate Sound(kv: Kv, h: Handle) {
    && h.geometry.Valid()
    && WellFormedKeys(kv.Keys)
    && (h.flags.write ==> WithinCapacity(h.geometry, Shown(kv, h)))
  }

  lemma {:induction false} StagedWithinCapacity(
    g: Geometry, stored: ChunkMap, pending: Pending, data: bytes, offset: u64, n: nat)
    requires g.Valid() && offset + |data| < U64_LIMIT && n <= |Split(g, |data|, offset)|
    requires WithinCapacity(g, Overlay(stored, pending))
    ensures WithinCapacity(g, Overlay(stored, Staged(g, stored, pending, data, offset, n)))
    decreases n
  {
    hide Locate, Start, Capacity, Splice, Split, Staged, Overlay, SliceData, WithinCapacity, InChunk, Tiles;
    if n == 0 {
      StagedNone(g, stored, pending, data, offset);
    } else {
      var slices := Split(g, |data|, offset);
      StagedWithinCapacity(g, stored, pending, data, offset, n - 1);
      StagedStep(g, stored, pending, data, offset, n - 1);
      SplitTiles(g, |data|, offset);
      SliceInChunk(g, offset, slices, 0, |data|, n - 1);
      StageWithinCapacity(g, stored, Staged(g, stored, pending, data, offset, n - 1), offset, slices[n - 1], data);
    }
  }

  lemma PWriteWithinCapacity(kv: Kv, h: Handle, data: bytes, offset: u64, reply: Reply, h': Handle)
    requires h.geometry.Valid() && PWriteStep(kv, h, data, offset, reply, h') && WithinCapacity(h.geometry, Shown(kv, h))
    ensures h'.geometry == h.geometry && WithinCapacity(h.geometry, Shown(kv, h'))
  {
    hide Locate, Split, Staged, Overlay, StoredChunks, WithinCapacity, NeedsFetch;
    if h'.pending != h.pending {
      var slices, stored := Split(h.geometry, |data|, offset), StoredChunks(kv, h.fileId);
      var n: nat :| n <= |slices| && h'.pending == Staged(h.geometry, stored, h.pending, data, offset, n);
      StagedWithinCapacity(h.geometry, stored, h.pending, data, offset, n);
    }
  }

  // A sync does not change what is shown.
  lemma SyncShows(kv: Kv, h: Handle, reply: Reply, kv': Kv, h': Handle)
    requires SyncStep(kv, h, reply, kv', h')
    ensures Shown(kv', h') == Shown(kv, h) && h'.geometry == h.geometry
  {
    hide Apply, Overlay, StoredChunks, SyncBatch;
    SyncStoresOverlay(kv, h.fileId, h.pending, h.Record());
    OverlayIdempotent(StoredChunks(kv, h.fileId), h.pending);
    OverlayEmpty(Shown(kv, h));
  }

  // No step, with any fault, stages a chunk past its capacity.
  lemma StepKeepsCapacity(kv: Kv, h: Handle, op: Op, reply: Reply, kv': Kv, h': Handle)
    requires h.geometry.Valid() && HandleStep(kv, h, op, reply, kv', h') && WithinCapacity(h.geometry, Shown(kv, h))
    ensures WithinCapacity(h'.geometry, Shown(kv', h'))
  {
    hide Overlay, StoredChunks, WithinCapacity, PWriteStep, PReadStep, SyncStep, TruncatePending;
    match op
    case PWrite(data, offset) => PWriteWithinCapacity(kv, h, data, offset, reply, h');
    case Write(data) =>
      var offset := if h.flags.append then h.size else h.position;
      PWriteWithinCapacity(kv, h, data, offset, reply, h'.(position := h.position));
    case Truncate(size) => TruncateWithinCapacity(h.geometry, StoredChunks(kv, h.fileId), h.pending, size);
    case Sync => SyncShows(kv, h, reply, kv', h');
    case _ =>
  }

  // -------------------------------------------------------------------------
  // The refinement

  // The handle is the flat file: same size and cursor, and its chunks show the
  // tape. The record is up to date unless a sync is due.
  ghost predicate Represents(kv: Kv, h: Handle, f: Flat) {
    && h.geometry.Valid()
    && f.Valid()
    && f.size == h.size
    && f.position == h.position
    && Shows(h.geometry, Shown(kv, h), f.tape)
    && Fits(h.geometry, Shown(kv, h), |f.tape|)
    && (!h.flags.write ==> h.Clean())
    && (h.client.ReadOnly? ==> !h.flags.write)
  }

  lemma ReadRefines(kv: Kv, h: Handle, f: Flat, len: nat, offset: nat)
    requires Represents(kv, h, f) && len > 0 && offset < h.size
    ensures ShownBytes(kv, h, Min(h.size - offset, len), offset) == ReadAt(f, len, offset)
  {
    hide Locate, Byte, Overlay, StoredChunks, Fits;
    var n := Min(h.size - offset, len);
    var shown := ShownBytes(kv, h, n, offset);
    forall j | 0 <= j < n ensures shown[j] == ReadAt(f, len, offset)[j] {
      assert Byte(h.geometry, Shown(kv, h), offset + j) == ByteIn(f.tape, offset + j);
    }
  }

  // A read out of range starts between two zeros.
  lemma GapRefines(kv: Kv, h: Handle, f: Flat, offset: nat)
    requires Represents(kv, h, f) && InGap(h.geometry, Shown(kv, h), offset)
    ensures BehindZero(f, offset)
  {
    hide Locate, Byte, Overlay, StoredChunks, Fits, InGap;
    GapReadsZero(h.geometry, Shown(kv, h), offset);
    assert Byte(h.geometry, Shown(kv, h), offset) == ByteIn(f.tape, offset);
    assert Byte(h.geometry, Shown(kv, h), offset - 1) == ByteIn(f.tape, offset - 1);
  }

  lemma CoveredIsShort(g: Geometry, len: nat, offset: u64, n: nat)
    requires g.Valid() && offset + len < U64_LIMIT && n < |Split(g, len, offset)|
    ensures Covered(Split(g, len, offset), n) < len
  {
    hide Split;
    var slices := Split(g, len, offset);
    SplitTiles(g, len, offset);
    TilingBounds(g, offset, slices, 0, len);
    SliceInChunk(g, offset, slices, 0, len, n);
    if n > 0 { assert Follows(slices[n - 1], slices[n]); }
  }

  lemma StagedShows(kv: Kv, h: Handle, f: Flat, data: bytes, offset: u64, n: nat)
    requires Represents(kv, h, f) && offset + |data| < U64_LIMIT && n <= |Split(h.geometry, |data|, offset)|
    ensures Covered(Split(h.geometry, |data|, offset), n) <= |data|
    ensures var stored := StoredChunks(kv, h.fileId);
      var shown := Overlay(stored, Staged(h.geometry, stored, h.pending, data, offset, n));
      var tape := Overwritten(f.tape, offset, data, Covered(Split(h.geometry, |data|, offset), n));
      Shows(h.geometry, shown, tape) && Fits(h.geometry, shown, |tape|)
  {
    hide Split, Overlay, StoredChunks, Shows, Fits, Overwritten;
    var slices := Split(h.geometry, |data|, offset);
    SplitTiles(h.geometry, |data|, offset);
    TilingBounds(h.geometry, offset, slices, 0, |data|);
    StageSlicesShows(h.geometry, StoredChunks(kv, h.fileId), h.pending, offset, slices, data, n, f.tape);
  }

  lemma CoveredAll(g: Geometry, len: nat, offset: u64)
    requires g.Valid() && offset + len < U64_LIMIT
    ensures Covered(Split(g, len, offset), |Split(g, len, offset)|) == len
  {
    SplitTiles(g, len, offset);
  }

  // A write, whole or cut short at any slice, is the flat write.
  lemma PWriteRefines(kv: Kv, h: Handle, f: Flat, data: bytes, offset: u64, reply: Reply, h': Handle)
    requires Represents(kv, h, f) && PWriteStep(kv, h, data, offset, reply, h')
    ensures AllowsWrite(h.flags, data, offset, reply)
    ensures Represents(kv, h', AfterWrite(f, data, offset, reply))
  {
    hide Split, Overlay, StoredChunks, Shows, Fits, Splice, Staged;
    if h.flags.write && data != [] && offset + |data| < U64_LIMIT {
      var slices := Split(h.geometry, |data|, offset);
      if reply == Done {
        StagedShows(kv, h, f, data, offset, |slices|);
        CoveredAll(h.geometry, |data|, offset);
        assert data[..|data|] == data;
      } else {
        var n :| FailsAt(h, data, offset, n) && reply == Faulted(Covered(slices, n))
          && h' == h.(pending := Staged(h.geometry, StoredChunks(kv, h.fileId), h.pending, data, offset, n));
        StagedShows(kv, h, f, data, offset, n);
        CoveredIsShort(h.geometry, |data|, offset, n);
      }
    }
  }

  lemma TruncateRefines(kv: Kv, h: Handle, f: Flat, size: u64, reply: Reply, h': Handle)
    requires Represents(kv, h, f) && TruncateStep(kv, h, size, reply, h')
    ensures Allows(h.flags, f, Truncate(size), reply)
    ensures Represents(kv, h', Next(h.flags, f, Truncate(size), reply))
  {
    hide Overlay, StoredChunks, Shows, Fits, TruncatePending, Cut;
    var shown := Shown(kv, h);
    if h.flags.write && reply == Done {
      if size < h.size {
        TruncateIsCut(h.geometry, StoredChunks(kv, h.fileId), h.pending, size);
        CutShows(h.geometry, shown, f.tape, size);
      } else {
        GrowShows(h.geometry, shown, f.tape, size);
        if size == h.size { PaddedEnough(f.tape, size); }
      }
    }
  }

  lemma SyncRefines(kv: Kv, h: Handle, f: Flat, reply: Reply, kv': Kv, h': Handle)
    requires Represents(kv, h, f) && SyncStep(kv, h, reply, kv', h')
    ensures Allows(h.flags, f, Sync, reply)
    ensures Represents(kv', h', f)
  {
    hide Apply, Overlay, StoredChunks, SyncBatch, Shows, Fits;
    SyncStoresOverlay(kv, h.fileId, h.pending, h.Record());
    OverlayIdempotent(StoredChunks(kv, h.fileId), h.pending);
    OverlayEmpty(Shown(kv, h));
  }

  lemma PReadRefines(kv: Kv, h: Handle, f: Flat, len: nat, offset: u64, reply: Reply)
    requires Represents(kv, h, f) && PReadStep(kv, h, len, offset, reply)
    ensures AllowsRead(h.flags, f, len, offset, reply)
  {
    hide Represents, ShownBytes, InGap, Shown, Split, Unstaged;
    RepresentsSize(kv, h, f);
    if len > 0 && offset < h.size { ReadRefines(kv, h, f, len, offset); }
    if InGap(h.geometry, Shown(kv, h), offset) { GapRefines(kv, h, f, offset); }
  }

  lemma RepresentsSize(kv: Kv, h: Handle, f: Flat)
    requires Represents(kv, h, f)
    ensures h.geometry.Valid() && f.Valid() && f.size == h.size && f.position == h.position
  {
  }

  lemma ReadCallRefines(kv: Kv, h: Handle, f: Flat, len: nat, reply: Reply, h': Handle)
    requires Represents(kv, h, f) && ReadStep(kv, h, len, reply, h')
    ensures Allows(h.flags, f, Op.Read(len), reply)
    ensures Represents(kv, h', Next(h.flags, f, Op.Read(len), reply))
  {
    hide Shows, Fits, Overlay, StoredChunks, PReadStep, BehindZero;
    var available := Min(Max(h.size - h.position, 0), len);
    if available > 0 {
      PReadRefines(kv, h, f, available, h.position, reply);
      assert ReadAt(f, available, f.position) == ReadAt(f, len, f.position);
    }
  }

  // Every step of the handle, with any faults, is a step of the flat file.
  lemma HandleRefinesFlat(kv: Kv, h: Handle, f: Flat, op: Op, reply: Reply, kv': Kv, h': Handle)
    requires Represents(kv, h, f) && HandleStep(kv, h, op, reply, kv', h')
    ensures Allows(h.flags, f, op, reply)
    ensures Represents(kv', h', Next(h.flags, f, op, reply))
  {
    hide Overlay, StoredChunks, Shows, Fits, SyncStep, TruncateStep, PWriteStep, PReadStep, ReadStep, AllowsRead;
    match op
    case PRead(len, offset) => PReadRefines(kv, h, f, len, offset, reply);
    case Read(len) => ReadCallRefines(kv, h, f, len, reply, h');
    case PWrite(data, offset) => PWriteRefines(kv, h, f, data, offset, reply, h');
    case Write(data) =>
      var offset := if h.flags.append then h.size else h.position;
      PWriteRefines(kv, h, f, data, offset, reply, h'.(position := h.position));
    case Truncate(size) => TruncateRefines(kv, h, f, size, reply, h');
    case Sync => SyncRefines(kv, h, f, reply, kv', h');
    case _ =>
  }

  // -------------------------------------------------------------------------
  // The handle itself

  class FileHandle {
    const client: Client
    const store: Store
    const chunks: ChunkManager
    const flags: Flags
    var position: u64
    var size: u64
    var metadataDirty: bool

    ghost function State(): Handle
      reads this, chunks
    {
      Handle(client, chunks.fileId, chunks.geometry, chunks.pending, size, position, metadataDirty, flags)
    }

    ghost predicate Valid()
      reads this, chunks, store`kv
    {
      chunks.store == store && Sound(store.kv, State())
    }

    constructor (client: Client, store: Store, fileId: u64, geometry: Geometry, size: u64, position: u64, flags: Flags)
      ensures this.store == store && fresh(chunks) && chunks.store == store
      ensures State() == Handle(client, fileId, geometry, map[], size, position, false, flags)
    {
      this.client, this.store, this.flags := client, store, flags;
      this.size, this.position, metadataDirty := size, position, false;
      chunks := new ChunkManager(store, fileId, geometry);
    }

    static method Open(client: Client, store: Store, fileId: u64, m: FileMetadata, flags: Flags)
      returns (r: Result<FileHandle>)
      ensures r.Failure? ==> OpenHandle(client, fileId, m, flags) == Failure(r.error)
      ensures r.Success? ==>
        && fresh(r.value) && fresh(r.value.chunks) && r.value.store == store && r.value.chunks.store == store
        && OpenHandle(client, fileId, m, flags) == Success(r.value.State())
    {
      if flags.Validate().Failure? { return Failure(InvalidArgument); }
      if client.ReadOnly? {
        if !flags.read { return Failure(InvalidArgument); }
        if flags.write { return Failure(ReadOnlyViolation); }
      }
      var geometry := ValidatedGeometry(m);
      if geometry.Failure? { return Failure(InvalidArgument); }
      var position := if flags.append then m.size else 0;
      var handle := new FileHandle(client, store, fileId, geometry.value, m.size, position, flags);
      return Success(handle);
    }

    // The outcome of a read as a reply: the bytes delivered, or why not.
    static function ReadReply(r: Result<nat>, buf: bytes): Reply {
      match r
      case Success(n) => if n <= |buf| then Data(buf[..n]) else Done
      case Failure(StoreFault) => Faulted(0)
      case Failure(e) => Rejected(e)
    }

    static function WriteReply(r: Result<()>, staged: nat): Reply {
      match r
      case Success(_) => Done
      case Failure(StoreFault) => Faulted(staged)
      case Failure(e) => Rejected(e)
    }

    // Reads never deliver past the end of the file, and leave the rest of the
    // buffer alone.
    method PRead(buf: array<byte>, len: nat, offset: u64) returns (r: Result<nat>)
      requires Valid() && len <= buf.Length
      modifies buf, store`faults
      ensures r == Failure(StoreFault) <==> store.faults != old(store.faults)
      ensures r.Success? ==> r.value <= len
      ensures HandleStep(store.kv, State(), Op.PRead(len, offset), ReadReply(r, buf[..]), store.kv, State())
      ensures r.Success? ==> forall j :: r.value <= j < buf.Length ==> buf[j] == old(buf[j])
      ensures forall j :: len <= j < buf.Length ==> buf[j] == old(buf[j])
    {
      hide Locate, Byte, Split, Unstaged, Overlay, StoredChunks, WithinCapacity, WellFormedKeys;
      if !flags.read { return Failure(InvalidArgument); }
      if len == 0 || offset >= size { return Success(0); }
      var n := Min(size - offset, len);
      var read := chunks.Read(buf, n, offset);
      if read.Failure? { return Failure(read.error); }
      ghost var shown := ShownBytes(store.kv, State(), n, offset);
      assert chunks.Shown() == Shown(store.kv, State());
      forall j | 0 <= j < n ensures buf[..n][j] == shown[j] {
        assert shown[j] == Byte(chunks.geometry, Shown(store.kv, State()), offset + j);
        assert buf[j] == Byte(chunks.geometry, chunks.Shown(), offset + j);
      }
      assert buf[..n] == shown;
      return Success(n);
    }

    method PWrite(data: bytes, offset: u64) returns (r: Result<()>, ghost staged: nat)
      requires Valid()
      modifies this, chunks, store`faults
      ensures r == Failure(StoreFault) <==> store.faults != old(store.faults)
      ensures Valid()
      ensures HandleStep(store.kv, old(State()), Op.PWrite(data, offset), WriteReply(r, staged), store.kv, State())
    {
      hide Locate, Byte, Staged, Split, Overlay, WithinCapacity, NeedsFetch;
      staged := 0;
      if !flags.write { return Failure(ReadOnlyViolation), 0; }
      if data == [] { return Success(()), 0; }
      if offset + |data| >= U64_LIMIT { return Failure(InvalidArgument), 0; }
      ghost var before := State();
      var written, n := chunks.Write(data, offset);
      if written.Failure? {
        assert FailsAt(before, data, offset, n);
        return Failure(written.error), Covered(Split(chunks.geometry, |data|, offset), n);
      }
      if offset + |data| > size { size := offset + |data|; }
      metadataDirty := true;
      return Success(()), 0;
    }

    method Read(buf: array<byte>, len: nat) returns (r: Result<nat>)
      requires Valid() && len <= buf.Length
      modifies this, buf, store`faults
      ensures r == Failure(StoreFault) <==> store.faults != old(store.faults)
      ensures Valid()
      ensures r.Success? ==> r.value <= len
      ensures HandleStep(store.kv, old(State()), Op.Read(len), ReadReply(r, buf[..]), store.kv, State())
      ensures r.Success? ==> forall j :: r.value <= j < buf.Length ==> buf[j] == old(buf[j])
    {
      hide Locate, Byte, PReadStep, ShownBytes, WithinCapacity, Overlay, StoredChunks, WellFormedKeys;
      ReadStepNothing(store.kv, State(), len);
      var available := Min(Max(size - position, 0), len);
      if available == 0 { return Success(0); }
      r := PRead(buf, available, position);
      if r.Success? { position := position + r.value; }
    }

    method Write(data: bytes) returns (r: Result<()>, ghost staged: nat)
      requires Valid()
      modifies this, chunks, store`faults
      ensures r == Failure(StoreFault) <==> store.faults != old(store.faults)
      ensures Valid()
      ensures HandleStep(store.kv, old(State()), Op.Write(data), WriteReply(r, staged), store.kv, State())
    {
      hide Locate, Byte, Staged, Split, PWriteStep, WithinCapacity, Overlay, StoredChunks, WellFormedKeys;
      var offset := if flags.append then size else position;
      ghost var before := State();
      r, staged := PWrite(data, offset);
      PWriteInRange(store.kv, before, data, offset, WriteReply(r, staged), State());
      if r.Success? { position := offset + |data|; }
    }

    method Seek(position: u64)
      modifies this`position
      ensures State() == old(State()).(position := position)
    {
      this.position := position;
    }

    method Reset()
      modifies this`position
      ensures State() == old(State()).(position := 0)
    {
      position := 0;
    }

    method Truncate(newSize: u64) returns (r: Result<()>)
      requires Valid()
      modifies this, chunks, store`faults
      ensures r == Failure(StoreFault) <==> store.faults != old(store.faults)
      ensures Valid()
      ensures HandleStep(store.kv, old(State()), Op.Truncate(newSize), WriteReply(r, 0), store.kv, State())
    {
      hide Locate, Byte, TruncatePending, Overlay, WithinCapacity, StoredChunks, WellFormedKeys;
      if !flags.write { return Failure(ReadOnlyViolation); }
      if newSize == size { return Success(()); }
      if newSize < size {
        TruncateWithinCapacity(chunks.geometry, chunks.Stored(), chunks.pending, newSize);
        var cut := chunks.Truncate(newSize);
        if cut.Failure? { return Failure(cut.error); }
      }
      size := newSize;
      metadataDirty := true;
      return Success(());
    }

    method Sync() returns (r: Result<()>)
      requires Valid()
      modifies this, chunks, store
      ensures r == Failure(StoreFault) <==> store.faults != old(store.faults)
      ensures Valid()
      ensures r.Success? && !old(State()).Clean() ==> store.flushed == store.kv
      ensures HandleStep(old(store.kv), old(State()), Op.Sync, WriteReply(r, 0), store.kv, State())
    {
      hide Locate, Byte, PendingBatch, Apply, Overlay, StoredChunks;
      if chunks.pending == map[] && !metadataDirty { return Success(()); }
      ghost var before := State();
      var batch := chunks.AddPendingToBatch(map[]);
      batch := batch[MetadataKey(chunks.fileId) := Put(Encode(FileMetadata(size, chunks.geometry)))];
      assert batch == SyncBatch(before.fileId, before.pending, before.Record());
      SyncKeepsValid(store.kv, before);
      if client.ReadOnly? { return Failure(ReadOnlyViolation); }
      var written := store.Write(batch);
      if !written { return Failure(StoreFault); }
      var flushed := store.Flush();
      if !flushed { return Failure(StoreFault); }
      chunks.MarkFlushed();
      metadataDirty := false;
      return Success(());
    }

    method Close() returns (r: Result<()>)
      requires Valid()
      modifies this, chunks, store
      ensures r == Failure(StoreFault) <==> store.faults != old(store.faults)
      ensures Valid()
      ensures r.Success? && !old(State()).Clean() ==> store.flushed == store.kv
      ensures HandleStep(old(store.kv), old(State()), Op.Sync, WriteReply(r, 0), store.kv, State())
    {
      r := Sync();
    }
  }

  // At the end of the file `read` answers before it looks at the access flag,
  // and `pread` after: without read access the two differ exactly there.
  lemma EndBeforeAccess(kv: Kv, h: Handle, len: nat, reply: Reply, h': Handle)
    requires h.geometry.Valid() && !h.flags.read && ReadStep(kv, h, len, reply, h')
    ensures reply == Data([]) <==> len == 0 || h.position >= h.size
    ensures reply == Data([]) || reply == Rejected(InvalidArgument)
    ensures forall answer :: PReadStep(kv, h, len, h.position, answer) ==> answer == Rejected(InvalidArgument)
  {
  }

  lemma ReadStepNothing(kv: Kv, h: Handle, len: nat)
    requires h.geometry.Valid()
    ensures Min(Max(h.size - h.position, 0), len) == 0 ==> ReadStep(kv, h, len, Data([]), h)
  {
  }

  // A write that succeeded did not run past the 64-bit range, nor move the cursor.
  lemma PWriteInRange(kv: Kv, h: Handle, data: bytes, offset: u64, reply: Reply, h': Handle)
    requires h.geometry.Valid() && PWriteStep(kv, h, data, offset, reply, h')
    ensures reply == Done ==> offset + |data| < U64_LIMIT
    ensures h'.position == h.position
  {
    hide Staged, Split;
  }

  // A sync writes only well-formed keys, and what is shown stays within capacity.
  lemma SyncKeepsValid(kv: Kv, h: Handle)
    requires WellFormedKeys(kv.Keys)
    ensures var kv' := Apply(kv, SyncBatch(h.fileId, h.pending, h.Record()));
      && WellFormedKeys(kv'.Keys)
      && Overlay(StoredChunks(kv', h.fileId), h.pending) == Shown(kv, h)
      && Overlay(StoredChunks(kv', h.fileId), map[]) == Shown(kv, h)
  {
    hide ChunkKey, MetadataKey, Apply, PendingBatch, Overlay, StoredChunks;
    var batch := SyncBatch(h.fileId, h.pending, h.Record());
    var kv' := Apply(kv, batch);
    forall k | k in kv' && StartsWith(k, CHUNK_FAMILY) ensures IsChunkKey(k) {
      assert Lookup(kv', k).Some?;
      PendingBatchIs(h.fileId, h.pending);
      FamiliesDisjoint(0, 0, h.fileId, []);
      if k !in kv { assert k in PendingBatch(h.fileId, h.pending); }
    }
    SyncStoresOverlay(kv, h.fileId, h.pending, h.Record());
    OverlayIdempotent(StoredChunks(kv, h.fileId), h.pending);
    OverlayEmpty(Shown(kv, h));
  }
}
