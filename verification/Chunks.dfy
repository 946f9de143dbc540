// A file's chunks as plain values: the overlay of staged changes over stored
// chunks, the bytes it shows, and what a write, a truncation and a flush do to
// them (rust/src/chunk_manager.rs).
module Chunks {
  import opened Bytes
  import opened Geometry
  import opened Tapes

  // Chunk contents by index; an absent chunk is a hole.
  type ChunkMap = map<u64, bytes>

  datatype PendingChunk = Written(data: bytes) | Deleted

  // Staged changes, laid over the stored chunks.
  type Pending = map<u64, PendingChunk>

  // -------------------------------------------------------------------------
  // The visible bytes

  function ChunkAt(chunks: ChunkMap, i: u64): bytes { if i in chunks then chunks[i] else [] }

  function Byte(g: Geometry, chunks: ChunkMap, position: nat): byte
    requires g.Valid()
  {
    var l := Locate(g, position);
    if l.chunk < U64_LIMIT then ByteIn(ChunkAt(chunks, l.chunk), l.offset) else 0
  }

  // `tape`, followed by zeros for ever, is what the chunks show.
  ghost predicate Shows(g: Geometry, chunks: ChunkMap, tape: bytes)
    requires g.Valid()
  {
    forall p: nat :: Byte(g, chunks, p) == ByteIn(tape, p)
  }

  // No chunk is empty, longer than its capacity, or reaches past `end`.
  ghost predicate Fits(g: Geometry, chunks: ChunkMap, end: nat) {
    forall i :: i in chunks ==>
      && 0 < |chunks[i]| <= Capacity(g, i)
      && Start(g, i) + |chunks[i]| <= end
  }

  ghost predicate WithinCapacity(g: Geometry, chunks: ChunkMap) {
    forall i :: i in chunks ==> |chunks[i]| <= Capacity(g, i)
  }

  // Whatever fits below `end` reads as zero from there on.
  lemma FitsMeansZeroTail(g: Geometry, chunks: ChunkMap, end: nat, position: nat)
    requires g.Valid() && Fits(g, chunks, end) && end <= position
    ensures Byte(g, chunks, position) == 0
  {
    LocateSound(g, position);
  }

  // -------------------------------------------------------------------------
  // The overlay

  function Overlay(stored: ChunkMap, pending: Pending): (r: ChunkMap)
    ensures forall i :: i in r <==> if i in pending then pending[i].Written? else i in stored
    ensures forall i :: i in r ==> r[i] == if i in pending then pending[i].data else stored[i]
  {
    map i | i in stored.Keys + pending.Keys && (i in pending ==> pending[i].Written?)
      :: if i in pending then pending[i].data else stored[i]
  }

  lemma OverlayEmpty(stored: ChunkMap)
    ensures Overlay(stored, map[]) == stored
  {
  }

  // Laying the same changes twice is laying them once.
  lemma OverlayIdempotent(stored: ChunkMap, pending: Pending)
    ensures Overlay(Overlay(stored, pending), pending) == Overlay(stored, pending)
  {
  }

  lemma OverlayStage(stored: ChunkMap, pending: Pending, i: u64, data: bytes)
    ensures Overlay(stored, pending[i := Written(data)]) == Overlay(stored, pending)[i := data]
  {
  }

  // -------------------------------------------------------------------------
  // Writing

  predicate InBuffer(s: ChunkSlice, j: nat) { s.bufOffset <= j < s.bufOffset + s.len }

  function SliceData(s: ChunkSlice, data: bytes): (r: bytes)
    requires s.bufOffset + s.len <= |data|
    ensures |r| == s.len
  {
    data[s.bufOffset..s.bufOffset + s.len]
  }

  lemma SliceDataIs(s: ChunkSlice, data: bytes)
    requires s.bufOffset + s.len <= |data|
    ensures SliceData(s, data) == data[s.bufOffset..s.bufOffset + s.len]
  {
  }

  function WriteSlice(chunks: ChunkMap, s: ChunkSlice, data: bytes): ChunkMap
    requires s.bufOffset + s.len <= |data|
  {
    chunks[s.chunkIdx := Splice(ChunkAt(chunks, s.chunkIdx), s.chunkOffset, SliceData(s, data))]
  }

  // A write stages one chunk after another.
  function StageSlices(stored: ChunkMap, pending: Pending, slices: seq<ChunkSlice>, data: bytes): Pending
    requires forall i :: 0 <= i < |slices| ==> slices[i].bufOffset + slices[i].len <= |data|
  {
    if slices == [] then pending
    else
      var n := |slices| - 1;
      var before := StageSlices(stored, pending, slices[..n], data);
      var was := ChunkAt(Overlay(stored, before), slices[n].chunkIdx);
      before[slices[n].chunkIdx := Written(Splice(was, slices[n].chunkOffset, SliceData(slices[n], data)))]
  }

  lemma {:induction false} TilingBounds(g: Geometry, offset: nat, slices: seq<ChunkSlice>, from: nat, to: nat)
    requires g.Valid() && Tiles(g, offset, slices, from, to)
    ensures forall i :: 0 <= i < |slices| ==> from <= slices[i].bufOffset && slices[i].bufOffset + slices[i].len <= to
    decreases |slices|
  {
    TilingAdvances(g, offset, slices, from, to);
    if slices != [] {
      TilesTail(g, offset, slices, from, to);
      TilingBounds(g, offset, slices[1..], from + slices[0].len, to);
      forall i | 0 <= i < |slices|
        ensures from <= slices[i].bufOffset && slices[i].bufOffset + slices[i].len <= to
      {
        if i > 0 { assert slices[i] == slices[1..][i - 1]; }
      }
    }
  }

  // The buffer bytes the first `n` slices of a tiling cover.
  function Covered(slices: seq<ChunkSlice>, n: nat): nat
    requires n <= |slices|
  {
    if n == 0 then 0 else slices[n - 1].bufOffset + slices[n - 1].len
  }

  // What a write of `data` at `offset` has staged after its first `n` slices.
  function Staged(g: Geometry, stored: ChunkMap, pending: Pending, data: bytes, offset: u64, n: nat): Pending
    requires g.Valid() && offset + |data| < U64_LIMIT && n <= |Split(g, |data|, offset)|
  {
    SplitTiles(g, |data|, offset);
    TilingBounds(g, offset, Split(g, |data|, offset), 0, |data|);
    StageSlices(stored, pending, Split(g, |data|, offset)[..n], data)
  }

  lemma StagedNone(g: Geometry, stored: ChunkMap, pending: Pending, data: bytes, offset: u64)
    requires g.Valid() && offset + |data| < U64_LIMIT
    ensures Staged(g, stored, pending, data, offset, 0) == pending
  {
    assert Split(g, |data|, offset)[..0] == [];
  }

  lemma StagedStep(g: Geometry, stored: ChunkMap, pending: Pending, data: bytes, offset: u64, n: nat)
    requires g.Valid() && offset + |data| < U64_LIMIT && n < |Split(g, |data|, offset)|
    ensures var s := Split(g, |data|, offset)[n];
      var before := Staged(g, stored, pending, data, offset, n);
      && s.bufOffset + s.len <= |data|
      && Staged(g, stored, pending, data, offset, n + 1)
         == before[s.chunkIdx := Written(Splice(ChunkAt(Overlay(stored, before), s.chunkIdx), s.chunkOffset, SliceData(s, data)))]
  {
    hide Splice, SplitFrom, Overlay, Tiles;
    var slices := Split(g, |data|, offset);
    SplitTiles(g, |data|, offset);
    TilingBounds(g, offset, slices, 0, |data|);
    assert slices[..n + 1][..n] == slices[..n];
  }

  // Only a partial write of a chunk that is not staged has to be read first.
  predicate NeedsFetch(g: Geometry, pending: Pending, s: ChunkSlice) {
    !(s.chunkOffset == 0 && s.len == g.chunkSize) && s.chunkIdx !in pending
  }

  // Writing a slice replaces exactly the file bytes it names.
  lemma WriteSliceByte(g: Geometry, chunks: ChunkMap, offset: nat, s: ChunkSlice, data: bytes, position: nat)
    requires g.Valid() && InChunk(g, offset, s) && s.bufOffset + s.len <= |data|
    ensures Byte(g, WriteSlice(chunks, s, data), position)
      == if offset + s.bufOffset <= position < offset + s.bufOffset + s.len then data[position - offset]
         else Byte(g, chunks, position)
  {
    hide Splice;
    SliceOwns(g, offset, s, position);
  }

  lemma WriteSliceShows(g: Geometry, chunks: ChunkMap, offset: nat, s: ChunkSlice, data: bytes, tape: bytes)
    requires g.Valid() && InChunk(g, offset, s) && s.bufOffset + s.len <= |data|
    requires Shows(g, chunks, tape)
    ensures Shows(g, WriteSlice(chunks, s, data), Splice(tape, offset + s.bufOffset, SliceData(s, data)))
  {
    hide Splice, Locate, WriteSlice, Byte;
    var tape' := Splice(tape, offset + s.bufOffset, SliceData(s, data));
    forall p: nat ensures Byte(g, WriteSlice(chunks, s, data), p) == ByteIn(tape', p) {
      WriteSliceByte(g, chunks, offset, s, data, p);
      assert Byte(g, chunks, p) == ByteIn(tape, p);
    }
  }

  lemma WriteSliceFits(g: Geometry, chunks: ChunkMap, offset: nat, s: ChunkSlice, data: bytes, end: nat)
    requires g.Valid() && InChunk(g, offset, s) && s.bufOffset + s.len <= |data|
    requires Fits(g, chunks, end) && offset + s.bufOffset + s.len <= end
    ensures Fits(g, WriteSlice(chunks, s, data), end)
  {
  }

  lemma FitsMore(g: Geometry, chunks: ChunkMap, end: nat, end': nat)
    requires Fits(g, chunks, end) && end <= end'
    ensures Fits(g, chunks, end')
  {
  }

  // After any number of slices the file is the old one with exactly the bytes
  // those slices cover replaced: a write cut short leaves a prefix of its data.
  lemma StageNone(stored: ChunkMap, pending: Pending, data: bytes)
    ensures StageSlices(stored, pending, [], data) == pending
  {
  }

  lemma {:induction false} StageSlicesShows(
    g: Geometry, stored: ChunkMap, pending: Pending, offset: nat, slices: seq<ChunkSlice>, data: bytes, n: nat, tape: bytes)
    requires g.Valid() && n <= |slices| && Tiles(g, offset, slices, 0, |data|)
    requires forall i :: 0 <= i < |slices| ==> slices[i].bufOffset + slices[i].len <= |data|
    requires Shows(g, Overlay(stored, pending), tape) && Fits(g, Overlay(stored, pending), |tape|)
    ensures Covered(slices, n) <= |data|
    ensures var tape' := Overwritten(tape, offset, data, Covered(slices, n));
      var chunks' := Overlay(stored, StageSlices(stored, pending, slices[..n], data));
      Shows(g, chunks', tape') && Fits(g, chunks', |tape'|)
    decreases n
  {
    hide Splice, Locate, WriteSlice, StageSlices, Shows, Fits, Start, Capacity, Overlay;
    if n == 0 {
      assert slices[..0] == [];
      StageNone(stored, pending, data);
    } else {
      StageSlicesShows(g, stored, pending, offset, slices, data, n - 1, tape);
      var s := slices[n - 1];
      var half := Overwritten(tape, offset, data, Covered(slices, n - 1));
      var before := Overlay(stored, StageSlices(stored, pending, slices[..n - 1], data));
      assert InChunk(g, offset, s);
      assert s.bufOffset == Covered(slices, n - 1) by {
        if n > 1 { assert Follows(slices[n - 2], slices[n - 1]); }
      }
      OverwrittenNext(tape, offset, data, s.bufOffset, s.len);
      StageSlicesLast(stored, pending, slices[..n], data);
      assert slices[..n][..n - 1] == slices[..n - 1];
      WriteSliceShows(g, before, offset, s, data, half);
      FitsMore(g, before, |half|, |Overwritten(tape, offset, data, s.bufOffset + s.len)|);
      WriteSliceFits(g, before, offset, s, data, |Overwritten(tape, offset, data, s.bufOffset + s.len)|);
    }
  }

  lemma StageSlicesLast(stored: ChunkMap, pending: Pending, slices: seq<ChunkSlice>, data: bytes)
    requires forall i :: 0 <= i < |slices| ==> slices[i].bufOffset + slices[i].len <= |data|
    requires slices != []
    ensures var n := |slices| - 1;
      Overlay(stored, StageSlices(stored, pending, slices, data))
      == WriteSlice(Overlay(stored, StageSlices(stored, pending, slices[..n], data)), slices[n], data)
  {
    var n := |slices| - 1;
    var before := StageSlices(stored, pending, slices[..n], data);
    var s := slices[n];
    OverlayStage(stored, before, s.chunkIdx,
      Splice(ChunkAt(Overlay(stored, before), s.chunkIdx), s.chunkOffset, SliceData(s, data)));
  }

  // Every byte of a tiled range is in one of the slices.
  lemma {:induction false} TilingCovers(g: Geometry, offset: nat, slices: seq<ChunkSlice>, from: nat, to: nat, j: nat) returns (k: nat)
    requires g.Valid() && Tiles(g, offset, slices, from, to) && from <= j < to
    ensures k < |slices| && InBuffer(slices[k], j)
    decreases |slices|
  {
    if j < from + slices[0].len {
      k := 0;
    } else {
      TilesTail(g, offset, slices, from, to);
      var rest := TilingCovers(g, offset, slices[1..], from + slices[0].len, to, j);
      k := rest + 1;
    }
  }

  lemma {:induction false} TilingAscends(g: Geometry, offset: nat, slices: seq<ChunkSlice>, from: nat, to: nat, i: nat, j: nat)
    requires g.Valid() && Tiles(g, offset, slices, from, to) && i < j < |slices|
    ensures slices[i].chunkIdx < slices[j].chunkIdx
    decreases j
  {
    assert Follows(slices[j - 1], slices[j]);
    if i < j - 1 { TilingAscends(g, offset, slices, from, to, i, j - 1); }
  }

  predicate ChunksAscend(slices: seq<ChunkSlice>) {
    forall i, j :: 0 <= i < j < |slices| ==> slices[i].chunkIdx < slices[j].chunkIdx
  }

  lemma TilingChunksAscend(g: Geometry, offset: nat, slices: seq<ChunkSlice>, to: nat)
    requires g.Valid() && Tiles(g, offset, slices, 0, to)
    ensures ChunksAscend(slices)
  {
    forall i, j | 0 <= i < j < |slices| ensures slices[i].chunkIdx < slices[j].chunkIdx {
      TilingAscends(g, offset, slices, 0, to, i, j);
    }
  }

  // A buffer byte is in the slice of its chunk.
  lemma ByteInItsSlice(g: Geometry, offset: nat, slices: seq<ChunkSlice>, len: nat, k: nat, j: nat)
    requires g.Valid() && Tiles(g, offset, slices, 0, len) && k < |slices| && j < len
    ensures Locate(g, offset + j).chunk == slices[k].chunkIdx <==> InBuffer(slices[k], j)
  {
    hide Locate, Start, Capacity;
    var m := TilingCovers(g, offset, slices, 0, len, j);
    assert InChunk(g, offset, slices[m]) && InChunk(g, offset, slices[k]);
    SliceOwns(g, offset, slices[m], offset + j);
    SliceOwns(g, offset, slices[k], offset + j);
    if m < k { TilingAscends(g, offset, slices, 0, len, m, k); }
    if k < m { TilingAscends(g, offset, slices, 0, len, k, m); }
  }

  lemma StageWithinCapacity(g: Geometry, stored: ChunkMap, pending: Pending, offset: nat, s: ChunkSlice, data: bytes)
    requires g.Valid() && InChunk(g, offset, s) && s.bufOffset + s.len <= |data|
    requires WithinCapacity(g, Overlay(stored, pending))
    ensures var chunk := Splice(ChunkAt(Overlay(stored, pending), s.chunkIdx), s.chunkOffset, SliceData(s, data));
      WithinCapacity(g, Overlay(stored, pending[s.chunkIdx := Written(chunk)]))
  {
    hide Splice, Start;
  }

  // What is staged stays within capacity when the stored chunks go.
  lemma StagedAloneWithinCapacity(g: Geometry, stored: ChunkMap, pending: Pending)
    requires WithinCapacity(g, Overlay(stored, pending))
    ensures WithinCapacity(g, Overlay(map[], pending))
  {
    hide Capacity;
    forall i | i in Overlay(map[], pending) ensures |Overlay(map[], pending)[i]| <= Capacity(g, i) {
      assert i in Overlay(stored, pending);
    }
  }

  lemma FitsWithinCapacity(g: Geometry, chunks: ChunkMap, end: nat)
    requires Fits(g, chunks, end)
    ensures WithinCapacity(g, chunks)
  {
  }

  // -------------------------------------------------------------------------
  // Reading: slices are copied out of their chunks one after another

  // A short chunk contributes only the bytes it has.
  function CopySlice(buf: bytes, s: ChunkSlice, chunk: bytes): (r: bytes)
    ensures |r| == |buf|
    ensures forall j :: 0 <= j < |buf| ==>
      r[j] == if InBuffer(s, j) && s.chunkOffset + (j - s.bufOffset) < |chunk| then chunk[s.chunkOffset + (j - s.bufOffset)]
              else buf[j]
  {
    seq(|buf|, j requires 0 <= j < |buf| =>
      if InBuffer(s, j) && s.chunkOffset + (j - s.bufOffset) < |chunk| then chunk[s.chunkOffset + (j - s.bufOffset)]
      else buf[j])
  }

  function CopySlices(buf: bytes, slices: seq<ChunkSlice>, chunks: ChunkMap): (r: bytes)
    ensures |r| == |buf|
  {
    if slices == [] then buf
    else
      var n := |slices| - 1;
      CopySlice(CopySlices(buf, slices[..n], chunks), slices[n], ChunkAt(chunks, slices[n].chunkIdx))
  }

  predicate HasChunk(slices: seq<ChunkSlice>, chunk: nat) {
    exists s :: s in slices && s.chunkIdx == chunk
  }

  // The position lies past the end of a short chunk, and not right behind it.
  predicate InGap(g: Geometry, chunks: ChunkMap, position: nat)
    requires g.Valid()
  {
    var l := Locate(g, position);
    l.chunk < U64_LIMIT && l.chunk in chunks && |chunks[l.chunk]| < l.offset
  }

  // A slice that starts past the end of its chunk.
  predicate StartsPast(s: ChunkSlice, chunks: ChunkMap) {
    s.chunkIdx in chunks && |chunks[s.chunkIdx]| < s.chunkOffset
  }

  // Only the first slice of a range can start past the end of its chunk, and
  // does when the range starts in a gap.
  lemma StartsPastIff(g: Geometry, len: nat, offset: u64, chunks: ChunkMap, s: ChunkSlice)
    requires g.Valid() && offset + len < U64_LIMIT && s in Split(g, len, offset)
    ensures StartsPast(s, chunks) ==> s == Split(g, len, offset)[0]
    ensures StartsPast(Split(g, len, offset)[0], chunks) <==> InGap(g, chunks, offset)
    ensures Split(g, len, offset)[0].chunkIdx == Locate(g, offset).chunk
  {
    hide Split, Locate;
    var slices := Split(g, len, offset);
    SplitTiles(g, len, offset);
    var k :| 0 <= k < |slices| && slices[k] == s;
    if k > 0 { assert Follows(slices[k - 1], slices[k]); }
    SliceInChunk(g, offset, slices, 0, len, 0);
    SliceOwns(g, offset, slices[0], offset);
  }

  // The bytes around the start of a gap read as zero.
  lemma GapReadsZero(g: Geometry, chunks: ChunkMap, position: nat)
    requires g.Valid() && InGap(g, chunks, position)
    ensures position > 0 && Byte(g, chunks, position) == Byte(g, chunks, position - 1) == 0
  {
    hide Start;
    var l := Locate(g, position);
    LocateSound(g, position);
    LocateUnique(g, l.chunk, l.offset - 1);
    hide Locate;
  }

  // What any selection of a range's slices leaves at one buffer byte.
  lemma {:induction false} CopySlicesAt(
    g: Geometry, offset: u64, slices: seq<ChunkSlice>, len: nat, some: seq<ChunkSlice>, chunks: ChunkMap, buf: bytes, j: nat)
    requires g.Valid() && offset + len < U64_LIMIT && len <= |buf| && j < |buf|
    requires Tiles(g, offset, slices, 0, len) && forall s :: s in some ==> s in slices
    ensures j >= len ==> CopySlices(buf, some, chunks)[j] == buf[j]
    ensures j < len ==>
      var l := Locate(g, offset + j);
      l.chunk < U64_LIMIT &&
      CopySlices(buf, some, chunks)[j]
      == if HasChunk(some, l.chunk) && l.offset < |ChunkAt(chunks, l.chunk)| then ChunkAt(chunks, l.chunk)[l.offset] else buf[j]
    decreases |some|
  {
    hide Locate, Start, Capacity, Tiles, CopySlice, HasChunk;
    if j < len { LocateSound(g, offset + j); }
    if some == [] {
      NoChunk();
    } else {
      var n := |some| - 1;
      var s := some[n];
      CopySlicesAt(g, offset, slices, len, some[..n], chunks, buf, j);
      TilingBounds(g, offset, slices, 0, len);
      assert s in slices;
      if j < len {
        SliceByte(g, offset, slices, len, s, j);
        HasChunkSnoc(some, Locate(g, offset + j).chunk);
      }
    }
  }

  lemma NoChunk()
    ensures forall c: nat :: !HasChunk([], c)
  {
  }

  lemma HasChunkSnoc(slices: seq<ChunkSlice>, chunk: nat)
    requires slices != []
    ensures HasChunk(slices, chunk) <==> HasChunk(slices[..|slices| - 1], chunk) || slices[|slices| - 1].chunkIdx == chunk
  {
    var n := |slices| - 1;
    assert slices == slices[..n] + [slices[n]];
  }

  // A slice of a tiled range has a buffer byte exactly when it has its chunk,
  // and then at the byte's offset.
  lemma SliceByte(g: Geometry, offset: u64, slices: seq<ChunkSlice>, len: nat, s: ChunkSlice, j: nat)
    requires g.Valid() && Tiles(g, offset, slices, 0, len) && s in slices && j < len
    ensures var l := Locate(g, offset + j);
      && (l.chunk == s.chunkIdx <==> InBuffer(s, j))
      && (InBuffer(s, j) ==> l.offset == s.chunkOffset + (j - s.bufOffset))
  {
    hide Locate, Start, Capacity, Tiles;
    var k :| 0 <= k < |slices| && slices[k] == s;
    ByteInItsSlice(g, offset, slices, len, k, j);
    SliceInChunk(g, offset, slices, 0, len, k);
    SliceOwns(g, offset, s, offset + j);
  }

  lemma SliceInChunk(g: Geometry, offset: nat, slices: seq<ChunkSlice>, from: nat, to: nat, k: nat)
    requires g.Valid() && Tiles(g, offset, slices, from, to) && k < |slices|
    ensures InChunk(g, offset, slices[k])
  {
  }

  // The slices whose chunk is not staged, in order.
  function Unstaged(slices: seq<ChunkSlice>, pending: Pending): (r: seq<ChunkSlice>)
    ensures forall s :: s in r <==> s in slices && s.chunkIdx !in pending
  {
    if slices == [] then []
    else
      var n := |slices| - 1;
      Unstaged(slices[..n], pending) + if slices[n].chunkIdx in pending then [] else [slices[n]]
  }

  lemma CopyNothing(buf: bytes, s: ChunkSlice)
    ensures CopySlice(buf, s, []) == buf
  {
  }

  lemma {:induction false} UnstagedAscends(slices: seq<ChunkSlice>, pending: Pending)
    requires ChunksAscend(slices)
    ensures ChunksAscend(Unstaged(slices, pending))
    ensures forall i :: 0 < i < |Unstaged(slices, pending)| ==>
      IndicesOf(Unstaged(slices, pending))[i - 1] < IndicesOf(Unstaged(slices, pending))[i]
  {
    if slices != [] {
      var n := |slices| - 1;
      var r := Unstaged(slices[..n], pending);
      UnstagedAscends(slices[..n], pending);
      forall s | s in r ensures s.chunkIdx < slices[n].chunkIdx {
        var k :| 0 <= k < n && slices[k] == s;
      }
    }
  }

  function IndicesOf(slices: seq<ChunkSlice>): seq<u64> {
    seq(|slices|, i requires 0 <= i < |slices| => slices[i].chunkIdx)
  }

  function Selected(stored: ChunkMap, indices: seq<u64>): ChunkMap {
    map i | i in stored && i in indices :: stored[i]
  }

  lemma FetchedMatches(slices: seq<ChunkSlice>, fetched: ChunkMap, stored: ChunkMap)
    requires fetched == Selected(stored, IndicesOf(slices))
    ensures forall i: u64 :: HasChunk(slices, i) ==> ChunkAt(fetched, i) == ChunkAt(stored, i)
  {
    forall i: u64 | HasChunk(slices, i) ensures i in IndicesOf(slices) {
      var s :| s in slices && s.chunkIdx == i;
      var n :| 0 <= n < |slices| && slices[n] == s;
      assert IndicesOf(slices)[n] == i;
    }
  }

  // What was fetched of a slice's chunk is what is stored of it.
  lemma FetchedStarts(slices: seq<ChunkSlice>, fetched: ChunkMap, stored: ChunkMap, s: ChunkSlice)
    requires fetched == Selected(stored, IndicesOf(slices)) && s in slices
    ensures StartsPast(s, fetched) <==> StartsPast(s, stored)
  {
    var n :| 0 <= n < |slices| && slices[n] == s;
    assert IndicesOf(slices)[n] == s.chunkIdx;
  }

  lemma StartsPastOverlay(stored: ChunkMap, pending: Pending, s: ChunkSlice)
    ensures StartsPast(s, Overlay(stored, pending))
      <==> if s.chunkIdx in pending then StartsPast(s, Overlay(map[], pending)) else StartsPast(s, stored)
    ensures StartsPast(s, Overlay(map[], pending)) ==> s.chunkIdx in pending
  {
  }

  lemma CopyNone(buf: bytes, slices: seq<ChunkSlice>, chunks: ChunkMap, pending: Pending)
    ensures CopySlices(buf, slices[..0], chunks) == buf && Unstaged(slices[..0], pending) == []
  {
  }

  lemma CopySlicesNext(buf: bytes, slices: seq<ChunkSlice>, n: nat, chunks: ChunkMap)
    requires n < |slices|
    ensures CopySlices(buf, slices[..n + 1], chunks)
      == CopySlice(CopySlices(buf, slices[..n], chunks), slices[n], ChunkAt(chunks, slices[n].chunkIdx))
  {
    assert slices[..n + 1][..n] == slices[..n];
  }

  lemma UnstagedNext(slices: seq<ChunkSlice>, n: nat, pending: Pending)
    requires n < |slices|
    ensures Unstaged(slices[..n + 1], pending)
      == Unstaged(slices[..n], pending) + if slices[n].chunkIdx in pending then [] else [slices[n]]
  {
    assert slices[..n + 1][..n] == slices[..n];
  }

  // What is staged of a slice's chunk: its contents, or nothing to copy.
  lemma StagedChunk(pending: Pending, s: ChunkSlice)
    ensures var chunk := ChunkAt(Overlay(map[], pending), s.chunkIdx);
      if s.chunkIdx in pending && pending[s.chunkIdx].Written? then
        chunk == pending[s.chunkIdx].data && (StartsPast(s, Overlay(map[], pending)) <==> |chunk| < s.chunkOffset)
      else chunk == [] && !StartsPast(s, Overlay(map[], pending))
  {
  }

  // Copying the staged chunks first and then only the fetched ones shows every
  // byte as looking it up through the overlay would.
  lemma TwoPassRead(
    g: Geometry, stored: ChunkMap, pending: Pending, offset: u64, len: nat, fetched: ChunkMap, buf: bytes, j: nat)
    requires g.Valid() && offset + len < U64_LIMIT && len <= |buf| && j < |buf|
    requires forall i :: 0 <= i < len ==> buf[i] == 0
    requires var slices := Split(g, len, offset);
      forall i: u64 :: HasChunk(Unstaged(slices, pending), i) ==> ChunkAt(fetched, i) == ChunkAt(stored, i)
    ensures
      var slices := Split(g, len, offset);
      var first := CopySlices(buf, slices, Overlay(map[], pending));
      CopySlices(first, Unstaged(slices, pending), fetched)[j]
      == if j < len then Byte(g, Overlay(stored, pending), offset + j) else buf[j]
  {
    hide Locate, Start, Capacity, CopySlices, Unstaged, Tiles, Split;
    var slices := Split(g, len, offset);
    SplitTiles(g, len, offset);
    var staged := Overlay(map[], pending);
    var first := CopySlices(buf, slices, staged);
    CopySlicesAt(g, offset, slices, len, slices, staged, buf, j);
    CopySlicesAt(g, offset, slices, len, Unstaged(slices, pending), fetched, first, j);
    if j < len {
      var chunk := Locate(g, offset + j).chunk;
      var k := TilingCovers(g, offset, slices, 0, len, j);
      ByteInItsSlice(g, offset, slices, len, k, j);
      assert slices[k] in slices && HasChunk(slices, chunk);
      assert HasChunk(Unstaged(slices, pending), chunk) <==> chunk !in pending;
    }
  }

  // -------------------------------------------------------------------------
  // Truncating

  // Keep the chunks of the first `size` bytes, and of the last one only those.
  function Cut(g: Geometry, chunks: ChunkMap, size: nat): ChunkMap
    requires g.Valid()
  {
    if size == 0 then map[]
    else
      var last := Locate(g, size - 1);
      map i | i in chunks && i <= last.chunk
        :: if i == last.chunk && |chunks[i]| > last.offset + 1 then chunks[i][..last.offset + 1] else chunks[i]
  }

  function MarkDeleted(pending: Pending, doomed: set<u64>): (r: Pending)
    ensures forall i :: i in r <==> i in pending || i in doomed
    ensures forall i :: i in r ==> r[i] == if i in doomed then Deleted else pending[i]
  {
    map i | i in pending.Keys + doomed :: if i in doomed then Deleted else pending[i]
  }

  function IndicesFrom(stored: ChunkMap, min: nat): set<u64> {
    set i | i in stored && i >= min
  }

  function Kept(pending: Pending, last: nat): (r: Pending)
    ensures forall i :: i in r <==> i in pending && i <= last
    ensures forall i :: i in r ==> r[i] == pending[i]
  {
    map i | i in pending && i <= last :: pending[i]
  }

  // What is staged for the new last chunk: its own staged write cut short, or
  // the stored chunk cut short. A staged deletion stays.
  function ShortenLast(stored: ChunkMap, kept: Pending, last: u64, lastLen: nat): (r: Pending)
    ensures forall i :: i != last ==> (i in r <==> i in kept) && (i in r ==> r[i] == kept[i])
  {
    if last in kept then
      if kept[last].Written? && |kept[last].data| > lastLen
      then kept[last := Written(kept[last].data[..lastLen])] else kept
    else if last in stored && |stored[last]| > lastLen
    then kept[last := Written(stored[last][..lastLen])] else kept
  }

  // ChunkManager::truncate on values.
  function TruncatePending(g: Geometry, stored: ChunkMap, pending: Pending, size: u64): Pending
    requires g.Valid()
  {
    if size == 0 then MarkDeleted(map[], IndicesFrom(stored, 0))
    else
      LocateSound(g, size - 1);
      var last := Locate(g, size - 1);
      MarkDeleted(ShortenLast(stored, Kept(pending, last.chunk), last.chunk, last.offset + 1), IndicesFrom(stored, last.chunk + 1))
  }

  // What the overlay shows of chunk `i` once it was cut at `lastLen` bytes of `last`.
  lemma TruncateAt(stored: ChunkMap, pending: Pending, last: u64, lastLen: nat, i: u64)
    ensures
      var shown := Overlay(stored, MarkDeleted(ShortenLast(stored, Kept(pending, last), last, lastLen), IndicesFrom(stored, last + 1)));
      var before := Overlay(stored, pending);
      && (i in shown <==> i in before && i <= last)
      && (i in shown ==> shown[i] == if i == last && |before[i]| > lastLen then before[i][..lastLen] else before[i])
  {
  }

  lemma CutAt(g: Geometry, chunks: ChunkMap, size: nat, i: u64)
    requires g.Valid() && size > 0
    ensures var last := Locate(g, size - 1);
      && (i in Cut(g, chunks, size) <==> i in chunks && i <= last.chunk)
      && (i in Cut(g, chunks, size) ==>
            Cut(g, chunks, size)[i]
            == if i == last.chunk && |chunks[i]| > last.offset + 1 then chunks[i][..last.offset + 1] else chunks[i])
  {
    hide Locate;
  }

  // Dropping what was staged past the new end is safe, because everything
  // stored there is staged as deleted.
  lemma TruncateIsCut(g: Geometry, stored: ChunkMap, pending: Pending, size: u64)
    requires g.Valid()
    ensures Overlay(stored, TruncatePending(g, stored, pending, size)) == Cut(g, Overlay(stored, pending), size)
  {
    hide Locate, ShortenLast, MarkDeleted, IndicesFrom, Overlay, Cut, Kept;
    if size == 0 {
      TruncateToNothing(g, stored, pending);
    } else {
      LocateSound(g, size - 1);
      var last := Locate(g, size - 1);
      var cut, shown := Cut(g, Overlay(stored, pending), size), Overlay(stored, TruncatePending(g, stored, pending, size));
      forall i: u64 ensures (i in shown <==> i in cut) && (i in shown ==> shown[i] == cut[i]) {
        TruncateAt(stored, pending, last.chunk, last.offset + 1, i);
        CutAt(g, Overlay(stored, pending), size, i);
      }
      assert shown.Keys == cut.Keys;
    }
  }

  lemma TruncateToNothing(g: Geometry, stored: ChunkMap, pending: Pending)
    requires g.Valid()
    ensures Overlay(stored, TruncatePending(g, stored, pending, 0)) == map[] == Cut(g, Overlay(stored, pending), 0)
  {
  }

  lemma CutFits(g: Geometry, chunks: ChunkMap, end: nat, size: nat)
    requires g.Valid() && Fits(g, chunks, end) && size <= end
    ensures Fits(g, Cut(g, chunks, size), size)
  {
    var cut := Cut(g, chunks, size);
    if size > 0 {
      hide Locate;
      var last := Locate(g, size - 1);
      LocateSound(g, size - 1);
      forall i | i in cut ensures 0 < |cut[i]| <= Capacity(g, i) && Start(g, i) + |cut[i]| <= size {
        if i < last.chunk { StartMonotone(g, i, last.chunk); }
      }
    }
  }

  lemma CutShows(g: Geometry, chunks: ChunkMap, tape: bytes, size: nat)
    requires g.Valid() && Shows(g, chunks, tape) && Fits(g, chunks, |tape|) && size <= |tape|
    ensures Shows(g, Cut(g, chunks, size), tape[..size]) && Fits(g, Cut(g, chunks, size), size)
  {
    hide Locate, Start, Capacity, Fits;
    var cut := Cut(g, chunks, size);
    CutFits(g, chunks, |tape|, size);
    forall p: nat ensures Byte(g, cut, p) == ByteIn(tape[..size], p) {
      assert Byte(g, chunks, p) == ByteIn(tape, p);
      LocateSound(g, p);
      if p >= size {
        FitsMeansZeroTail(g, cut, size, p);
      } else {
        LocateOrder(g, p, size - 1);
      }
    }
  }

  lemma TruncateWithinCapacity(g: Geometry, stored: ChunkMap, pending: Pending, size: u64)
    requires g.Valid() && WithinCapacity(g, Overlay(stored, pending))
    ensures WithinCapacity(g, Overlay(stored, TruncatePending(g, stored, pending, size)))
  {
    hide Locate, Capacity, Overlay, TruncatePending;
    TruncateIsCut(g, stored, pending, size);
  }

  // Locating keeps the order of positions.
  lemma LocateOrder(g: Geometry, p: nat, q: nat)
    requires g.Valid() && p <= q
    ensures var a, b := Locate(g, p), Locate(g, q);
      a.chunk < b.chunk || (a.chunk == b.chunk && a.offset <= b.offset)
  {
    LocateSound(g, p);
    LocateSound(g, q);
    var a, b := Locate(g, p), Locate(g, q);
    if b.chunk < a.chunk { StartMonotone(g, b.chunk, a.chunk); }
  }

  // A longer file needs no new chunks: its tape is the old one plus zeros.
  lemma GrowShows(g: Geometry, chunks: ChunkMap, tape: bytes, size: nat)
    requires g.Valid() && Shows(g, chunks, tape) && Fits(g, chunks, |tape|)
    ensures Shows(g, chunks, Padded(tape, size)) && Fits(g, chunks, |Padded(tape, size)|)
  {
    forall p: nat ensures Byte(g, chunks, p) == ByteIn(Padded(tape, size), p) {
      assert Byte(g, chunks, p) == ByteIn(tape, p);
    }
  }

  // Two tapes of one length shown by the same chunks are the same tape.
  lemma ShowsUnique(g: Geometry, chunks: ChunkMap, a: bytes, b: bytes)
    requires g.Valid() && Shows(g, chunks, a) && Shows(g, chunks, b) && |a| == |b|
    ensures a == b
  {
    forall i | 0 <= i < |a| ensures a[i] == b[i] {
      assert Byte(g, chunks, i) == ByteIn(a, i) == ByteIn(b, i);
    }
  }
}
