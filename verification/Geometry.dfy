// How a file is cut into chunks: a short chunk 0 of `base` bytes when `base` is
// not zero, then chunks of `chunkSize` bytes (rust/src/chunk_manager.rs:188-224).
module Geometry {
  import opened Bytes

  datatype Geometry = Geometry(chunkSize: u64, base: u64) {
    // What validated_chunk_size accepts.
    predicate Valid() { base < chunkSize }
  }

  // A position as a chunk and an offset inside it.
  datatype Location = Location(chunk: nat, offset: nat)

  function Locate(g: Geometry, position: nat): Location
    requires g.Valid()
  {
    if position < g.base then Location(0, position)
    else
      var aligned := position - g.base;
      Location(aligned / g.chunkSize + if g.base != 0 then 1 else 0, aligned % g.chunkSize)
  }

  function Start(g: Geometry, chunk: nat): nat {
    if g.base == 0 then chunk * g.chunkSize
    else if chunk == 0 then 0
    else g.base + (chunk - 1) * g.chunkSize
  }

  function Capacity(g: Geometry, chunk: nat): nat {
    if g.base != 0 && chunk == 0 then g.base else g.chunkSize
  }

  lemma DivModParts(a: nat, c: nat)
    requires c > 0
    ensures (a / c) * c + a % c == a && a % c < c && a / c <= a
  {
    assert a == c * (a / c) + a % c;
    if a / c > a { MulMono(1, c, a / c); }
  }

  lemma MulMono(x: nat, y: nat, k: nat)
    requires x <= y
    ensures k * x <= k * y
  {
    assert k * y == k * x + k * (y - x);
    assert k * (y - x) >= 0;
  }

  lemma DivModUnique(k: nat, c: nat, o: nat)
    requires o < c
    ensures (k * c + o) / c == k && (k * c + o) % c == o
  {
    var a := k * c + o;
    DivModParts(a, c);
    var q := a / c;
    if q < k {
      MulMono(q + 1, k, c);
    } else if q > k {
      MulMono(k + 1, q, c);
    }
  }

  // Positions and in-capacity (chunk, offset) pairs correspond one to one: this
  // lemma and the next are the two halves.
  lemma LocateSound(g: Geometry, position: nat)
    requires g.Valid()
    ensures var l := Locate(g, position);
      && l.offset < Capacity(g, l.chunk)
      && Start(g, l.chunk) + l.offset == position
      && l.chunk <= position
  {
    if position >= g.base {
      var aligned := position - g.base;
      DivModParts(aligned, g.chunkSize);
    }
  }

  lemma LocateUnique(g: Geometry, chunk: nat, offset: nat)
    requires g.Valid() && offset < Capacity(g, chunk)
    ensures Locate(g, Start(g, chunk) + offset) == Location(chunk, offset)
  {
    if g.base == 0 {
      DivModUnique(chunk, g.chunkSize, offset);
    } else if chunk > 0 {
      MulMono(0, chunk - 1, g.chunkSize);
      DivModUnique(chunk - 1, g.chunkSize, offset);
    }
  }

  // The boundaries: chunk 0 is what lies below the base, when there is one, and
  // a full chunk starts at the base and every chunk size from there.
  lemma ChunkBoundaries(g: Geometry, position: nat, k: nat)
    requires g.Valid()
    ensures g.base > 0 ==> (Locate(g, position).chunk == 0 <==> position < g.base)
    ensures Locate(g, g.base + k * g.chunkSize) == Location(if g.base > 0 then k + 1 else k, 0)
  {
    LocateSound(g, position);
    MulMono(0, k, g.chunkSize);
    LocateUnique(g, if g.base > 0 then k + 1 else k, 0);
    if g.base > 0 && position >= g.base { DivModParts(position - g.base, g.chunkSize); }
  }

  // Chunks are laid end to end.
  lemma StartOfNext(g: Geometry, chunk: nat)
    requires g.Valid()
    ensures Start(g, chunk + 1) == Start(g, chunk) + Capacity(g, chunk)
  {
    assert (chunk + 1) * g.chunkSize == chunk * g.chunkSize + g.chunkSize;
    if chunk > 0 { assert chunk * g.chunkSize == (chunk - 1) * g.chunkSize + g.chunkSize; }
  }

  lemma {:induction false} StartMonotone(g: Geometry, a: nat, b: nat)
    requires g.Valid() && a < b
    ensures Start(g, a) + Capacity(g, a) <= Start(g, b)
    decreases b
  {
    StartOfNext(g, b - 1);
    if a < b - 1 { StartMonotone(g, a, b - 1); }
  }

  // -------------------------------------------------------------------------
  // Splitting a byte range into per-chunk slices

  datatype ChunkSlice = ChunkSlice(chunkIdx: u64, bufOffset: nat, chunkOffset: nat, len: nat)

  // The slice at `covered`: as much of the range as its chunk can hold.
  function SliceAt(g: Geometry, len: nat, offset: u64, covered: nat): (s: ChunkSlice)
    requires g.Valid() && covered < len && offset + len < U64_LIMIT
    ensures s.len > 0 && covered + s.len <= len
  {
    LocateSound(g, offset + covered);
    var l := Locate(g, offset + covered);
    var available := Capacity(g, l.chunk) - l.offset;
    ChunkSlice(l.chunk, covered, l.offset, if len - covered <= available then len - covered else available)
  }

  function SplitFrom(g: Geometry, len: nat, offset: u64, covered: nat): seq<ChunkSlice>
    requires g.Valid() && covered <= len && offset + len < U64_LIMIT
    decreases len - covered
  {
    if covered == len then []
    else
      var s := SliceAt(g, len, offset, covered);
      [s] + SplitFrom(g, len, offset, covered + s.len)
  }

  function Split(g: Geometry, len: nat, offset: u64): seq<ChunkSlice>
    requires g.Valid() && offset + len < U64_LIMIT
  {
    SplitFrom(g, len, offset, 0)
  }

  lemma SplitStep(g: Geometry, len: nat, offset: u64, covered: nat)
    requires g.Valid() && covered < len && offset + len < U64_LIMIT
    ensures var s := SliceAt(g, len, offset, covered);
      SplitFrom(g, len, offset, covered) == [s] + SplitFrom(g, len, offset, covered + s.len)
  {
  }

  lemma SplitDone(g: Geometry, len: nat, offset: u64)
    requires g.Valid() && offset + len < U64_LIMIT
    ensures SplitFrom(g, len, offset, len) == []
  {
  }

  // The slice lies in its chunk and holds the file bytes its buffer range names.
  predicate InChunk(g: Geometry, offset: nat, s: ChunkSlice)
    requires g.Valid()
  {
    && s.len > 0
    && s.chunkOffset + s.len <= Capacity(g, s.chunkIdx)
    && Start(g, s.chunkIdx) + s.chunkOffset == offset + s.bufOffset
  }

  // `b` is the slice that follows `a`.
  predicate Follows(a: ChunkSlice, b: ChunkSlice) {
    b.bufOffset == a.bufOffset + a.len && b.chunkIdx == a.chunkIdx + 1 && b.chunkOffset == 0
  }

  // `slices` cover [from, to) of the buffer in order, without gap or overlap,
  // each in the chunk after the one before it.
  predicate Tiles(g: Geometry, offset: nat, slices: seq<ChunkSlice>, from: nat, to: nat)
    requires g.Valid()
  {
    && (forall i :: 0 <= i < |slices| ==> InChunk(g, offset, slices[i]))
    && (forall i :: 0 < i < |slices| ==> Follows(slices[i - 1], slices[i]))
    && (if slices == [] then from == to
        else slices[0].bufOffset == from && slices[|slices| - 1].bufOffset + slices[|slices| - 1].len == to)
  }

  // A slice ends where the range does or where its chunk does; in the second
  // case the slice after it starts the next chunk.
  lemma SliceAtFits(g: Geometry, len: nat, offset: u64, covered: nat)
    requires g.Valid() && covered < len && offset + len < U64_LIMIT
    ensures var s := SliceAt(g, len, offset, covered);
      && InChunk(g, offset, s)
      && (covered + s.len < len ==> Follows(s, SliceAt(g, len, offset, covered + s.len)))
  {
    var s := SliceAt(g, len, offset, covered);
    LocateSound(g, offset + covered);
    if covered + s.len < len {
      StartOfNext(g, s.chunkIdx);
      LocateUnique(g, s.chunkIdx + 1, 0);
    }
  }

  lemma TilesCons(g: Geometry, offset: nat, s: ChunkSlice, rest: seq<ChunkSlice>, to: nat)
    requires g.Valid() && InChunk(g, offset, s)
    requires Tiles(g, offset, rest, s.bufOffset + s.len, to)
    requires rest != [] ==> Follows(s, rest[0])
    ensures Tiles(g, offset, [s] + rest, s.bufOffset, to)
  {
    var slices := [s] + rest;
    forall i | 0 <= i < |slices| ensures InChunk(g, offset, slices[i]) {
      if i > 0 { assert slices[i] == rest[i - 1]; }
    }
    forall i | 0 < i < |slices| ensures Follows(slices[i - 1], slices[i]) {
      if i > 1 { assert Follows(rest[i - 2], rest[i - 1]); }
    }
  }

  lemma TilesTail(g: Geometry, offset: nat, slices: seq<ChunkSlice>, from: nat, to: nat)
    requires g.Valid() && Tiles(g, offset, slices, from, to) && slices != []
    ensures Tiles(g, offset, slices[1..], from + slices[0].len, to)
    ensures |slices| > 1 ==> Follows(slices[0], slices[1])
  {
    var rest := slices[1..];
    forall i | 0 <= i < |rest| ensures InChunk(g, offset, rest[i]) {
      assert rest[i] == slices[i + 1];
    }
    forall i | 0 < i < |rest| ensures Follows(rest[i - 1], rest[i]) {
      assert Follows(slices[i], slices[i + 1]);
    }
  }

  lemma {:induction false} SplitFromTiles(g: Geometry, len: nat, offset: u64, covered: nat)
    requires g.Valid() && covered <= len && offset + len < U64_LIMIT
    ensures Tiles(g, offset, SplitFrom(g, len, offset, covered), covered, len)
    decreases len - covered
  {
    if covered < len {
      var s := SliceAt(g, len, offset, covered);
      SliceAtFits(g, len, offset, covered);
      SplitFromTiles(g, len, offset, covered + s.len);
      TilesCons(g, offset, s, SplitFrom(g, len, offset, covered + s.len), len);
    }
  }

  lemma SplitTiles(g: Geometry, len: nat, offset: u64)
    requires g.Valid() && offset + len < U64_LIMIT
    ensures Tiles(g, offset, Split(g, len, offset), 0, len)
  {
    SplitFromTiles(g, len, offset, 0);
  }

  lemma {:induction false} TilingAdvances(g: Geometry, offset: nat, slices: seq<ChunkSlice>, from: nat, to: nat)
    requires g.Valid() && Tiles(g, offset, slices, from, to)
    ensures from + (if slices == [] then 0 else slices[0].len) <= to
    decreases |slices|
  {
    if slices != [] {
      TilesTail(g, offset, slices, from, to);
      TilingAdvances(g, offset, slices[1..], from + slices[0].len, to);
    }
  }

  lemma SplitOneByte(g: Geometry, position: u64)
    requires g.Valid() && position + 1 < U64_LIMIT
    ensures |Split(g, 1, position)| == 1
    ensures var s := Split(g, 1, position)[0];
      Location(s.chunkIdx, s.chunkOffset) == Locate(g, position) && s.chunkIdx <= position
  {
    LocateSound(g, position);
    SplitStep(g, 1, position, 0);
    SplitDone(g, 1, position);
  }

  // A tiling is determined by the range: nothing else tiles it.
  lemma {:induction false} TilingUnique(g: Geometry, offset: nat, a: seq<ChunkSlice>, b: seq<ChunkSlice>, from: nat, to: nat)
    requires g.Valid() && Tiles(g, offset, a, from, to) && Tiles(g, offset, b, from, to)
    ensures a == b
    decreases |a|
  {
    TilingAdvances(g, offset, a, from, to);
    TilingAdvances(g, offset, b, from, to);
    if a != [] && b != [] {
      TilesTail(g, offset, a, from, to);
      TilesTail(g, offset, b, from, to);
      FirstSliceUnique(g, offset, a, b, from, to);
      TilingUnique(g, offset, a[1..], b[1..], from + a[0].len, to);
      assert a == [a[0]] + a[1..] && b == [b[0]] + b[1..];
    }
  }

  lemma FirstSliceUnique(g: Geometry, offset: nat, a: seq<ChunkSlice>, b: seq<ChunkSlice>, from: nat, to: nat)
    requires g.Valid() && Tiles(g, offset, a, from, to) && Tiles(g, offset, b, from, to)
    requires a != [] && b != []
    ensures a[0] == b[0]
  {
    LocateUnique(g, a[0].chunkIdx, a[0].chunkOffset);
    LocateUnique(g, b[0].chunkIdx, b[0].chunkOffset);
    StartOfNext(g, a[0].chunkIdx);
    TilingAdvances(g, offset, a, from, to);
    TilingAdvances(g, offset, b, from, to);
    assert |a| > 1 ==> Follows(a[0], a[1]) && InChunk(g, offset, a[1]);
    assert |b| > 1 ==> Follows(b[0], b[1]) && InChunk(g, offset, b[1]);
  }

  // Slice `i` of a tiling owns the positions located in its chunk, and only it.
  lemma SliceOwns(g: Geometry, offset: nat, s: ChunkSlice, position: nat)
    requires g.Valid() && InChunk(g, offset, s)
    ensures var l := Locate(g, position);
      (l.chunk == s.chunkIdx && s.chunkOffset <= l.offset < s.chunkOffset + s.len)
      <==> offset + s.bufOffset <= position < offset + s.bufOffset + s.len
    ensures offset + s.bufOffset <= position < offset + s.bufOffset + s.len ==>
      Locate(g, position).offset - s.chunkOffset == position - offset - s.bufOffset
  {
    LocateSound(g, position);
    if offset + s.bufOffset <= position < offset + s.bufOffset + s.len {
      LocateUnique(g, s.chunkIdx, s.chunkOffset + (position - offset - s.bufOffset));
    }
  }
}
