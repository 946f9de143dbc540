// The per-file record (rust/src/file_metadata.rs) and its protobuf form.
module Metadata {
  import opened Bytes
  import opened Geometry

  const DEFAULT_CHUNK_SIZE: u64 := 262144
  const DEFAULT_CHUNK_BASE_OFFSET: u64 := 12288

  datatype FileMetadata = FileMetadata(size: u64, geometry: Geometry)

  const NEW_METADATA := FileMetadata(0, Geometry(DEFAULT_CHUNK_SIZE, DEFAULT_CHUNK_BASE_OFFSET))

  // validated_chunk_size: on a 64-bit machine every chunk size fits a usize.
  function ValidatedGeometry(m: FileMetadata): (r: Result<Geometry>)
    ensures r.Success? <==> m.geometry.base < m.geometry.chunkSize
    ensures r.Success? ==> r.value == m.geometry
  {
    if m.geometry.chunkSize == 0 then Failure(InvalidArgument)
    else if m.geometry.base >= m.geometry.chunkSize then Failure(InvalidArgument)
    else Success(m.geometry)
  }

  // -------------------------------------------------------------------------
  // Base-128 varints

  function Pow128(w: nat): nat { if w == 0 then 1 else 128 * Pow128(w - 1) }

  function EncodeVarint(n: nat): bytes {
    if n < 128 then [n] else [n % 128 + 128] + EncodeVarint(n / 128)
  }

  // At most `width` bytes are read; the rest of the input is handed back.
  function DecodeVarint(b: bytes, width: nat): Option<(nat, bytes)> {
    if b == [] || width == 0 then None
    else if b[0] < 128 then Some((b[0], b[1..]))
    else
      match DecodeVarint(b[1..], width - 1)
      case Some((n, rest)) => Some((b[0] - 128 + 128 * n, rest))
      case None => None
  }

  lemma {:induction false} VarintRoundTrip(n: nat, rest: bytes, width: nat)
    requires width > 0 && n < Pow128(width)
    ensures DecodeVarint(EncodeVarint(n) + rest, width) == Some((n, rest))
    decreases width
  {
    if n >= 128 {
      var tail := EncodeVarint(n / 128);
      assert (EncodeVarint(n) + rest)[1..] == tail + rest;
      VarintRoundTrip(n / 128, rest, width - 1);
    } else {
      assert (EncodeVarint(n) + rest)[1..] == rest;
    }
  }

  lemma WordFitsVarint()
    ensures U64_LIMIT <= Pow128(10)
  {
    assert Pow128(5) == 0x8_0000_0000;
  }

  // -------------------------------------------------------------------------
  // Records: one tagged varint a field, zero fields omitted

  const TAG_SIZE: byte := 8
  const TAG_MODIFIED: byte := 16
  const TAG_CHUNK_SIZE: byte := 24
  const TAG_BASE: byte := 32

  function EncodeField(tag: byte, n: u64): bytes {
    if n == 0 then [] else [tag] + EncodeVarint(n)
  }

  function Encode(m: FileMetadata): bytes {
    EncodeField(TAG_SIZE, m.size)
    + (EncodeField(TAG_CHUNK_SIZE, m.geometry.chunkSize) + EncodeField(TAG_BASE, m.geometry.base))
  }

  function DecodeFields(b: bytes, m: FileMetadata): (r: Result<FileMetadata>)
    ensures r.Failure? ==> r.error == MetadataDecode
    decreases |b|
  {
    if b == [] then Success(m)
    else
      match DecodeVarint(b[1..], 10)
      case None => Failure(MetadataDecode)
      case Some((n, rest)) =>
        if n >= U64_LIMIT || |rest| >= |b| then Failure(MetadataDecode)
        else if b[0] == TAG_SIZE then DecodeFields(rest, m.(size := n))
        else if b[0] == TAG_MODIFIED then DecodeFields(rest, m)
        else if b[0] == TAG_CHUNK_SIZE then DecodeFields(rest, m.(geometry := m.geometry.(chunkSize := n)))
        else if b[0] == TAG_BASE then DecodeFields(rest, m.(geometry := m.geometry.(base := n)))
        else Failure(MetadataDecode)
  }

  function Decode(b: bytes): (r: Result<FileMetadata>)
    ensures r.Failure? ==> r.error == MetadataDecode
  {
    DecodeFields(b, FileMetadata(0, Geometry(0, 0)))
  }

  lemma DecodeOneField(tag: byte, n: u64, rest: bytes, m: FileMetadata)
    requires tag == TAG_SIZE || tag == TAG_CHUNK_SIZE || tag == TAG_BASE
    requires n != 0
    ensures DecodeFields(EncodeField(tag, n) + rest, m) == DecodeFields(rest,
      if tag == TAG_SIZE then m.(size := n)
      else if tag == TAG_CHUNK_SIZE then m.(geometry := m.geometry.(chunkSize := n))
      else m.(geometry := m.geometry.(base := n)))
  {
    WordFitsVarint();
    VarintRoundTrip(n, rest, 10);
    assert (EncodeField(tag, n) + rest)[1..] == EncodeVarint(n) + rest;
  }

  // The wire form of two records: fields 1, 3 and 4, each left out when 0.
  lemma RecordExamples()
    ensures Encode(FileMetadata(1, Geometry(300, 5))) == [8, 1, 24, 172, 2, 32, 5]
    ensures Encode(FileMetadata(0, Geometry(1, 0))) == [24, 1]
  {
    assert EncodeVarint(300) == [172] + EncodeVarint(2);
    hide EncodeVarint;
    assert EncodeVarint(1) == [1] && EncodeVarint(2) == [2] && EncodeVarint(5) == [5] by { SmallVarints(); }
  }

  lemma SmallVarints()
    ensures forall n: nat :: n < 128 ==> EncodeVarint(n) == [n]
  {
  }

  lemma DecodeEncodes(m: FileMetadata)
    ensures Decode(Encode(m)) == Success(m)
  {
    var a, b, c := EncodeField(TAG_SIZE, m.size), EncodeField(TAG_CHUNK_SIZE, m.geometry.chunkSize),
      EncodeField(TAG_BASE, m.geometry.base);
    var m0 := FileMetadata(0, Geometry(0, 0));
    var m1 := m0.(size := m.size);
    var m2 := m1.(geometry := Geometry(m.geometry.chunkSize, 0));
    assert DecodeFields(a + (b + c), m0) == DecodeFields(b + c, m1) by {
      if m.size != 0 { DecodeOneField(TAG_SIZE, m.size, b + c, m0); } else { assert a + (b + c) == b + c; }
    }
    assert DecodeFields(b + c, m1) == DecodeFields(c, m2) by {
      if m.geometry.chunkSize != 0 { DecodeOneField(TAG_CHUNK_SIZE, m.geometry.chunkSize, c, m1); }
      else { assert b + c == c; }
    }
    if m.geometry.base != 0 {
      DecodeOneField(TAG_BASE, m.geometry.base, [], m2);
      assert c + [] == c;
    }
  }
}
