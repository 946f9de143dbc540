// The stable key encoding of rust/src/keys.rs and the path, counter and chunk
// index codecs that share the same key space.
module Keys {
  import opened Bytes

  // A logical path, as the bytes of its UTF-8 form.
  type Path = bytes

  const CHUNK_FAMILY: bytes := Ascii("c/")
  const METADATA_FAMILY: bytes := Ascii("m/")
  const PATH_FAMILY: bytes := Ascii("p/")
  const NEXT_FILE_ID_KEY: bytes := Ascii("m/0000000000000000/next_file_id")

  const HEX_WIDTH := 16

  // -------------------------------------------------------------------------
  // Fixed-width lower-case hexadecimal

  function HexDigit(d: nat): byte
    requires d < 16
  {
    if d < 10 then 48 + d else 87 + d
  }

  function Pow16(w: nat): nat { if w == 0 then 1 else 16 * Pow16(w - 1) }

  function HexFixed(n: nat, w: nat): (s: bytes)
    ensures |s| == w
  {
    if w == 0 then [] else HexFixed(n / 16, w - 1) + [HexDigit(n % 16)]
  }

  lemma HexWordFits()
    ensures Pow16(HEX_WIDTH) == U64_LIMIT
  {
    assert Pow16(4) == 0x1_0000;
    assert Pow16(8) == 0x1_0000_0000;
    assert Pow16(12) == 0x1_0000_0000_0000;
  }

  // Both letter cases are digits to from_str_radix.
  function DigitValue(b: byte): (d: Option<nat>)
    ensures d.Some? ==> d.value < 16
  {
    if 48 <= b <= 57 then Some(b - 48)
    else if 97 <= b <= 102 then Some(b - 87)
    else if 65 <= b <= 70 then Some(b - 55)
    else None
  }

  function HexValue(s: bytes): Option<nat> {
    if s == [] then Some(0)
    else
      match (HexValue(s[..|s| - 1]), DigitValue(s[|s| - 1]))
      case (Some(v), Some(d)) => Some(16 * v + d)
      case _ => None
  }

  lemma {:induction false} HexFixedValue(n: nat, w: nat)
    requires n < Pow16(w)
    ensures HexValue(HexFixed(n, w)) == Some(n)
    ensures forall i :: 0 <= i < w ==> DigitValue(HexFixed(n, w)[i]).Some?
  {
    if w > 0 {
      HexFixedValue(n / 16, w - 1);
      assert HexFixed(n, w)[..w - 1] == HexFixed(n / 16, w - 1);
    }
  }

  // Zero padding makes the numeric order and the byte order one order.
  lemma {:induction false} HexFixedOrder(a: nat, b: nat, w: nat)
    requires a < Pow16(w) && b < Pow16(w)
    ensures LexLe(HexFixed(a, w), HexFixed(b, w)) <==> a <= b
  {
    if w > 0 {
      HexFixedOrder(a / 16, b / 16, w - 1);
      HexFixedValue(a / 16, w - 1);
      HexFixedValue(b / 16, w - 1);
      LexLeSnoc(HexFixed(a / 16, w - 1), HexDigit(a % 16), HexFixed(b / 16, w - 1), HexDigit(b % 16));
    }
  }

  function Hex(n: u64): (s: bytes)
    ensures |s| == HEX_WIDTH
  {
    HexFixed(n, HEX_WIDTH)
  }

  // -------------------------------------------------------------------------
  // Keys

  function ChunkPrefix(fileId: u64): (k: bytes)
    ensures |k| == 19
  {
    CHUNK_FAMILY + Hex(fileId) + [SLASH]
  }

  function ChunkKey(fileId: u64, chunkIdx: u64): (k: bytes)
    ensures |k| == 35
  {
    ChunkPrefix(fileId) + Hex(chunkIdx)
  }

  function MetadataKey(fileId: u64): (k: bytes)
    ensures |k| == 18
  {
    METADATA_FAMILY + Hex(fileId)
  }

  function PathKey(path: Path): (k: bytes)
    ensures |k| == 2 + |path|
  {
    PATH_FAMILY + path
  }

  lemma {:induction false} HexZeros(w: nat)
    ensures HexFixed(0, w) == seq(w, _ => 48)
  {
    if w > 0 { HexZeros(w - 1); }
  }

  // Sixteen lower-case digits, most significant first, under the letter of the
  // family.
  lemma KeyLayout(f: u64, i: u64)
    ensures Hex(0xab) == seq(14, _ => 48) + [97, 98]
    ensures ChunkKey(f, i) == [99, 47] + Hex(f) + [47] + Hex(i)
    ensures MetadataKey(f) == [109, 47] + Hex(f)
    ensures PathKey([97]) == [112, 47, 97]
    ensures U64ToBytes(0x102) == [0, 0, 0, 0, 0, 0, 1, 2]
  {
    HexZeros(14);
    assert HexFixed(0xab, 16) == (HexFixed(0, 14) + [HexDigit(0xa)]) + [HexDigit(0xb)];
    assert CHUNK_FAMILY == [99, 47] && METADATA_FAMILY == [109, 47] && PATH_FAMILY == [112, 47];
    assert BigEndian(0, 6) == [0, 0, 0, 0, 0, 0] by { assert BigEndian(0, 3) == [0, 0, 0]; }
  }

  lemma HexInjective(a: u64, b: u64)
    requires Hex(a) == Hex(b)
    ensures a == b
  {
    HexWordFits();
    HexFixedValue(a, HEX_WIDTH);
    HexFixedValue(b, HEX_WIDTH);
  }

  lemma ChunkKeyParts(f: u64, i: u64)
    ensures ChunkKey(f, i)[..2] == CHUNK_FAMILY
    ensures ChunkKey(f, i)[2..18] == Hex(f)
    ensures ChunkKey(f, i)[18] == SLASH
    ensures ChunkKey(f, i)[19..] == Hex(i)
    ensures ChunkKey(f, i)[..19] == ChunkPrefix(f)
  {
  }

  lemma ChunkKeyInjective(f: u64, i: u64, f': u64, i': u64)
    ensures ChunkKey(f, i) == ChunkKey(f', i') ==> f == f' && i == i'
  {
    if ChunkKey(f, i) == ChunkKey(f', i') {
      ChunkKeyParts(f, i);
      ChunkKeyParts(f', i');
      HexInjective(f, f');
      HexInjective(i, i');
    }
  }

  lemma MetadataKeyInjective(f: u64, f': u64)
    ensures MetadataKey(f) == MetadataKey(f') ==> f == f'
  {
    if MetadataKey(f) == MetadataKey(f') {
      assert MetadataKey(f)[2..] == Hex(f) && MetadataKey(f')[2..] == Hex(f');
      HexInjective(f, f');
    }
  }

  lemma PathKeyInjective(p: Path, q: Path)
    ensures PathKey(p) == PathKey(q) ==> p == q
  {
    assert PathKey(p)[2..] == p && PathKey(q)[2..] == q;
  }

  // No key of one family is a key of another, whatever the ids and paths; in
  // particular the counter is not the metadata of file 0, though it extends it.
  lemma FamiliesDisjoint(f: u64, i: u64, g: u64, p: Path)
    ensures ChunkKey(f, i) != MetadataKey(g)
    ensures ChunkKey(f, i) != PathKey(p)
    ensures ChunkKey(f, i) != NEXT_FILE_ID_KEY
    ensures MetadataKey(g) != PathKey(p)
    ensures MetadataKey(g) != NEXT_FILE_ID_KEY
    ensures PathKey(p) != NEXT_FILE_ID_KEY
    ensures !StartsWith(MetadataKey(g), CHUNK_FAMILY)
    ensures !StartsWith(PathKey(p), CHUNK_FAMILY)
    ensures !StartsWith(NEXT_FILE_ID_KEY, CHUNK_FAMILY)
  {
    assert ChunkKey(f, i)[0] == CHUNK_FAMILY[0] == 99;
    assert MetadataKey(g)[0] == METADATA_FAMILY[0] == 109;
    assert PathKey(p)[0] == PATH_FAMILY[0] == 112;
    assert NEXT_FILE_ID_KEY[0] == 109;
    assert |NEXT_FILE_ID_KEY| == 31;
    assert forall k: bytes :: StartsWith(k, CHUNK_FAMILY) ==> k[..2][0] == CHUNK_FAMILY[0];
  }

  // A chunk scan never starts inside another family.
  lemma OtherFamiliesUnprefixed(f: u64, g: u64, p: Path)
    ensures !StartsWith(MetadataKey(g), ChunkPrefix(f))
    ensures !StartsWith(PathKey(p), ChunkPrefix(f))
    ensures !StartsWith(NEXT_FILE_ID_KEY, ChunkPrefix(f))
  {
    FamiliesDisjoint(f, 0, g, p);
    forall k: bytes | StartsWith(k, ChunkPrefix(f)) ensures StartsWith(k, CHUNK_FAMILY) {
      assert k[..2] == k[..19][..2] == CHUNK_FAMILY;
    }
  }

  // -------------------------------------------------------------------------
  // Scans

  // Chunk keys are the only keys of their family, which is all a scan needs to
  // know of a store this program wrote.
  ghost predicate WellFormedKeys(keys: set<bytes>) {
    forall k :: k in keys && StartsWith(k, CHUNK_FAMILY) ==> IsChunkKey(k)
  }

  ghost predicate IsChunkKey(k: bytes) {
    exists f: u64, i: u64 :: k == ChunkKey(f, i)
  }

  lemma ChunkKeyOrder(f: u64, i: u64, j: u64)
    ensures LexLe(ChunkKey(f, i), ChunkKey(f, j)) <==> i <= j
  {
    LexLeCancelPrefix(ChunkPrefix(f), Hex(i), Hex(j));
    HexWordFits();
    HexFixedOrder(i, j, HEX_WIDTH);
  }

  // Keys sort by file first, then by chunk.
  lemma ChunkKeyOrderAcrossFiles(f: u64, i: u64, f': u64, i': u64)
    requires f < f'
    ensures LexLe(ChunkKey(f, i), ChunkKey(f', i')) && !LexLe(ChunkKey(f', i'), ChunkKey(f, i))
  {
    ghost var a, b := [SLASH] + Hex(i), [SLASH] + Hex(i');
    assert ChunkKey(f, i) == CHUNK_FAMILY + (Hex(f) + a);
    assert ChunkKey(f', i') == CHUNK_FAMILY + (Hex(f') + b);
    LexLeCancelPrefix(CHUNK_FAMILY, Hex(f) + a, Hex(f') + b);
    LexLeCancelPrefix(CHUNK_FAMILY, Hex(f') + b, Hex(f) + a);
    HexWordFits();
    HexFixedOrder(f, f', HEX_WIDTH);
    HexFixedOrder(f', f, HEX_WIDTH);
    LexLeAppend(Hex(f), a, Hex(f'), b);
  }

  // A strict order between strings of one length survives any continuation.
  lemma {:induction false} LexLeAppend(x: bytes, a: bytes, y: bytes, b: bytes)
    requires |x| == |y| && x != y && LexLe(x, y)
    ensures LexLe(x + a, y + b) && !LexLe(y + b, x + a)
  {
    assert x == [x[0]] + x[1..] && y == [y[0]] + y[1..];
    assert (x + a)[1..] == x[1..] + a && (y + b)[1..] == y[1..] + b;
    if x[0] == y[0] { LexLeAppend(x[1..], a, y[1..], b); }
  }

  // A prefix scan of one file meets exactly that file's chunks.
  lemma PrefixScanExact(keys: set<bytes>, f: u64, k: bytes)
    requires WellFormedKeys(keys) && k in keys
    ensures StartsWith(k, ChunkPrefix(f)) <==> exists i: u64 :: k == ChunkKey(f, i)
  {
    if StartsWith(k, ChunkPrefix(f)) {
      assert k[..2] == k[..19][..2] == CHUNK_FAMILY;
      assert IsChunkKey(k);
      var f': u64, i: u64 :| k == ChunkKey(f', i);
      ChunkKeyParts(f', i);
      assert k[2..18] == ChunkPrefix(f)[2..18] == Hex(f);
      HexInjective(f', f);
    }
    if i: u64 :| k == ChunkKey(f, i) { ChunkKeyParts(f, i); }
  }

  // A range scan between two chunks of one file meets exactly the chunks of
  // that file with an index in the range.
  lemma RangeScanExact(keys: set<bytes>, f: u64, first: u64, last: u64, k: bytes)
    requires WellFormedKeys(keys) && k in keys
    ensures LexLe(ChunkKey(f, first), k) && LexLe(k, ChunkKey(f, last))
       <==> exists i: u64 :: first <= i <= last && k == ChunkKey(f, i)
  {
    if LexLe(ChunkKey(f, first), k) && LexLe(k, ChunkKey(f, last)) {
      LexBetweenSharesPrefix(ChunkPrefix(f), Hex(first), k, Hex(last));
      PrefixScanExact(keys, f, k);
      var i: u64 :| k == ChunkKey(f, i);
      ChunkKeyOrder(f, first, i);
      ChunkKeyOrder(f, i, last);
    }
    if i: u64 :| first <= i <= last && k == ChunkKey(f, i) {
      ChunkKeyOrder(f, first, i);
      ChunkKeyOrder(f, i, last);
    }
  }

  // -------------------------------------------------------------------------
  // Parsing a chunk index back out of a key

  predicate Continuation(b: byte) { 128 <= b < 192 }

  // std::str::from_utf8, by the table of section 4 of RFC 3629.
  predicate ValidUtf8(s: bytes) {
    s == []
    || (s[0] < 128 && ValidUtf8(s[1..]))
    || (|s| >= 2 && 194 <= s[0] <= 223 && Continuation(s[1]) && ValidUtf8(s[2..]))
    || (|s| >= 3 && 224 <= s[0] <= 239 && Continuation(s[1]) && Continuation(s[2])
        && (s[0] == 224 ==> s[1] >= 160) && (s[0] == 237 ==> s[1] < 160) && ValidUtf8(s[3..]))
    || (|s| >= 4 && 240 <= s[0] <= 244 && Continuation(s[1]) && Continuation(s[2]) && Continuation(s[3])
        && (s[0] == 240 ==> s[1] >= 144) && (s[0] == 244 ==> s[1] < 144) && ValidUtf8(s[4..]))
  }

  lemma {:induction false} AsciiIsUtf8(s: bytes)
    requires forall i :: 0 <= i < |s| ==> s[i] < 128
    ensures ValidUtf8(s)
  {
    if s != [] { AsciiIsUtf8(s[1..]); }
  }

  // The first item of rsplit('/').
  function LastSegment(s: bytes): bytes {
    if s == [] || s[|s| - 1] == SLASH then []
    else LastSegment(s[..|s| - 1]) + [s[|s| - 1]]
  }

  lemma {:induction false} LastSegmentAfterSlash(p: bytes, s: bytes)
    requires SLASH !in s
    ensures LastSegment(p + [SLASH] + s) == s
  {
    var whole := p + [SLASH] + s;
    if s == [] {
      assert whole == p + [SLASH];
    } else {
      assert whole[..|whole| - 1] == p + [SLASH] + s[..|s| - 1];
      LastSegmentAfterSlash(p, s[..|s| - 1]);
    }
  }

  // u64::from_str_radix(s, 16): one leading plus sign is allowed, an empty
  // digit string is not, and neither is a value past u64.
  function ParseRadix16(s: bytes): (r: Result<u64>)
    ensures r.Failure? ==> r.error == MetadataDecode
  {
    var digits := if |s| > 1 && s[0] == 43 then s[1..] else s;
    match HexValue(digits)
    case Some(v) => if s != [] && v < U64_LIMIT then Success(v) else Failure(MetadataDecode)
    case None => Failure(MetadataDecode)
  }

  function ParseChunkIdx(key: bytes): (r: Result<u64>)
    ensures r.Failure? ==> r.error == MetadataDecode
  {
    if !ValidUtf8(key) then Failure(MetadataDecode) else ParseRadix16(LastSegment(key))
  }

  lemma ParseChunkIdxInverts(f: u64, i: u64)
    ensures ParseChunkIdx(ChunkKey(f, i)) == Success(i)
  {
    HexWordFits();
    HexFixedValue(f, HEX_WIDTH);
    HexFixedValue(i, HEX_WIDTH);
    var key := ChunkKey(f, i);
    ChunkKeyParts(f, i);
    forall j | 0 <= j < |key| ensures key[j] < 128 {
      if j < 2 {
        assert key[j] == key[..2][j] == CHUNK_FAMILY[j];
      } else if 2 <= j < 18 {
        assert key[j] == key[2..18][j - 2] == Hex(f)[j - 2];
      } else if j >= 19 {
        assert key[j] == key[19..][j - 19] == Hex(i)[j - 19];
      }
    }
    AsciiIsUtf8(key);
    assert key == CHUNK_FAMILY + Hex(f) + [SLASH] + Hex(i);
    LastSegmentAfterSlash(CHUNK_FAMILY + Hex(f), Hex(i));
    assert DigitValue(Hex(i)[0]).Some?;
  }

  // -------------------------------------------------------------------------
  // File ids (decode_file_id)

  function DecodeFileId(b: bytes): (r: Result<u64>)
    ensures r.Failure? ==> r.error == MetadataDecode
    ensures r.Success? ==> r.value != 0
  {
    if |b| != 8 then Failure(MetadataDecode)
    else if U64FromBytes(b) == 0 then Failure(MetadataDecode)
    else Success(U64FromBytes(b))
  }

  // Exactly the eight-byte encodings of non-zero ids are accepted.
  lemma DecodeFileIdExact(b: bytes, id: u64)
    ensures DecodeFileId(U64ToBytes(id)) == if id == 0 then Failure(MetadataDecode) else Success(id)
    ensures DecodeFileId(b) == Success(id) <==> id != 0 && b == U64ToBytes(id)
  {
    U64RoundTrip(id);
    if DecodeFileId(b) == Success(id) { BytesRoundTrip(b); }
  }

  lemma {:induction false} BigEndianOfValue(b: bytes)
    ensures BigEndian(FromBigEndian(b), |b|) == b
  {
    if b != [] {
      BigEndianOfValue(b[..|b| - 1]);
      assert FromBigEndian(b) / 256 == FromBigEndian(b[..|b| - 1]);
    }
  }

  lemma BytesRoundTrip(b: bytes)
    requires |b| == 8
    ensures U64ToBytes(U64FromBytes(b)) == b
  {
    BigEndianOfValue(b);
  }
}
