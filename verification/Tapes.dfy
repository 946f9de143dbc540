// Byte strings read as if followed by zeros for ever: the contents of a chunk,
// and of a file.
module Tapes {
  import opened Bytes

  function ByteIn(c: bytes, i: nat): byte { if i < |c| then c[i] else 0 }

  function Zeros(n: nat): (z: bytes)
    ensures |z| == n
  {
    seq(n, _ => 0)
  }

  // Vec::resize when it grows.
  function Padded(c: bytes, n: nat): (r: bytes)
    ensures |r| == if |c| < n then n else |c|
    ensures forall i: nat :: ByteIn(r, i) == ByteIn(c, i)
  {
    if |c| < n then c + Zeros(n - |c|) else c
  }

  // Overwrite `c` from `at` with `data`, zero-filling any gap before it.
  function Splice(c: bytes, at: nat, data: bytes): (r: bytes)
    ensures |r| == if |c| < at + |data| then at + |data| else |c|
    ensures forall i: nat :: ByteIn(r, i) == if at <= i < at + |data| then data[i - at] else ByteIn(c, i)
  {
    var padded := Padded(c, at + |data|);
    assert forall i: nat :: ByteIn(padded, i) == ByteIn(c, i);
    padded[..at] + data + padded[at + |data|..]
  }

  lemma PaddedEnough(c: bytes, n: nat)
    requires n <= |c|
    ensures Padded(c, n) == c
  {
  }

  // Resizing and copying, as a write does it in a chunk.
  lemma SpliceParts(c: bytes, at: nat, data: bytes)
    ensures var padded := Padded(c, at + |data|);
      Splice(c, at, data) == padded[..at] + data + padded[at + |data|..]
  {
  }

  // Two adjoining splices are one.
  lemma SpliceTwice(tape: bytes, offset: nat, data: bytes, a: nat, b: nat)
    requires a <= b <= |data|
    ensures Splice(Splice(tape, offset, data[..a]), offset + a, data[a..b]) == Splice(tape, offset, data[..b])
  {
    var twice := Splice(Splice(tape, offset, data[..a]), offset + a, data[a..b]);
    var whole := Splice(tape, offset, data[..b]);
    forall i | 0 <= i < |whole| ensures twice[i] == whole[i] {
      assert ByteIn(twice, i) == ByteIn(whole, i);
    }
  }

  // The file after the first `n` bytes of `data` were written at `offset`.
  function Overwritten(tape: bytes, offset: nat, data: bytes, n: nat): bytes
    requires n <= |data|
  {
    if n == 0 then tape else Splice(tape, offset, data[..n])
  }

  lemma OverwrittenNext(tape: bytes, offset: nat, data: bytes, a: nat, len: nat)
    requires a + len <= |data| && len > 0
    ensures Splice(Overwritten(tape, offset, data, a), offset + a, data[a..a + len])
      == Overwritten(tape, offset, data, a + len)
  {
    if a > 0 { SpliceTwice(tape, offset, data, a, a + len); }
    else { assert data[..len] == data[0..len]; }
  }

  // Skipping the old bytes of a chunk that is overwritten whole is sound
  // exactly when the chunk does not exceed its capacity.
  lemma WholeChunkExact(was: bytes, data: bytes)
    ensures Splice(Zeros(|data|), 0, data) == Splice(was, 0, data) <==> |was| <= |data|
  {
    assert |Splice(Zeros(|data|), 0, data)| == |data|;
    if |was| <= |data| {
      assert Splice(was, 0, data) == data == Splice(Zeros(|data|), 0, data);
    }
  }
}
