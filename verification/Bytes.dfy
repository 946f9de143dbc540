// Byte strings, 64-bit integers, results, and the byte-lexicographic order the
// key/value store sorts its keys by.
module Bytes {

  type byte = n: int | 0 <= n < 256
  type bytes = seq<byte>

  const U64_LIMIT := 0x1_0000_0000_0000_0000

  // A machine word: assigning a larger value to a `u64` is a proof obligation,
  // so every function over `u64` is shown not to overflow.
  type u64 = n: int | 0 <= n < U64_LIMIT

  const SLASH: byte := 47

  datatype Option<+T> = None | Some(value: T)

  // The error kinds a caller can tell apart.
  datatype Error =
    | StoreFault          // the key/value store failed
    | MetadataDecode      // a stored key or value is malformed
    | InvalidArgument
    | ReadOnlyViolation
    | FileNotFound
    | SliceOutOfRange     // a slice index past the end: the call panics

  datatype Result<+T> = Success(value: T) | Failure(error: Error)

  predicate StartsWith(k: bytes, prefix: bytes) {
    |prefix| <= |k| && k[..|prefix|] == prefix
  }

  // The code of an ASCII character; the others do not occur in the literals.
  function AsciiCode(c: char): byte { (c as int) % 128 }

  function Ascii(s: string): (b: bytes)
    ensures |b| == |s|
  {
    seq(|s|, i requires 0 <= i < |s| => AsciiCode(s[i]))
  }

  // -------------------------------------------------------------------------
  // Lexicographic order

  predicate LexLe(a: bytes, b: bytes) {
    a == [] || (b != [] && (a[0] < b[0] || (a[0] == b[0] && LexLe(a[1..], b[1..]))))
  }

  lemma {:induction false} LexLeReflexive(a: bytes)
    ensures LexLe(a, a)
  {
    if a != [] { LexLeReflexive(a[1..]); }
  }

  lemma {:induction false} LexLeTotal(a: bytes, b: bytes)
    ensures LexLe(a, b) || LexLe(b, a)
  {
    if a != [] && b != [] { LexLeTotal(a[1..], b[1..]); }
  }

  lemma {:induction false} LexLeTransitive(a: bytes, b: bytes, c: bytes)
    requires LexLe(a, b) && LexLe(b, c)
    ensures LexLe(a, c)
  {
    if a != [] && a[0] == b[0] == c[0] { LexLeTransitive(a[1..], b[1..], c[1..]); }
  }

  lemma {:induction false} LexLeAntisymmetric(a: bytes, b: bytes)
    requires LexLe(a, b) && LexLe(b, a)
    ensures a == b
  {
    if a != [] {
      LexLeAntisymmetric(a[1..], b[1..]);
      assert a == [a[0]] + a[1..] && b == [b[0]] + b[1..];
    }
  }

  // A common prefix does not matter to the order.
  lemma {:induction false} LexLeCancelPrefix(p: bytes, a: bytes, b: bytes)
    ensures LexLe(p + a, p + b) <==> LexLe(a, b)
  {
    if p == [] {
      assert p + a == a && p + b == b;
    } else {
      assert (p + a)[1..] == p[1..] + a && (p + b)[1..] == p[1..] + b;
      LexLeCancelPrefix(p[1..], a, b);
    }
  }

  // Whatever sorts between two strings with a common prefix has that prefix.
  lemma {:induction false} LexBetweenSharesPrefix(p: bytes, a: bytes, k: bytes, b: bytes)
    requires LexLe(p + a, k) && LexLe(k, p + b)
    ensures StartsWith(k, p)
  {
    if p != [] {
      assert (p + a)[1..] == p[1..] + a && (p + b)[1..] == p[1..] + b;
      assert k[0] == p[0];
      LexBetweenSharesPrefix(p[1..], a, k[1..], b);
      assert k[..|p|] == [k[0]] + k[1..][..|p| - 1];
      assert p == [p[0]] + p[1..];
    }
  }

  // On strings of one length, the last byte decides only between equal heads.
  lemma {:induction false} LexLeSnoc(a: bytes, c: byte, b: bytes, d: byte)
    requires |a| == |b|
    ensures LexLe(a + [c], b + [d]) <==> if a == b then c <= d else LexLe(a, b)
  {
    if a == [] {
      assert LexLe([c], [d]) <==> (c < d || (c == d && LexLe([c][1..], [d][1..])));
    } else {
      assert (a + [c])[1..] == a[1..] + [c] && (b + [d])[1..] == b[1..] + [d];
      assert a == [a[0]] + a[1..] && b == [b[0]] + b[1..];
      LexLeSnoc(a[1..], c, b[1..], d);
      if a[1..] == b[1..] { LexLeReflexive(a[1..]); }
    }
  }

  ghost predicate IsLeast(m: bytes, s: set<bytes>) {
    m in s && forall k :: k in s ==> LexLe(m, k)
  }

  lemma {:induction false} LeastExists(s: set<bytes>) returns (m: bytes)
    requires s != {}
    ensures IsLeast(m, s)
  {
    var x :| x in s;
    LexLeReflexive(x);
    if s == {x} {
      m := x;
    } else {
      var rest := LeastExists(s - {x});
      LexLeReflexive(rest);
      LexLeTotal(x, rest);
      m := if LexLe(x, rest) then x else rest;
      forall k | k in s ensures LexLe(m, k) {
        if k != x {
          assert k in s - {x};
          if m == x { LexLeTransitive(x, rest, k); }
        }
      }
    }
  }

  // -------------------------------------------------------------------------
  // Big-endian words (u64::to_be_bytes, u64::from_be_bytes)

  function Pow256(w: nat): nat { if w == 0 then 1 else 256 * Pow256(w - 1) }

  function BigEndian(n: nat, w: nat): (b: bytes)
    ensures |b| == w
  {
    if w == 0 then [] else BigEndian(n / 256, w - 1) + [n % 256]
  }

  function FromBigEndian(b: bytes): nat {
    if b == [] then 0 else 256 * FromBigEndian(b[..|b| - 1]) + b[|b| - 1]
  }

  lemma {:induction false} BigEndianRoundTrip(n: nat, w: nat)
    requires n < Pow256(w)
    ensures FromBigEndian(BigEndian(n, w)) == n
  {
    if w > 0 {
      BigEndianRoundTrip(n / 256, w - 1);
      assert BigEndian(n, w)[..w - 1] == BigEndian(n / 256, w - 1);
    }
  }

  lemma {:induction false} FromBigEndianBound(b: bytes)
    ensures FromBigEndian(b) < Pow256(|b|)
  {
    if b != [] { FromBigEndianBound(b[..|b| - 1]); }
  }

  lemma WordFits()
    ensures Pow256(8) == U64_LIMIT
  {
    assert Pow256(4) == 0x1_0000_0000;
  }

  function U64ToBytes(n: u64): bytes { BigEndian(n, 8) }

  function U64FromBytes(b: bytes): u64
    requires |b| == 8
  {
    FromBigEndianBound(b);
    WordFits();
    FromBigEndian(b)
  }

  lemma U64RoundTrip(n: u64)
    ensures U64FromBytes(U64ToBytes(n)) == n
  {
    WordFits();
    BigEndianRoundTrip(n, 8);
  }
}
