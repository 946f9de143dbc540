// Which database a path belongs to and where it is stored (rust/src/fs.rs).
module Routing {
  import opened Bytes
  import opened Keys

  // -------------------------------------------------------------------------
  // Database groups

  const WAL: bytes := Ascii(".wal")
  const WAL_CHECKPOINT: bytes := Ascii(".wal.checkpoint")
  const WAL_RECOVERY: bytes := Ascii(".wal.recovery")

  // In the order they are tried.
  const COMPANION_SUFFIXES: seq<bytes> := [WAL, WAL_CHECKPOINT, WAL_RECOVERY]

  predicate EndsWith(s: bytes, suffix: bytes) {
    |suffix| <= |s| && s[|s| - |suffix|..] == suffix
  }

  // A path a companion can belong to.
  predicate DatabaseName(s: bytes) {
    s != [] && s[|s| - 1] != SLASH
  }

  predicate Strips(path: Path, suffix: bytes) {
    EndsWith(path, suffix) && DatabaseName(path[..|path| - |suffix|])
  }

  function GroupBy(path: Path, suffixes: seq<bytes>): bytes {
    if suffixes == [] then path
    else if Strips(path, suffixes[0]) then path[..|path| - |suffixes[0]|]
    else GroupBy(path, suffixes[1..])
  }

  function DatabaseGroup(path: Path): bytes { GroupBy(path, COMPANION_SUFFIXES) }

  predicate IsCompanion(path: Path) {
    exists s :: s in COMPANION_SUFFIXES && Strips(path, s)
  }

  // The suffixes end differently, so at most one can match and the order they
  // are tried in does not matter.
  lemma SuffixesExclusive(path: Path, s: bytes, t: bytes)
    requires s in COMPANION_SUFFIXES && t in COMPANION_SUFFIXES && EndsWith(path, s) && EndsWith(path, t)
    ensures s == t
  {
    assert path[|path| - 1] == s[|s| - 1] == t[|t| - 1];
    assert WAL[|WAL| - 1] == 108 && WAL_CHECKPOINT[|WAL_CHECKPOINT| - 1] == 116 && WAL_RECOVERY[|WAL_RECOVERY| - 1] == 121;
  }

  lemma {:induction false} GroupByAny(path: Path, suffixes: seq<bytes>, s: bytes)
    requires s in suffixes && Strips(path, s) && forall t :: t in suffixes ==> t in COMPANION_SUFFIXES
    ensures GroupBy(path, suffixes) == path[..|path| - |s|]
    decreases |suffixes|
  {
    if Strips(path, suffixes[0]) {
      SuffixesExclusive(path, s, suffixes[0]);
    } else {
      GroupByAny(path, suffixes[1..], s);
    }
  }

  lemma {:induction false} GroupByNone(path: Path, suffixes: seq<bytes>)
    requires forall s :: s in suffixes ==> !Strips(path, s)
    ensures GroupBy(path, suffixes) == path
  {
    if suffixes != [] { GroupByNone(path, suffixes[1..]); }
  }

  // Whatever the order of the suffixes, the group is the same.
  lemma OrderDoesNotMatter(path: Path, suffixes: seq<bytes>)
    requires forall s :: s in suffixes <==> s in COMPANION_SUFFIXES
    ensures GroupBy(path, suffixes) == DatabaseGroup(path)
  {
    if s :| s in COMPANION_SUFFIXES && Strips(path, s) {
      GroupByAny(path, suffixes, s);
      GroupByAny(path, COMPANION_SUFFIXES, s);
    } else {
      GroupByNone(path, suffixes);
      GroupByNone(path, COMPANION_SUFFIXES);
    }
  }

  // The three companions of a database share its group.
  lemma CompanionsGrouped(database: Path, suffix: bytes)
    requires DatabaseName(database) && suffix in COMPANION_SUFFIXES
    ensures DatabaseGroup(database + suffix) == database
  {
    var path := database + suffix;
    assert path[|path| - |suffix|..] == suffix && path[..|path| - |suffix|] == database;
    GroupByAny(path, COMPANION_SUFFIXES, suffix);
  }

  // Spelled out: the group is the path without a `.wal`, `.wal.checkpoint` or
  // `.wal.recovery` at its end, when what is left can name a file, and else the
  // path itself.
  predicate IsCompanionOf(path: Path, database: Path) {
    && database != [] && database[|database| - 1] != Ascii("/")[0]
    && (path == database + Ascii(".wal") || path == database + Ascii(".wal.checkpoint") || path == database + Ascii(".wal.recovery"))
  }

  lemma GroupExact(path: Path, group: bytes)
    ensures DatabaseGroup(path) == group
      <==> IsCompanionOf(path, group) || (path == group && forall d :: !IsCompanionOf(path, d))
  {
    if d :| IsCompanionOf(path, d) {
      CompanionOne(path, d);
      forall e | IsCompanionOf(path, e) ensures e == d { CompanionOne(path, e); }
      assert |d| < |path|;
    } else {
      forall s | s in COMPANION_SUFFIXES ensures !Strips(path, s) {
        if Strips(path, s) {
          assert path == path[..|path| - |s|] + s;
          assert IsCompanionOf(path, path[..|path| - |s|]);
        }
      }
      GroupByNone(path, COMPANION_SUFFIXES);
    }
  }

  lemma CompanionOne(path: Path, d: Path)
    requires IsCompanionOf(path, d)
    ensures DatabaseGroup(path) == d
  {
    hide DatabaseGroup;
    var s :| s in COMPANION_SUFFIXES && path == d + s;
    CompanionsGrouped(d, s);
  }

  // So a move between companions of one database never crosses databases.
  lemma CompanionMovesStay(database: Path, s: bytes, t: bytes)
    requires DatabaseName(database) && s in COMPANION_SUFFIXES && t in COMPANION_SUFFIXES
    ensures DatabaseGroup(database + s) == DatabaseGroup(database + t)
  {
    CompanionsGrouped(database, s);
    CompanionsGrouped(database, t);
  }

  // Companions are meant to share the SlateDB of their database file. They do
  // exactly when that file is not itself named like a companion.
  lemma CompanionsShareIff(database: Path, suffix: bytes)
    requires DatabaseName(database) && suffix in COMPANION_SUFFIXES
    ensures DatabaseGroup(database + suffix) == DatabaseGroup(database) <==> !IsCompanion(database)
  {
    CompanionsGrouped(database, suffix);
    if s :| s in COMPANION_SUFFIXES && Strips(database, s) {
      GroupByAny(database, COMPANION_SUFFIXES, s);
      assert |s| > 0;
    } else {
      GroupByNone(database, COMPANION_SUFFIXES);
    }
  }

  // The write-ahead log of a database file `x.wal` goes to another SlateDB.
  lemma CompanionApartWitness()
    ensures var database := Ascii("x") + WAL;
      && DatabaseGroup(database) == Ascii("x")
      && DatabaseGroup(database + WAL) == database
  {
    CompanionsGrouped(Ascii("x"), WAL);
    CompanionsGrouped(Ascii("x") + WAL, WAL);
  }

  // -------------------------------------------------------------------------
  // Storage paths

  const PERCENT: byte := 37

  const ESCAPED_PERCENT: bytes := Ascii("%25")
  const ESCAPED_SLASH: bytes := Ascii("%2F")

  // str::replace of one character.
  function Replace(s: bytes, c: byte, with: bytes): bytes {
    if s == [] then [] else (if s[0] == c then with else [s[0]]) + Replace(s[1..], c, with)
  }

  function Escape(group: bytes): bytes {
    Replace(Replace(group, PERCENT, ESCAPED_PERCENT), SLASH, ESCAPED_SLASH)
  }

  function SlateDbPath(databasePath: bytes, group: bytes): bytes {
    databasePath + [SLASH] + Escape(group)
  }

  // Undo the escaping, reading from the left.
  function Unescape(s: bytes): bytes {
    if StartsWith(s, ESCAPED_PERCENT) then [PERCENT] + Unescape(s[3..])
    else if StartsWith(s, ESCAPED_SLASH) then [SLASH] + Unescape(s[3..])
    else if s == [] then []
    else [s[0]] + Unescape(s[1..])
  }

  lemma {:induction false} ReplaceAppend(a: bytes, b: bytes, c: byte, with: bytes)
    ensures Replace(a + b, c, with) == Replace(a, c, with) + Replace(b, c, with)
  {
    if a == [] {
      assert a + b == b;
    } else {
      assert (a + b)[1..] == a[1..] + b;
      ReplaceAppend(a[1..], b, c, with);
    }
  }

  lemma {:induction false} ReplaceAbsent(s: bytes, c: byte, with: bytes)
    requires c !in s
    ensures Replace(s, c, with) == s
  {
    if s != [] {
      ReplaceAbsent(s[1..], c, with);
      assert s == [s[0]] + s[1..];
    }
  }

  function EscapeByte(b: byte): bytes {
    if b == PERCENT then ESCAPED_PERCENT else if b == SLASH then ESCAPED_SLASH else [b]
  }

  // The two replacements do not disturb each other: each byte is escaped by itself.
  lemma EscapeCons(b: byte, rest: bytes)
    ensures Escape([b] + rest) == EscapeByte(b) + Escape(rest)
  {
    var inner := if b == PERCENT then ESCAPED_PERCENT else [b];
    assert ([b] + rest)[1..] == rest;
    ReplaceAppend(inner, Replace(rest, PERCENT, ESCAPED_PERCENT), SLASH, ESCAPED_SLASH);
    if b == SLASH {
      assert Replace([b], SLASH, ESCAPED_SLASH) == ESCAPED_SLASH + Replace([b][1..], SLASH, ESCAPED_SLASH);
      assert [b][1..] == [];
    } else {
      assert SLASH !in inner;
      ReplaceAbsent(inner, SLASH, ESCAPED_SLASH);
    }
  }

  // A path is stored under the root byte by byte, `%` as `%25` and `/` as `%2F`.
  lemma StoragePathExact(root: bytes, b: byte, rest: bytes)
    ensures SlateDbPath(root, []) == root + [47]
    ensures SlateDbPath(root, [b] + rest)
      == root + [47] + ((if b == 37 then [37, 50, 53] else if b == 47 then [37, 50, 70] else [b]) + Escape(rest))
  {
    EscapeCons(b, rest);
    assert ESCAPED_PERCENT == [37, 50, 53] && ESCAPED_SLASH == [37, 50, 70];
  }

  lemma {:induction false} UnescapeInverts(group: bytes)
    ensures Unescape(Escape(group)) == group
  {
    if group != [] {
      var b, rest := group[0], group[1..];
      assert group == [b] + rest;
      EscapeCons(b, rest);
      UnescapeInverts(rest);
      var s := EscapeByte(b) + Escape(rest);
      assert s[..|EscapeByte(b)|] == EscapeByte(b) && s[|EscapeByte(b)|..] == Escape(rest);
      assert ESCAPED_PERCENT != ESCAPED_SLASH by { assert ESCAPED_PERCENT[2] == 53 && ESCAPED_SLASH[2] == 70; }
      assert ESCAPED_PERCENT[0] == PERCENT && ESCAPED_SLASH[0] == PERCENT;
      if b != PERCENT && b != SLASH {
        assert s[0] == b;
        StartsWithAt(s, ESCAPED_PERCENT, 0);
        StartsWithAt(s, ESCAPED_SLASH, 0);
      }
    }
  }

  lemma StartsWithAt(s: bytes, prefix: bytes, i: nat)
    requires i < |prefix|
    ensures StartsWith(s, prefix) ==> i < |s| && s[i] == prefix[i]
  {
    assert StartsWith(s, prefix) ==> s[..|prefix|][i] == s[i];
  }

  lemma {:induction false} EscapeHasNoSlash(group: bytes)
    ensures SLASH !in Escape(group)
  {
    if group != [] {
      assert group == [group[0]] + group[1..];
      EscapeCons(group[0], group[1..]);
      EscapeHasNoSlash(group[1..]);
    }
  }

  // Distinct databases are stored apart: at different paths, and neither inside
  // the other.
  lemma DatabasesStoredApart(root: bytes, a: bytes, b: bytes)
    requires a != b
    ensures SlateDbPath(root, a) != SlateDbPath(root, b)
    ensures !StartsWith(SlateDbPath(root, b), SlateDbPath(root, a) + [SLASH])
  {
    var pa, pb := SlateDbPath(root, a), SlateDbPath(root, b);
    var n := |root| + 1;
    assert pa[n..] == Escape(a) && pb[n..] == Escape(b);
    UnescapeInverts(a);
    UnescapeInverts(b);
    EscapeHasNoSlash(b);
    StartsWithAt(pb, pa + [SLASH], |pa|);
    assert |pa| < |pb| ==> pb[|pa|] == Escape(b)[|pa| - n] && Escape(b)[|pa| - n] in Escape(b);
  }
}
