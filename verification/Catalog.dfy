// Path mappings, records and file-id allocation (rust/src/database_metadata.rs):
// what each transaction does to the database, on values.
module Catalog {
  import opened Bytes
  import opened Keys
  import opened KvStore
  import opened Metadata

  function ValidatePath(path: Path): Result<()> {
    if path == [] then Failure(InvalidArgument) else Success(())
  }

  function ReadFileId(kv: Kv, key: bytes): Result<u64> {
    match Lookup(kv, key)
    case Some(b) => DecodeFileId(b)
    case None => Failure(FileNotFound)
  }

  function FindFile(kv: Kv, path: Path): Result<Option<(u64, FileMetadata)>> {
    if PathKey(path) !in kv then Success(None)
    else
      match ReadFileId(kv, PathKey(path))
      case Failure(e) => Failure(e)
      case Success(id) =>
        match Lookup(kv, MetadataKey(id))
        case None => Failure(MetadataDecode)
        case Some(b) =>
          match Decode(b)
          case Failure(e) => Failure(e)
          case Success(m) => Success(Some((id, m)))
  }

  // A path that is there but cannot be read is malformed.
  lemma FindFileErrors(kv: Kv, path: Path)
    ensures FindFile(kv, path).Failure? ==> FindFile(kv, path).error == MetadataDecode
  {
    hide DecodeFileId, PathKey, MetadataKey;
  }

  function OpenFile(kv: Kv, path: Path): Result<(u64, FileMetadata)> {
    if ValidatePath(path).Failure? then Failure(InvalidArgument)
    else
      match FindFile(kv, path)
      case Failure(e) => Failure(e)
      case Success(None) => Failure(FileNotFound)
      case Success(Some(found)) => Success(found)
  }

  // Existence is the path mapping alone.
  function FileExists(kv: Kv, path: Path): Result<bool> {
    if ValidatePath(path).Failure? then Failure(InvalidArgument) else Success(PathKey(path) in kv)
  }

  function Dropped(keys: set<bytes>): Batch {
    map k | k in keys :: Delete
  }

  function RemoveFile(kv: Kv, path: Path): Result<Kv> {
    if ValidatePath(path).Failure? then Failure(InvalidArgument)
    else
      match ReadFileId(kv, PathKey(path))
      case Failure(e) => Failure(e)
      case Success(id) =>
        Success(Apply(kv, Dropped({PathKey(path), MetadataKey(id)} + PrefixKeys(kv, ChunkPrefix(id)))))
  }

  function MoveFile(kv: Kv, source: Path, target: Path): Result<Kv> {
    if ValidatePath(source).Failure? || ValidatePath(target).Failure? then Failure(InvalidArgument)
    else if source == target then Success(kv)
    else
      match ReadFileId(kv, PathKey(source))
      case Failure(e) => Failure(e)
      case Success(id) =>
        match ReadFileId(kv, PathKey(target))
        case Failure(FileNotFound) => Success(Apply(kv, Dropped({PathKey(source)})[PathKey(target) := Put(U64ToBytes(id))]))
        case Failure(e) => Failure(e)
        case Success(replaced) =>
          var gone := if replaced == id then {} else {MetadataKey(replaced)} + PrefixKeys(kv, ChunkPrefix(replaced));
          Success(Apply(kv, Dropped({PathKey(source)} + gone)[PathKey(target) := Put(U64ToBytes(id))]))
  }

  // The database after the call, the file opened and its record.
  function PrepareFileForOpen(kv: Kv, path: Path, create: bool, truncateExisting: bool): Result<(Kv, u64, FileMetadata)> {
    if ValidatePath(path).Failure? then Failure(InvalidArgument)
    else
      match FindFile(kv, path)
      case Failure(e) => Failure(e)
      case Success(Some((id, m))) =>
        if truncateExisting then
          var batch := Dropped(PrefixKeys(kv, ChunkPrefix(id)))[MetadataKey(id) := Put(Encode(NEW_METADATA))];
          Success((Apply(kv, batch), id, NEW_METADATA))
        else Success((kv, id, m))
      case Success(None) =>
        if !create then Failure(FileNotFound) else CreateFile(kv, path)
  }

  function CreateFile(kv: Kv, path: Path): (r: Result<(Kv, u64, FileMetadata)>)
    ensures r.Failure? ==> r.error == MetadataDecode
  {
    match (if NEXT_FILE_ID_KEY in kv then ReadFileId(kv, NEXT_FILE_ID_KEY) else Success(1))
    case Failure(e) => Failure(e)
    case Success(id) =>
      if id + 1 >= U64_LIMIT then Failure(MetadataDecode)
      else Success((Apply(kv, CreateBatch(path, id)), id, NEW_METADATA))
  }

  function CreateBatch(path: Path, id: u64): Batch
    requires id + 1 < U64_LIMIT
  {
    map[PathKey(path) := Put(U64ToBytes(id)),
        MetadataKey(id) := Put(Encode(NEW_METADATA)),
        NEXT_FILE_ID_KEY := Put(U64ToBytes(id + 1))]
  }

  // -------------------------------------------------------------------------
  // When each call is granted, on any database, well formed or not

  // The key holds a file id: the eight bytes of a number other than 0.
  ghost predicate HoldsId(kv: Kv, key: bytes) {
    exists id: u64 :: id != 0 && Lookup(kv, key) == Some(U64ToBytes(id))
  }

  lemma ReadFileIdExact(kv: Kv, key: bytes)
    ensures ReadFileId(kv, key).Success? <==> HoldsId(kv, key)
    ensures ReadFileId(kv, key) == Failure(FileNotFound) <==> key !in kv
    ensures ReadFileId(kv, key) == Failure(MetadataDecode) <==> key in kv && !HoldsId(kv, key)
    ensures forall id: u64 :: ReadFileId(kv, key) == Success(id) <==> id != 0 && Lookup(kv, key) == Some(U64ToBytes(id))
  {
    hide DecodeFileId, U64ToBytes;
    if key in kv {
      forall id: u64 ensures DecodeFileId(kv[key]) == Success(id) <==> id != 0 && kv[key] == U64ToBytes(id) {
        DecodeFileIdExact(kv[key], id);
      }
    }
  }

  // What a refused call answers, in the order the program checks.
  function RefusalOf(empty: bool, missing: bool, malformed: bool): Option<Error> {
    if empty then Some(InvalidArgument) else if missing then Some(FileNotFound)
    else if malformed then Some(MetadataDecode) else None
  }

  ghost predicate GrantedUnless<T>(r: Result<T>, refusal: Option<Error>) {
    match refusal
    case None => r.Success?
    case Some(e) => r == Failure(e)
  }

  // A removal is granted exactly when the path holds an id.
  lemma RemoveOutcome(kv: Kv, path: Path)
    ensures GrantedUnless(RemoveFile(kv, path), RefusalOf(path == [], PathKey(path) !in kv, !HoldsId(kv, PathKey(path))))
  {
    hide PathKey, HoldsId, ReadFileId, PrefixKeys, Apply;
    ReadFileIdExact(kv, PathKey(path));
  }

  // A move is granted exactly when the source holds an id and the target holds
  // one or is not there, or when there is nothing to move.
  lemma MoveOutcome(kv: Kv, source: Path, target: Path)
    ensures GrantedUnless(MoveFile(kv, source, target),
      RefusalOf(source == [] || target == [],
        source != target && PathKey(source) !in kv,
        source != target
          && (!HoldsId(kv, PathKey(source)) || (PathKey(target) in kv && !HoldsId(kv, PathKey(target))))))
  {
    hide PathKey, HoldsId, ReadFileId, PrefixKeys, Apply;
    ReadFileIdExact(kv, PathKey(source));
    ReadFileIdExact(kv, PathKey(target));
  }

  // The path holds the id of a file whose record can be read.
  ghost predicate HoldsFile(kv: Kv, path: Path) {
    exists id: u64 :: id != 0 && Lookup(kv, PathKey(path)) == Some(U64ToBytes(id))
      && MetadataKey(id) in kv && Decode(kv[MetadataKey(id)]).Success?
  }

  lemma FindFileExact(kv: Kv, path: Path)
    ensures GrantedUnless(FindFile(kv, path), RefusalOf(false, false, PathKey(path) in kv && !HoldsFile(kv, path)))
    ensures FindFile(kv, path) == Success(None) <==> PathKey(path) !in kv
  {
    hide PathKey, MetadataKey, ReadFileId, DecodeFileId, U64ToBytes, Decode;
    ReadFileIdExact(kv, PathKey(path));
    match ReadFileId(kv, PathKey(path))
    case Failure(_) => IdNotHeld(kv, path);
    case Success(id) => IdHeld(kv, path, id);
  }

  lemma IdNotHeld(kv: Kv, path: Path)
    requires !HoldsId(kv, PathKey(path))
    ensures !HoldsFile(kv, path)
  {
    hide PathKey, MetadataKey, U64ToBytes, Decode;
  }

  lemma IdHeld(kv: Kv, path: Path, id: u64)
    requires ReadFileId(kv, PathKey(path)) == Success(id)
    ensures HoldsFile(kv, path) <==> MetadataKey(id) in kv && Decode(kv[MetadataKey(id)]).Success?
  {
    hide PathKey, MetadataKey, ReadFileId, U64ToBytes, Decode;
    ReadFileIdExact(kv, PathKey(path));
    if HoldsFile(kv, path) {
      var other: u64 :| other != 0 && Lookup(kv, PathKey(path)) == Some(U64ToBytes(other))
        && MetadataKey(other) in kv && Decode(kv[MetadataKey(other)]).Success?;
      assert ReadFileId(kv, PathKey(path)) == Success(other);
    }
  }

  lemma OpenOutcome(kv: Kv, path: Path)
    ensures GrantedUnless(OpenFile(kv, path), RefusalOf(path == [], PathKey(path) !in kv, !HoldsFile(kv, path)))
  {
    hide PathKey, HoldsFile, FindFile;
    FindFileExact(kv, path);
  }

  // The next id can be read, and there is another one after it.
  ghost predicate IdLeft(kv: Kv) {
    NEXT_FILE_ID_KEY in kv ==> exists id: u64 :: 0 < id < U64_LIMIT - 1 && kv[NEXT_FILE_ID_KEY] == U64ToBytes(id)
  }

  // Opening for writing is granted exactly when the path holds a readable file,
  // or is not there, may be created, and an id is left.
  lemma PrepareOutcome(kv: Kv, path: Path, create: bool, truncateExisting: bool)
    ensures GrantedUnless(PrepareFileForOpen(kv, path, create, truncateExisting),
      RefusalOf(path == [],
        PathKey(path) !in kv && !create,
        if PathKey(path) in kv then !HoldsFile(kv, path) else !IdLeft(kv)))
  {
    hide PathKey, HoldsFile, FindFile, Apply, PrefixKeys, CreateBatch;
    FindFileExact(kv, path);
    NextIdExact(kv);
    hide ReadFileId, IdLeft;
  }

  lemma NextIdExact(kv: Kv)
    ensures var next := if NEXT_FILE_ID_KEY in kv then ReadFileId(kv, NEXT_FILE_ID_KEY) else Success(1);
      && (IdLeft(kv) <==> next.Success? && next.value + 1 < U64_LIMIT)
      && (next.Failure? ==> next.error == MetadataDecode)
  {
    hide ReadFileId, U64ToBytes;
    ReadFileIdExact(kv, NEXT_FILE_ID_KEY);
  }
}
