// The catalog transactions seen through what the database means: which path
// names which file, the next file id, and each file's record and chunks.
module CatalogEffects {
  import opened Bytes
  import opened Catalog
  import opened Images
  import opened Keys
  import opened KvStore
  import opened Metadata

  function NameOf(kv: Kv, path: Path): Option<u64> {
    match ReadFileId(kv, PathKey(path))
    case Success(id) => Some(id)
    case Failure(_) => None
  }

  function NextId(kv: Kv): nat {
    if NEXT_FILE_ID_KEY !in kv then 1
    else
      match DecodeFileId(kv[NEXT_FILE_ID_KEY])
      case Success(id) => id
      case Failure(_) => 0
  }

  ghost predicate KnownKey(k: bytes) {
    || k == NEXT_FILE_ID_KEY
    || (exists path: Path :: k == PathKey(path))
    || (exists f: u64 :: KeyOfFile(f, k))
  }

  ghost predicate RecordValid(image: Image) {
    image.record.Some? && Decode(image.record.value).Success? && Decode(image.record.value).value.geometry.Valid()
  }

  ghost predicate HasRecord(image: Image, m: FileMetadata) {
    image.record.Some? && Decode(image.record.value) == Success(m)
  }

  // What every reachable database keeps.
  ghost predicate Consistent(kv: Kv) {
    && (forall k :: k in kv ==> KnownKey(k))
    && (NEXT_FILE_ID_KEY in kv ==> DecodeFileId(kv[NEXT_FILE_ID_KEY]).Success?)
    && (forall path: Path :: PathKey(path) in kv ==> NameOf(kv, path).Some?)
    && (forall path: Path :: NameOf(kv, path).Some? ==> 1 <= NameOf(kv, path).value < NextId(kv))
    && (forall p: Path, q: Path :: NameOf(kv, p).Some? && NameOf(kv, p) == NameOf(kv, q) ==> p == q)
    && (forall path: Path :: NameOf(kv, path).Some? ==> RecordValid(ImageOf(kv, NameOf(kv, path).value)))
    && (forall f: u64 :: f >= NextId(kv) ==> ImageOf(kv, f) == NO_FILE)
  }

  lemma EmptyConsistent()
    ensures Consistent(map[])
  {
  }

  lemma ConsistentKeysWellFormed(kv: Kv)
    requires Consistent(kv)
    ensures WellFormedKeys(kv.Keys)
  {
    hide ChunkKey, MetadataKey, PathKey;
    forall k | k in kv && StartsWith(k, CHUNK_FAMILY) ensures IsChunkKey(k) {
      assert KnownKey(k);
      FamiliesDisjoint(0, 0, 0, []);
      if path: Path :| k == PathKey(path) { FamiliesDisjoint(0, 0, 0, path); }
      if f: u64 :| KeyOfFile(f, k) { FamiliesDisjoint(0, 0, f, []); }
    }
  }

  // -------------------------------------------------------------------------
  // Frames

  ghost predicate SameNames(kv: Kv, kv': Kv) {
    forall path: Path :: NameOf(kv', path) == NameOf(kv, path)
  }

  ghost predicate SameOtherImages(kv: Kv, kv': Kv, id: u64) {
    forall f: u64 :: f != id ==> ImageOf(kv', f) == ImageOf(kv, f)
  }

  // Every changed key is of the catalog or of file `id`.
  ghost predicate TouchesOnly(batch: Batch, id: u64) {
    forall k :: k in batch ==> k == NEXT_FILE_ID_KEY || KeyOfFile(id, k) || exists path: Path :: k == PathKey(path)
  }

  lemma OtherImagesKept(kv: Kv, batch: Batch, id: u64)
    requires TouchesOnly(batch, id)
    ensures SameOtherImages(kv, Apply(kv, batch), id)
  {
    hide Apply, ImageOf, KeyOfFile, PathKey;
    var kv' := Apply(kv, batch);
    forall f: u64 | f != id ensures ImageOf(kv', f) == ImageOf(kv, f) {
      forall k | KeyOfFile(f, k) ensures Lookup(kv', k) == Lookup(kv, k) {
        KeyOfOneFile(f, id, k);
        CatalogKeysOfNoFile(f, []);
        if path: Path :| k == PathKey(path) { CatalogKeysOfNoFile(f, path); }
      }
      ImageFrame(kv, kv', f);
    }
  }

  // The keys under a file's chunk prefix are its chunks.
  lemma PrefixKeysExact(kv: Kv, id: u64)
    requires WellFormedKeys(kv.Keys)
    ensures forall k :: k in PrefixKeys(kv, ChunkPrefix(id)) <==> k in kv && exists i: u64 :: k == ChunkKey(id, i)
  {
    hide ChunkKey, ChunkPrefix;
    forall k ensures k in PrefixKeys(kv, ChunkPrefix(id)) <==> k in kv && exists i: u64 :: k == ChunkKey(id, i) {
      if k in kv { PrefixScanExact(kv.Keys, id, k); }
    }
  }

  lemma ChunksDropped(kv: Kv, batch: Batch, id: u64)
    requires forall i: u64 :: ChunkKey(id, i) in kv ==> ChunkKey(id, i) in batch
    requires forall i: u64 :: ChunkKey(id, i) in batch ==> batch[ChunkKey(id, i)] == Delete
    ensures StoredChunks(Apply(kv, batch), id) == map[]
  {
    hide ChunkKey, Apply;
    var kv' := Apply(kv, batch);
    forall i: u64 ensures ChunkKey(id, i) !in kv' {
      assert Lookup(kv', ChunkKey(id, i)) == if ChunkKey(id, i) in batch then None else Lookup(kv, ChunkKey(id, i));
    }
  }

  // The families of keys, as the batches below meet them.
  lemma FamilyFacts(id: u64)
    ensures forall i: u64 :: ChunkKey(id, i) != MetadataKey(id) && ChunkKey(id, i) != NEXT_FILE_ID_KEY
    ensures forall p: Path, i: u64 :: PathKey(p) != ChunkKey(id, i)
    ensures forall p: Path :: PathKey(p) != MetadataKey(id) && PathKey(p) != NEXT_FILE_ID_KEY
    ensures forall p: Path, q: Path :: PathKey(p) == PathKey(q) ==> p == q
    ensures MetadataKey(id) != NEXT_FILE_ID_KEY
    ensures KeyOfFile(id, MetadataKey(id)) && forall i: u64 :: KeyOfFile(id, ChunkKey(id, i))
  {
    hide ChunkKey, MetadataKey, PathKey;
    forall p: Path, i: u64
      ensures PathKey(p) != ChunkKey(id, i) && PathKey(p) != MetadataKey(id) && PathKey(p) != NEXT_FILE_ID_KEY
      ensures ChunkKey(id, i) != MetadataKey(id) && ChunkKey(id, i) != NEXT_FILE_ID_KEY
    {
      FamiliesDisjoint(id, i, id, p);
    }
    FamiliesDisjoint(id, 0, id, []);
    forall i: u64 ensures ChunkKey(id, i) != MetadataKey(id) && ChunkKey(id, i) != NEXT_FILE_ID_KEY {
      FamiliesDisjoint(id, i, id, []);
    }
    forall p: Path, q: Path ensures PathKey(p) == PathKey(q) ==> p == q { PathKeyInjective(p, q); }
  }

  // -------------------------------------------------------------------------
  // The effects

  // remove: the path and its file are gone, all else is as it was.
  lemma RemoveEffect(kv: Kv, path: Path, kv': Kv)
    requires WellFormedKeys(kv.Keys) && RemoveFile(kv, path) == Success(kv')
    ensures NameOf(kv, path).Some?
    ensures forall p: Path :: NameOf(kv', p) == if p == path then None else NameOf(kv, p)
    ensures Lookup(kv', NEXT_FILE_ID_KEY) == Lookup(kv, NEXT_FILE_ID_KEY)
    ensures ImageOf(kv', NameOf(kv, path).value) == NO_FILE
    ensures SameOtherImages(kv, kv', NameOf(kv, path).value)
    ensures kv'.Keys <= kv.Keys
  {
    hide ChunkKey, ChunkPrefix, MetadataKey, PathKey, Apply, PrefixKeys, StoredChunks, KeyOfFile;
    var id := NameOf(kv, path).value;
    var batch := Dropped({PathKey(path), MetadataKey(id)} + PrefixKeys(kv, ChunkPrefix(id)));
    FamilyFacts(id);
    PrefixKeysExact(kv, id);
    forall p: Path ensures Lookup(kv', PathKey(p)) == if p == path then None else Lookup(kv, PathKey(p)) {
    }
    ChunksDropped(kv, batch, id);
    OtherImagesKept(kv, batch, id);
    forall k | k in kv' ensures k in kv { assert Lookup(kv', k).Some?; }
  }

  ghost function MoveBatch(kv: Kv, source: Path, target: Path, id: u64): Batch {
    var gone := match NameOf(kv, target)
      case Some(replaced) => {MetadataKey(replaced)} + PrefixKeys(kv, ChunkPrefix(replaced))
      case None => {};
    Dropped({PathKey(source)} + gone)[PathKey(target) := Put(U64ToBytes(id))]
  }

  lemma MoveIsBatch(kv: Kv, source: Path, target: Path, kv': Kv)
    requires Consistent(kv) && source != target && MoveFile(kv, source, target) == Success(kv')
    ensures NameOf(kv, source).Some? && kv' == Apply(kv, MoveBatch(kv, source, target, NameOf(kv, source).value))
  {
    hide ChunkKey, ChunkPrefix, MetadataKey, PathKey, Apply, PrefixKeys, StoredChunks, KeyOfFile;
    var none: set<bytes> := {};
    assert {PathKey(source)} + none == {PathKey(source)};
  }

  lemma MoveBatchFacts(kv: Kv, source: Path, target: Path, id: u64)
    requires WellFormedKeys(kv.Keys) && source != target
    ensures var batch := MoveBatch(kv, source, target, id);
      var touched := if NameOf(kv, target).Some? then NameOf(kv, target).value else 0;
      && PathKey(target) in batch && batch[PathKey(target)] == Put(U64ToBytes(id))
      && PathKey(source) in batch && batch[PathKey(source)] == Delete
      && (forall p: Path :: p != source && p != target ==> PathKey(p) !in batch)
      && NEXT_FILE_ID_KEY !in batch
      && TouchesOnly(batch, touched)
      && (forall k :: k in batch && batch[k].Put? ==> k == PathKey(target))
      && (NameOf(kv, target).None? ==> forall k :: k in batch ==> k == PathKey(source) || k == PathKey(target))
      && (NameOf(kv, target).Some? ==>
            && MetadataKey(touched) in batch && batch[MetadataKey(touched)] == Delete
            && (forall i: u64 :: ChunkKey(touched, i) in kv ==> ChunkKey(touched, i) in batch)
            && (forall i: u64 :: ChunkKey(touched, i) in batch ==> batch[ChunkKey(touched, i)] == Delete))
  {
    hide ChunkKey, ChunkPrefix, MetadataKey, PathKey, PrefixKeys, KeyOfFile, U64ToBytes, ReadFileId;
    var touched := if NameOf(kv, target).Some? then NameOf(kv, target).value else 0;
    FamilyFacts(touched);
    PrefixKeysExact(kv, touched);
  }

  // move: the target has the source's file, the source and the file the target
  // had are gone, all else is as it was.
  lemma MoveEffect(kv: Kv, source: Path, target: Path, kv': Kv)
    requires Consistent(kv) && source != target && MoveFile(kv, source, target) == Success(kv')
    ensures NameOf(kv, source).Some?
    ensures forall p: Path ::
      NameOf(kv', p) == if p == source then None else if p == target then NameOf(kv, source) else NameOf(kv, p)
    ensures Lookup(kv', NEXT_FILE_ID_KEY) == Lookup(kv, NEXT_FILE_ID_KEY)
    ensures NameOf(kv, target).Some? ==>
      ImageOf(kv', NameOf(kv, target).value) == NO_FILE && SameOtherImages(kv, kv', NameOf(kv, target).value)
    ensures NameOf(kv, target).None? ==> forall f: u64 :: ImageOf(kv', f) == ImageOf(kv, f)
    ensures forall k :: k in kv' ==> k in kv || k == PathKey(target)
    ensures PathKey(source) !in kv'
  {
    hide ChunkKey, MetadataKey, PathKey, Apply, StoredChunks, KeyOfFile, MoveFile, MoveBatch, ReadFileId, TouchesOnly;
    MoveIsBatch(kv, source, target, kv');
    ConsistentKeysWellFormed(kv);
    var id := NameOf(kv, source).value;
    var batch := MoveBatch(kv, source, target, id);
    MoveBatchFacts(kv, source, target, id);
    NamesAfterMove(kv, batch, source, target, id);
    var touched := if NameOf(kv, target).Some? then NameOf(kv, target).value else 0;
    OtherImagesKept(kv, batch, touched);
    if NameOf(kv, target).Some? {
      ChunksDropped(kv, batch, touched);
    } else {
      CatalogKeysOfNoFile(touched, source);
      CatalogKeysOfNoFile(touched, target);
      ImageKept(kv, batch, touched);
    }
    forall k | k in kv' ensures k in kv || k == PathKey(target) { assert Lookup(kv', k).Some?; }
    assert Lookup(kv', PathKey(source)) == None;
  }

  // Were two paths to name one file, moving one onto the other would leave the
  // file as it is.
  lemma MoveOntoAlias(kv: Kv, source: Path, target: Path, id: u64, kv': Kv)
    requires source != target && NameOf(kv, source) == NameOf(kv, target) == Some(id)
    requires MoveFile(kv, source, target) == Success(kv')
    ensures NameOf(kv', source) == None && NameOf(kv', target) == Some(id)
    ensures forall f: u64 :: ImageOf(kv', f) == ImageOf(kv, f)
  {
    hide ChunkKey, ChunkPrefix, MetadataKey, PathKey, Apply, PrefixKeys, StoredChunks, KeyOfFile, DecodeFileId;
    var none: set<bytes> := {};
    assert {PathKey(source)} + none == {PathKey(source)};
    var batch := Dropped({PathKey(source)})[PathKey(target) := Put(U64ToBytes(id))];
    assert kv' == Apply(kv, batch);
    PathKeyInjective(source, target);
    NamesAreNotZero(kv, source);
    DecodeFileIdExact([], id);
    assert Lookup(kv', PathKey(source)) == None && Lookup(kv', PathKey(target)) == Some(U64ToBytes(id));
    OtherImagesKept(kv, batch, 0);
    OtherImagesKept(kv, batch, 1);
  }

  lemma NamesAfterMove(kv: Kv, batch: Batch, source: Path, target: Path, id: u64)
    requires source != target && NameOf(kv, source) == Some(id)
    requires PathKey(target) in batch && batch[PathKey(target)] == Put(U64ToBytes(id))
    requires PathKey(source) in batch && batch[PathKey(source)] == Delete
    requires forall p: Path :: p != source && p != target ==> PathKey(p) !in batch
    ensures forall p: Path ::
      NameOf(Apply(kv, batch), p) == if p == source then None else if p == target then Some(id) else NameOf(kv, p)
  {
    hide PathKey, Apply, DecodeFileId;
    DecodeFileIdExact([], id);
    assert id != 0 by { NamesAreNotZero(kv, source); }
  }

  lemma NamesAreNotZero(kv: Kv, path: Path)
    ensures NameOf(kv, path) != Some(0)
  {
  }

  lemma ImageKept(kv: Kv, batch: Batch, id: u64)
    requires forall k :: KeyOfFile(id, k) ==> k !in batch
    ensures ImageOf(Apply(kv, batch), id) == ImageOf(kv, id)
  {
    hide Apply, KeyOfFile;
    ImageFrame(kv, Apply(kv, batch), id);
  }

  const EMPTY_FILE := Image(Some(Encode(NEW_METADATA)), map[])

  // truncate-on-open: the file is empty with the default geometry.
  lemma TruncateEffect(kv: Kv, path: Path, create: bool, kv': Kv, id: u64, m: FileMetadata)
    requires WellFormedKeys(kv.Keys) && NameOf(kv, path).Some?
    requires PrepareFileForOpen(kv, path, create, true) == Success((kv', id, m))
    ensures NameOf(kv, path) == Some(id) && m == NEW_METADATA
    ensures SameNames(kv, kv') && Lookup(kv', NEXT_FILE_ID_KEY) == Lookup(kv, NEXT_FILE_ID_KEY)
    ensures ImageOf(kv', id) == EMPTY_FILE && SameOtherImages(kv, kv', id)
    ensures forall k :: k in kv' ==> k in kv || k == MetadataKey(id)
  {
    hide ChunkKey, ChunkPrefix, MetadataKey, PathKey, Apply, PrefixKeys, StoredChunks, KeyOfFile, Encode, Decode;
    var batch := Dropped(PrefixKeys(kv, ChunkPrefix(id)))[MetadataKey(id) := Put(Encode(NEW_METADATA))];
    assert kv' == Apply(kv, batch);
    FamilyFacts(id);
    PrefixKeysExact(kv, id);
    forall p: Path ensures Lookup(kv', PathKey(p)) == Lookup(kv, PathKey(p)) {
    }
    ChunksDropped(kv, batch, id);
    OtherImagesKept(kv, batch, id);
    forall k | k in kv' ensures k in kv || k == MetadataKey(id) { assert Lookup(kv', k).Some?; }
  }

  lemma CreateIsBatch(kv: Kv, path: Path, truncateExisting: bool, kv': Kv, id: u64, m: FileMetadata)
    requires Consistent(kv) && NameOf(kv, path).None?
    requires PrepareFileForOpen(kv, path, true, truncateExisting) == Success((kv', id, m))
    ensures id == NextId(kv) && 0 < id && id + 1 < U64_LIMIT && kv' == Apply(kv, CreateBatch(path, id)) && m == NEW_METADATA
  {
    hide ChunkKey, MetadataKey, PathKey, Apply, KeyOfFile, Encode, Decode, ReadFileId;
    assert PathKey(path) !in kv;
    NextIdRead(kv);
  }

  lemma CreateLookups(kv: Kv, path: Path, id: u64)
    requires id + 1 < U64_LIMIT
    ensures var kv' := Apply(kv, CreateBatch(path, id));
      && (forall p: Path ::
            Lookup(kv', PathKey(p)) == if p == path then Some(U64ToBytes(id)) else Lookup(kv, PathKey(p)))
      && Lookup(kv', NEXT_FILE_ID_KEY) == Some(U64ToBytes(id + 1))
      && Lookup(kv', MetadataKey(id)) == Some(Encode(NEW_METADATA))
      && (forall k :: k in kv' ==> k in kv || k == MetadataKey(id) || k == PathKey(path) || k == NEXT_FILE_ID_KEY)
  {
    hide ChunkKey, MetadataKey, PathKey, Apply, KeyOfFile, Encode, U64ToBytes;
    var kv' := Apply(kv, CreateBatch(path, id));
    FamilyFacts(id);
    forall k | k in kv' ensures k in kv || k == MetadataKey(id) || k == PathKey(path) || k == NEXT_FILE_ID_KEY {
      assert Lookup(kv', k).Some?;
    }
  }

  // A file can be created exactly while the counter has not run out.
  lemma CreateGrantedIff(kv: Kv, path: Path, truncateExisting: bool)
    requires Consistent(kv) && path != [] && NameOf(kv, path).None?
    ensures PrepareFileForOpen(kv, path, true, truncateExisting)
      == if NextId(kv) + 1 < U64_LIMIT then Success((Apply(kv, CreateBatch(path, NextId(kv))), NextId(kv), NEW_METADATA))
         else Failure(MetadataDecode)
  {
    hide ChunkKey, MetadataKey, PathKey, Apply, KeyOfFile, Encode, Decode, DecodeFileId, CreateBatch;
    assert PathKey(path) !in kv;
    NextIdRead(kv);
  }

  // create: the path names a new empty file with an id no file ever had.
  lemma CreateEffect(kv: Kv, path: Path, truncateExisting: bool, kv': Kv, id: u64, m: FileMetadata)
    requires Consistent(kv) && NameOf(kv, path).None?
    requires PrepareFileForOpen(kv, path, true, truncateExisting) == Success((kv', id, m))
    ensures id == NextId(kv) && NextId(kv') == id + 1 && m == NEW_METADATA
    ensures NEXT_FILE_ID_KEY in kv' && DecodeFileId(kv'[NEXT_FILE_ID_KEY]).Success?
    ensures forall p: Path :: NameOf(kv', p) == if p == path then Some(id) else NameOf(kv, p)
    ensures ImageOf(kv', id) == EMPTY_FILE && SameOtherImages(kv, kv', id)
    ensures forall k :: k in kv' ==> k in kv || k == MetadataKey(id) || k == PathKey(path) || k == NEXT_FILE_ID_KEY
  {
    hide ChunkKey, MetadataKey, PathKey, Apply, KeyOfFile, Encode, Decode, PrepareFileForOpen, StoredChunks;
    CreateIsBatch(kv, path, truncateExisting, kv', id, m);
    var batch := CreateBatch(path, id);
    CreateLookups(kv, path, id);
    FamilyFacts(id);
    DecodeFileIdExact([], id + 1);
    NamesAfterPut(kv, kv', path, id);
    ChunksKept(kv, batch, id);
    assert ImageOf(kv, id) == NO_FILE;
    OtherImagesKept(kv, batch, id);
  }

  lemma NextIdRead(kv: Kv)
    ensures NEXT_FILE_ID_KEY in kv && ReadFileId(kv, NEXT_FILE_ID_KEY).Success? ==>
      ReadFileId(kv, NEXT_FILE_ID_KEY).value == NextId(kv)
  {
  }

  lemma NamesAfterPut(kv: Kv, kv': Kv, path: Path, id: u64)
    requires id != 0
    requires forall p: Path ::
      Lookup(kv', PathKey(p)) == if p == path then Some(U64ToBytes(id)) else Lookup(kv, PathKey(p))
    ensures forall p: Path :: NameOf(kv', p) == if p == path then Some(id) else NameOf(kv, p)
  {
    hide PathKey;
    DecodeFileIdExact([], id);
  }

  lemma ChunksKept(kv: Kv, batch: Batch, id: u64)
    requires forall i: u64 :: ChunkKey(id, i) !in batch
    ensures StoredChunks(Apply(kv, batch), id) == StoredChunks(kv, id)
  {
    hide ChunkKey, Apply;
    var kv' := Apply(kv, batch);
    forall i: u64 ensures Lookup(kv', ChunkKey(id, i)) == Lookup(kv, ChunkKey(id, i)) {
    }
  }

  // -------------------------------------------------------------------------
  // Consistency is kept

  lemma KnownKeys(path: Path, id: u64)
    ensures KnownKey(PathKey(path)) && KnownKey(MetadataKey(id)) && KnownKey(NEXT_FILE_ID_KEY)
    ensures forall i: u64 :: KnownKey(ChunkKey(id, i))
  {
    hide ChunkKey, MetadataKey, PathKey;
    assert KeyOfFile(id, MetadataKey(id));
    forall i: u64 ensures KnownKey(ChunkKey(id, i)) { assert KeyOfFile(id, ChunkKey(id, i)); }
  }

  lemma NextIdFrame(kv: Kv, kv': Kv)
    requires Lookup(kv', NEXT_FILE_ID_KEY) == Lookup(kv, NEXT_FILE_ID_KEY)
    ensures NextId(kv') == NextId(kv)
    ensures NEXT_FILE_ID_KEY in kv' <==> NEXT_FILE_ID_KEY in kv
    ensures NEXT_FILE_ID_KEY in kv ==> kv'[NEXT_FILE_ID_KEY] == kv[NEXT_FILE_ID_KEY]
  {
  }

  lemma EmptyFileValid()
    ensures RecordValid(EMPTY_FILE)
  {
    DecodeEncodes(NEW_METADATA);
  }

  // A change to one file's image, no name and no counter.
  lemma ConsistentImageChange(kv: Kv, kv': Kv, id: u64)
    requires Consistent(kv) && SameNames(kv, kv') && SameOtherImages(kv, kv', id)
    requires Lookup(kv', NEXT_FILE_ID_KEY) == Lookup(kv, NEXT_FILE_ID_KEY)
    requires forall p: Path :: PathKey(p) in kv' <==> PathKey(p) in kv
    requires forall k :: k in kv' ==> KnownKey(k)
    requires RecordValid(ImageOf(kv', id)) && id < NextId(kv)
    ensures Consistent(kv')
  {
    hide ChunkKey, MetadataKey, PathKey, ImageOf, NameOf, KnownKey, RecordValid, DecodeFileId;
    NextIdFrame(kv, kv');
  }

  lemma RemoveConsistent(kv: Kv, path: Path, kv': Kv)
    requires Consistent(kv) && RemoveFile(kv, path) == Success(kv')
    ensures Consistent(kv') && NextId(kv') == NextId(kv)
  {
    ConsistentKeysWellFormed(kv);
    RemoveEffect(kv, path, kv');
    NextIdFrame(kv, kv');
    RemovedPathGone(kv, path, kv');
    hide ChunkKey, MetadataKey, PathKey, ImageOf, NameOf, KnownKey, RecordValid, DecodeFileId, NextId, RemoveFile;
  }

  lemma RemovedPathGone(kv: Kv, path: Path, kv': Kv)
    requires RemoveFile(kv, path) == Success(kv')
    ensures PathKey(path) !in kv'
  {
    hide PathKey, ChunkPrefix, MetadataKey;
    assert Lookup(kv', PathKey(path)) == None;
  }

  lemma MoveConsistent(kv: Kv, source: Path, target: Path, kv': Kv)
    requires Consistent(kv) && MoveFile(kv, source, target) == Success(kv')
    ensures Consistent(kv') && NextId(kv') == NextId(kv)
  {
    hide ChunkKey, MetadataKey, PathKey, ImageOf, NameOf, KnownKey, RecordValid, DecodeFileId, NextId;
    if source != target {
      MoveEffect(kv, source, target, kv');
      NextIdFrame(kv, kv');
      KnownKeys(target, 0);
      MovedNames(kv, source, target, kv');
      forall p: Path | PathKey(p) in kv' ensures NameOf(kv', p).Some? {
        PathKeyInjective(p, target);
      }
    }
  }

  // After a move every name still is one file's only name, and that file's
  // image is as it was.
  lemma MovedNames(kv: Kv, source: Path, target: Path, kv': Kv)
    requires Consistent(kv) && source != target && MoveFile(kv, source, target) == Success(kv')
    ensures forall p: Path, q: Path :: NameOf(kv', p).Some? && NameOf(kv', p) == NameOf(kv', q) ==> p == q
    ensures forall p: Path :: NameOf(kv', p).Some? ==>
      1 <= NameOf(kv', p).value < NextId(kv) && ImageOf(kv', NameOf(kv', p).value) == ImageOf(kv, NameOf(kv', p).value)
    ensures forall p: Path :: NameOf(kv', p).Some? ==> RecordValid(ImageOf(kv', NameOf(kv', p).value))
    ensures forall f: u64 :: f >= NextId(kv) ==> ImageOf(kv', f) == NO_FILE
  {
    hide ChunkKey, MetadataKey, PathKey, ImageOf, NameOf, KnownKey, RecordValid, DecodeFileId, NextId, MoveFile;
    MoveEffect(kv, source, target, kv');
    forall p: Path | NameOf(kv', p).Some?
      ensures 1 <= NameOf(kv', p).value < NextId(kv)
      ensures ImageOf(kv', NameOf(kv', p).value) == ImageOf(kv, NameOf(kv', p).value)
      ensures RecordValid(ImageOf(kv', NameOf(kv', p).value))
    {
      var before := if p == target then source else p;
      assert NameOf(kv, before) == NameOf(kv', p);
    }
  }

  lemma TruncateConsistent(kv: Kv, path: Path, create: bool, kv': Kv, id: u64, m: FileMetadata)
    requires Consistent(kv) && NameOf(kv, path).Some?
    requires PrepareFileForOpen(kv, path, create, true) == Success((kv', id, m))
    ensures Consistent(kv') && NextId(kv') == NextId(kv)
  {
    hide ChunkKey, MetadataKey, PathKey, ImageOf, NameOf, KnownKey, RecordValid, DecodeFileId, NextId, PrepareFileForOpen;
    ConsistentKeysWellFormed(kv);
    TruncateEffect(kv, path, create, kv', id, m);
    NextIdFrame(kv, kv');
    KnownKeys(path, id);
    EmptyFileValid();
    forall p: Path | PathKey(p) in kv' ensures NameOf(kv', p).Some? {
      FamiliesDisjoint(0, 0, id, p);
      assert PathKey(p) in kv;
    }
  }

  lemma CreateConsistent(kv: Kv, path: Path, truncateExisting: bool, kv': Kv, id: u64, m: FileMetadata)
    requires Consistent(kv) && NameOf(kv, path).None?
    requires PrepareFileForOpen(kv, path, true, truncateExisting) == Success((kv', id, m))
    ensures Consistent(kv') && NextId(kv') == NextId(kv) + 1
  {
    hide ChunkKey, MetadataKey, PathKey, ImageOf, NameOf, KnownKey, RecordValid, DecodeFileId, NextId, PrepareFileForOpen;
    CreateEffect(kv, path, truncateExisting, kv', id, m);
    KnownKeys(path, id);
    EmptyFileValid();
    NextIdPositive(kv);
    forall p: Path | PathKey(p) in kv' ensures NameOf(kv', p).Some? {
      FamiliesDisjoint(0, 0, id, p);
      PathKeyInjective(p, path);
    }
  }

  lemma NextIdPositive(kv: Kv)
    requires Consistent(kv)
    ensures NextId(kv) >= 1
  {
  }
}
