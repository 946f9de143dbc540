// The catalog transactions as they are carried out, key by key, each proved to
// have the effect its value-level function says (rust/src/database_metadata.rs).
module DatabaseMetadata {
  import opened Bytes
  import opened Keys
  import opened KvStore
  import opened Metadata
  import Catalog

  // A call that refuses changes nothing; a commit that fails leaves the old
  // database or the new one.
  ghost predicate Committed<T>(spec: Result<Kv>, r: Result<T>, kv: Kv, kv': Kv) {
    match spec
    case Failure(e) => kv' == kv && (r == Failure(e) || (e != InvalidArgument && r == Failure(StoreFault)))
    case Success(after) => (r.Success? && kv' == after) || (r == Failure(StoreFault) && (kv' == kv || kv' == after))
  }

  class DatabaseMetadata {
    const store: Store

    constructor (store: Store)
      ensures this.store == store
    {
      this.store := store;
    }

    method FileExists(path: Path) returns (r: Result<bool>)
      modifies store`faults
      ensures r == if store.faults == old(store.faults) then Catalog.FileExists(store.kv, path) else Failure(StoreFault)
      ensures path == [] ==> store.faults == old(store.faults)
    {
      if Catalog.ValidatePath(path).Failure? { return Failure(InvalidArgument); }
      var value := store.Get(PathKey(path));
      if value.Failure? { return Failure(value.error); }
      return Success(value.value.Some?);
    }

    method OpenFile(path: Path) returns (r: Result<(u64, FileMetadata)>)
      modifies store`faults
      ensures r == if store.faults == old(store.faults) then Catalog.OpenFile(store.kv, path) else Failure(StoreFault)
      ensures path == [] ==> store.faults == old(store.faults)
    {
      if Catalog.ValidatePath(path).Failure? { return Failure(InvalidArgument); }
      var transaction := new Transaction(store);
      ApplyNothing(store.kv);
      var found := FindFileIn(transaction, path);
      match found {
        case Failure(e) => return Failure(e);
        case Success(None) => return Failure(FileNotFound);
        case Success(Some(file)) => return Success(file);
      }
    }

    // find_file, through whatever view the reader has.
    method FindFileIn(transaction: Transaction, path: Path) returns (r: Result<Option<(u64, FileMetadata)>>)
      modifies transaction.store`faults
      ensures r == if transaction.store.faults == old(transaction.store.faults) then Catalog.FindFile(transaction.View(), path)
                   else Failure(StoreFault)
    {
      var value := transaction.Get(PathKey(path));
      if value.Failure? { return Failure(value.error); }
      if value.value.None? { return Success(None); }
      var id := DecodeFileId(value.value.value);
      if id.Failure? { return Failure(id.error); }
      var record := transaction.Get(MetadataKey(id.value));
      if record.Failure? { return Failure(record.error); }
      if record.value.None? { return Failure(MetadataDecode); }
      var m := Decode(record.value.value);
      if m.Failure? { return Failure(m.error); }
      return Success(Some((id.value, m.value)));
    }

    // Delete every chunk of a file, one scanned key at a time.
    method DeleteChunks(transaction: Transaction, fileId: u64) returns (r: Result<()>)
      modifies transaction, transaction.store`faults
      ensures r.Failure? ==> r.error == StoreFault
      ensures r.Failure? <==> transaction.store.faults != old(transaction.store.faults)
      ensures r.Success? ==>
        transaction.writes == old(transaction.writes) + Catalog.Dropped(PrefixKeys(old(transaction.View()), ChunkPrefix(fileId)))
    {
      hide Apply, Catalog.Dropped;
      var scanned := transaction.ScanPrefix(ChunkPrefix(fileId));
      if scanned.Failure? { return Failure(scanned.error); }
      ghost var keys := PrefixKeys(transaction.View(), ChunkPrefix(fileId));
      var pairs := scanned.value;
      ghost var done: set<bytes> := {};
      DropNone(transaction.writes);
      for n := 0 to |pairs|
        invariant transaction.store.faults == old(transaction.store.faults)
        invariant done <= keys
        invariant forall i :: 0 <= i < n ==> pairs[i].0 in done
        invariant transaction.writes == old(transaction.writes) + Catalog.Dropped(done)
      {
        DropOneMore(old(transaction.writes), done, pairs[n].0);
        transaction.DeleteKey(pairs[n].0);
        done := done + {pairs[n].0};
      }
      forall k | k in keys ensures k in done {
        assert HasKey(pairs, k);
      }
      assert done == keys;
      return Success(());
    }

    method RemoveFile(path: Path) returns (r: Result<()>)
      modifies store
      ensures Committed(Catalog.RemoveFile(old(store.kv), path), r, old(store.kv), store.kv)
      ensures r == Failure(StoreFault) <==> store.faults != old(store.faults)
    {
      hide Apply, PathKey, MetadataKey, ChunkPrefix, PrefixKeys, DecodeFileId;
      if Catalog.ValidatePath(path).Failure? { return Failure(InvalidArgument); }
      var begun := store.Begin();
      if begun.Failure? { return Failure(begun.error); }
      var transaction := begun.value;
      ApplyNothing(store.kv);
      var value := transaction.Get(PathKey(path));
      if value.Failure? { return Failure(value.error); }
      if value.value.None? { return Failure(FileNotFound); }
      var id := DecodeFileId(value.value.value);
      if id.Failure? { return Failure(id.error); }
      transaction.DeleteKey(PathKey(path));
      transaction.DeleteKey(MetadataKey(id.value));
      OtherFamiliesUnprefixed(id.value, id.value, path);
      SamePrefixKeys(store.kv, transaction.writes, id.value);
      var deleted := DeleteChunks(transaction, id.value);
      if deleted.Failure? { return Failure(deleted.error); }
      assert transaction.writes == Catalog.Dropped({PathKey(path), MetadataKey(id.value)} + PrefixKeys(store.kv, ChunkPrefix(id.value)));
      var ok := transaction.Commit();
      if !ok { return Failure(StoreFault); }
      return Success(());
    }

    method MoveFile(source: Path, target: Path) returns (r: Result<()>)
      modifies store
      ensures Committed(Catalog.MoveFile(old(store.kv), source, target), r, old(store.kv), store.kv)
      ensures r == Failure(StoreFault) <==> store.faults != old(store.faults)
    {
      hide Apply, PathKey, MetadataKey, ChunkPrefix, U64ToBytes, PrefixKeys, DecodeFileId;
      if Catalog.ValidatePath(source).Failure? { return Failure(InvalidArgument); }
      if Catalog.ValidatePath(target).Failure? { return Failure(InvalidArgument); }
      if source == target { return Success(()); }
      var begun := store.Begin();
      if begun.Failure? { return Failure(begun.error); }
      var transaction := begun.value;
      ApplyNothing(store.kv);
      var value := transaction.Get(PathKey(source));
      if value.Failure? { return Failure(value.error); }
      if value.value.None? { return Failure(FileNotFound); }
      var id := DecodeFileId(value.value.value);
      if id.Failure? { return Failure(id.error); }

      ghost var gone: set<bytes> := {};
      var replacedValue := transaction.Get(PathKey(target));
      if replacedValue.Failure? { return Failure(replacedValue.error); }
      if replacedValue.value.Some? {
        var replaced := DecodeFileId(replacedValue.value.value);
        if replaced.Failure? { return Failure(replaced.error); }
        if replaced.value != id.value {
          transaction.DeleteKey(MetadataKey(replaced.value));
          OtherFamiliesUnprefixed(replaced.value, replaced.value, target);
          SamePrefixKeys(store.kv, transaction.writes, replaced.value);
          var deleted := DeleteChunks(transaction, replaced.value);
          if deleted.Failure? { return Failure(deleted.error); }
          gone := {MetadataKey(replaced.value)} + PrefixKeys(store.kv, ChunkPrefix(replaced.value));
        }
      }
      assert transaction.writes == Catalog.Dropped(gone);
      transaction.DeleteKey(PathKey(source));
      assert transaction.writes == Catalog.Dropped({PathKey(source)} + gone);
      transaction.PutKey(PathKey(target), U64ToBytes(id.value));
      assert gone == {} ==> {PathKey(source)} + gone == {PathKey(source)};
      var ok := transaction.Commit();
      if !ok { return Failure(StoreFault); }
      return Success(());
    }

    method PrepareFileForOpen(path: Path, create: bool, truncateExisting: bool) returns (r: Result<(u64, FileMetadata)>)
      modifies store
      ensures var spec := Catalog.PrepareFileForOpen(old(store.kv), path, create, truncateExisting);
        && Committed(if spec.Success? then Success(spec.value.0) else Failure(spec.error), r, old(store.kv), store.kv)
        && (r.Success? ==> spec.Success? && r.value == (spec.value.1, spec.value.2))
      ensures r == Failure(StoreFault) <==> store.faults != old(store.faults)
    {
      hide Apply, Catalog.FindFile, Catalog.CreateFile;
      if Catalog.ValidatePath(path).Failure? { return Failure(InvalidArgument); }
      Catalog.FindFileErrors(store.kv, path);
      var begun := store.Begin();
      if begun.Failure? { return Failure(begun.error); }
      var transaction := begun.value;
      ApplyNothing(store.kv);
      var found := FindFileIn(transaction, path);
      if found.Failure? { return Failure(found.error); }
      if found.value.Some? {
        var file := found.value.value;
        if truncateExisting {
          r := EmptyFile(transaction, file.0);
          return r;
        }
        return Success(file);
      }
      if !create { return Failure(FileNotFound); }
      r := CreateFile(transaction, path);
    }

    // The file loses its chunks and starts over with a new record.
    method EmptyFile(transaction: Transaction, fileId: u64) returns (r: Result<(u64, FileMetadata)>)
      requires transaction.store == store && transaction.snapshot == store.kv && transaction.writes == map[]
      modifies transaction, store
      ensures
        var batch := Catalog.Dropped(PrefixKeys(old(store.kv), ChunkPrefix(fileId)))[MetadataKey(fileId) := Put(Encode(NEW_METADATA))];
        && Committed(Success(Apply(old(store.kv), batch)), r, old(store.kv), store.kv)
        && (r.Success? ==> r.value == (fileId, NEW_METADATA))
      ensures r == Failure(StoreFault) <==> store.faults != old(store.faults)
    {
      hide Apply, Catalog.Dropped, PrefixKeys, Encode;
      ApplyNothing(store.kv);
      DropsAlone(Catalog.Dropped(PrefixKeys(store.kv, ChunkPrefix(fileId))));
      var deleted := DeleteChunks(transaction, fileId);
      if deleted.Failure? { return Failure(deleted.error); }
      transaction.PutKey(MetadataKey(fileId), Encode(NEW_METADATA));
      var ok := transaction.Commit();
      if !ok { return Failure(StoreFault); }
      return Success((fileId, NEW_METADATA));
    }

    // The path gets a new file under the next id, unless the ids have run out.
    method CreateFile(transaction: Transaction, path: Path) returns (r: Result<(u64, FileMetadata)>)
      requires transaction.store == store && transaction.snapshot == store.kv && transaction.writes == map[]
      modifies transaction, store
      ensures var spec := Catalog.CreateFile(old(store.kv), path);
        && Committed(if spec.Success? then Success(spec.value.0) else Failure(spec.error), r, old(store.kv), store.kv)
        && (r.Success? ==> spec.Success? && r.value == (spec.value.1, spec.value.2))
      ensures r == Failure(StoreFault) <==> store.faults != old(store.faults)
    {
      hide Apply;
      ApplyNothing(store.kv);
      var next := transaction.Get(NEXT_FILE_ID_KEY);
      if next.Failure? { return Failure(next.error); }
      var id: u64 := 1;
      if next.value.Some? {
        var decoded := DecodeFileId(next.value.value);
        if decoded.Failure? { return Failure(decoded.error); }
        id := decoded.value;
      }
      if id + 1 >= U64_LIMIT { return Failure(MetadataDecode); }
      transaction.PutKey(PathKey(path), U64ToBytes(id));
      transaction.PutKey(MetadataKey(id), Encode(NEW_METADATA));
      transaction.PutKey(NEXT_FILE_ID_KEY, U64ToBytes(id + 1));
      assert transaction.writes == Catalog.CreateBatch(path, id);
      var ok := transaction.Commit();
      if !ok { return Failure(StoreFault); }
      return Success((id, NEW_METADATA));
    }
  }

  lemma DropsAlone(batch: Batch)
    ensures map[] + batch == batch
  {
  }

  lemma ApplyNothing(kv: Kv)
    ensures Apply(kv, map[]) == kv
  {
  }

  lemma DropNone(batch: Batch)
    ensures batch + Catalog.Dropped({}) == batch
  {
  }

  lemma DropOneMore(batch: Batch, done: set<bytes>, k: bytes)
    ensures (batch + Catalog.Dropped(done))[k := Delete] == batch + Catalog.Dropped(done + {k})
  {
  }

  // Deletions outside a file's chunks do not change a scan of them.
  lemma SamePrefixKeys(kv: Kv, batch: Batch, fileId: u64)
    requires forall k :: k in batch ==> !StartsWith(k, ChunkPrefix(fileId))
    ensures PrefixKeys(Apply(kv, batch), ChunkPrefix(fileId)) == PrefixKeys(kv, ChunkPrefix(fileId))
  {
    var after := Apply(kv, batch);
    forall k | StartsWith(k, ChunkPrefix(fileId)) ensures k in after <==> k in kv {
      assert Lookup(after, k) == Lookup(kv, k);
    }
  }
}
