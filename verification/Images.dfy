// One file's share of the database: its record and its chunks.
module Images {
  import opened Bytes
  import opened Chunks
  import opened Keys
  import opened KvStore

  datatype Image = Image(record: Option<bytes>, chunks: ChunkMap)

  const NO_FILE := Image(None, map[])

  ghost function StoredChunks(kv: Kv, f: u64): ChunkMap {
    map i: u64 | 0 <= i < U64_LIMIT && ChunkKey(f, i) in kv :: kv[ChunkKey(f, i)]
  }

  ghost function ImageOf(kv: Kv, f: u64): Image {
    Image(Lookup(kv, MetadataKey(f)), StoredChunks(kv, f))
  }

  // The keys an image is read from.
  ghost predicate KeyOfFile(f: u64, k: bytes) {
    k == MetadataKey(f) || exists i: u64 :: k == ChunkKey(f, i)
  }

  lemma KeyOfOneFile(f: u64, f': u64, k: bytes)
    requires f != f' && KeyOfFile(f, k)
    ensures !KeyOfFile(f', k)
  {
    MetadataKeyInjective(f, f');
    if k == MetadataKey(f) {
      forall i: u64 ensures k != ChunkKey(f', i) { FamiliesDisjoint(f', i, f, []); }
    } else {
      var i: u64 :| k == ChunkKey(f, i);
      FamiliesDisjoint(f, i, f', []);
      forall j: u64 ensures k != ChunkKey(f', j) { ChunkKeyInjective(f, i, f', j); }
    }
  }

  // The catalog's own keys belong to no file.
  lemma CatalogKeysOfNoFile(f: u64, path: Path)
    ensures !KeyOfFile(f, PathKey(path)) && !KeyOfFile(f, NEXT_FILE_ID_KEY)
  {
    forall i: u64
      ensures PathKey(path) != ChunkKey(f, i) && NEXT_FILE_ID_KEY != ChunkKey(f, i)
    {
      FamiliesDisjoint(f, i, f, path);
    }
    FamiliesDisjoint(f, 0, f, path);
  }

  lemma ImageFrame(kv: Kv, kv': Kv, f: u64)
    requires forall k :: KeyOfFile(f, k) ==> Lookup(kv', k) == Lookup(kv, k)
    ensures ImageOf(kv', f) == ImageOf(kv, f)
  {
    assert KeyOfFile(f, MetadataKey(f));
    forall i: u64 ensures Lookup(kv', ChunkKey(f, i)) == Lookup(kv, ChunkKey(f, i)) {
      assert KeyOfFile(f, ChunkKey(f, i));
    }
    assert StoredChunks(kv', f) == StoredChunks(kv, f);
  }

  // -------------------------------------------------------------------------
  // The batch of a sync

  function ChangeFor(p: PendingChunk): Change {
    match p
    case Written(data) => Put(data)
    case Deleted => Delete
  }

  lemma ChunkKeysDistinct(f: u64)
    ensures forall i: u64, j: u64 :: ChunkKey(f, i) == ChunkKey(f, j) ==> i == j
  {
    forall i: u64, j: u64 ensures ChunkKey(f, i) == ChunkKey(f, j) ==> i == j { ChunkKeyInjective(f, i, f, j); }
  }

  // add_pending_to_batch: one change a staged chunk.
  ghost function PendingBatch(f: u64, pending: Pending): Batch {
    hide ChunkKey, ChangeFor;
    ChunkKeysDistinct(f);
    map i | i in pending :: ChunkKey(f, i) := ChangeFor(pending[i])
  }

  lemma PendingBatchIs(f: u64, pending: Pending)
    ensures forall i: u64 :: ChunkKey(f, i) in PendingBatch(f, pending) <==> i in pending
    ensures forall i: u64 :: i in pending ==> PendingBatch(f, pending)[ChunkKey(f, i)] == ChangeFor(pending[i])
    ensures forall k :: k in PendingBatch(f, pending) ==> exists i: u64 :: i in pending && k == ChunkKey(f, i)
  {
    hide ChunkKey, ChangeFor;
    ChunkKeysDistinct(f);
  }

  lemma PendingBatchNone(f: u64)
    ensures PendingBatch(f, map[]) == map[]
  {
  }

  lemma PendingBatchAdd(f: u64, pending: Pending, i: u64, p: PendingChunk)
    ensures PendingBatch(f, pending[i := p]) == PendingBatch(f, pending)[ChunkKey(f, i) := ChangeFor(p)]
  {
    hide ChunkKey, ChangeFor;
    ChunkKeysDistinct(f);
  }

  // One batch, so no reader sees a size its chunks do not back.
  ghost function SyncBatch(f: u64, pending: Pending, record: bytes): Batch {
    PendingBatch(f, pending)[MetadataKey(f) := Put(record)]
  }

  // A sync stores exactly what the overlay showed, and touches no other file,
  // path or counter.
  lemma SyncStoresOverlay(kv: Kv, f: u64, pending: Pending, record: bytes)
    ensures ImageOf(Apply(kv, SyncBatch(f, pending, record)), f)
      == Image(Some(record), Overlay(StoredChunks(kv, f), pending))
  {
    hide ChunkKey, MetadataKey, Overlay, Apply, PendingBatch, ChangeFor;
    PendingBatchIs(f, pending);
    var batch := SyncBatch(f, pending, record);
    SyncBatchAt(f, pending, record);
    hide SyncBatch;
    var stored := StoredChunks(Apply(kv, batch), f);
    var shown := Overlay(StoredChunks(kv, f), pending);
    forall i: u64
      ensures i in stored <==> i in shown
      ensures i in stored ==> stored[i] == shown[i]
    {
      assert Lookup(Apply(kv, batch), ChunkKey(f, i))
        == if i in pending then Outcome(Lookup(kv, ChunkKey(f, i)), batch[ChunkKey(f, i)])
           else Lookup(kv, ChunkKey(f, i));
    }
    assert Lookup(Apply(kv, batch), MetadataKey(f)) == Some(record);
  }

  lemma SyncBatchAt(f: u64, pending: Pending, record: bytes)
    ensures var batch := SyncBatch(f, pending, record);
      && MetadataKey(f) in batch && batch[MetadataKey(f)] == Put(record)
      && (forall i: u64 :: ChunkKey(f, i) in batch <==> i in pending)
      && (forall i: u64 :: i in pending ==>
            batch[ChunkKey(f, i)] == if pending[i].Written? then Put(pending[i].data) else Delete)
  {
    hide ChunkKey, MetadataKey, PendingBatch;
    PendingBatchIs(f, pending);
    forall i: u64 ensures ChunkKey(f, i) != MetadataKey(f) { FamiliesDisjoint(f, i, f, []); }
  }

  lemma SyncFrame(kv: Kv, f: u64, pending: Pending, record: bytes, k: bytes)
    requires !KeyOfFile(f, k)
    ensures Lookup(Apply(kv, SyncBatch(f, pending, record)), k) == Lookup(kv, k)
  {
    PendingBatchIs(f, pending);
    assert k !in PendingBatch(f, pending) && k != MetadataKey(f);
  }
}
