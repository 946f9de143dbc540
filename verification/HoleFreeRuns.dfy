// Files written without holes over whole runs of the file system: their density
// survives syncs, crashes, reopening, moves and truncation on open, so no read
// of theirs is ever out of range.
module HoleFreeRuns {
  import opened Bytes
  import opened Catalog
  import opened CatalogEffects
  import opened FileFlags
  import opened FileHandle
  import opened FileIds
  import opened FileRuns
  import opened FileSystem
  import opened FileSystemRuns
  import opened FlatFile
  import opened Images
  import opened Keys
  import opened KvStore
  import opened Metadata
  import opened PlainFs
  import opened ReadGaps

  // What is stored is the file, without a hole.
  ghost predicate DenseImage(image: Image, f: Flat) {
    ImageShows(image, f) && Dense(Decode(image.record.value).value.geometry, image.chunks, |f.tape|)
  }

  ghost predicate DensePath(kv: Kv, files: map<Path, Flat>, path: Path)
    requires path in files
  {
    NameOf(kv, path).Some? && DenseImage(ImageOf(kv, NameOf(kv, path).value), files[path])
  }

  ghost predicate DenseFiles(kv: Kv, files: map<Path, Flat>) {
    forall p :: p in files ==> DensePath(kv, files, p)
  }

  ghost predicate DenseHandles(kv: Kv, handles: map<nat, Handle>, open: map<nat, OpenEntry>) {
    forall x :: x in handles && x in open && open[x].Attached? ==> DenseFile(kv, handles[x], open[x].flat)
  }

  // Every file and every handle in charge of a path is without a hole.
  ghost predicate DenseSys(s: Sys, fs: Fs) {
    Refines(s, fs) && DenseFiles(s.kv, fs.files) && DenseHandles(s.kv, s.handles, fs.open)
  }

  // Attached handles write inside their file or at its end and do not grow it.
  predicate MakesNoHole(fs: Fs, request: Request) {
    request.Io? && request.handle in fs.open && fs.open[request.handle].Attached? ==>
      var file := fs.open[request.handle];
      LeavesNoHole(file.flags, file.flat, request.op)
  }

  predicate OutOfRange(fs: Fs, request: Request, answer: Answer) {
    && request.Io? && request.handle in fs.open && fs.open[request.handle].Attached?
    && answer.Replied? && answer.reply == Rejected(SliceOutOfRange)
  }

  // -------------------------------------------------------------------------
  // Frames

  lemma HandleDenseKept(kv: Kv, kv': Kv, h: Handle, flat: Flat)
    requires DenseFile(kv, h, flat) && ImageOf(kv', h.fileId) == ImageOf(kv, h.fileId)
    ensures DenseFile(kv', h, flat)
  {
    hide Represents, Dense, Shown, ImageOf;
    RepresentsFrame(kv, kv', h, flat);
    FileSystem.ShownFrame(kv, kv', h);
  }

  // What the refinement says of an attached handle.
  lemma AttachedParts(s: Sys, fs: Fs, x: nat)
    requires Refines(s, fs) && x in s.handles && fs.open[x].Attached?
    ensures fs.open[x].path in fs.files && NameOf(s.kv, fs.open[x].path) == Some(s.handles[x].fileId)
    ensures s.handles[x].fileId < NextId(s.kv)
    ensures s.handles[x].flags == fs.open[x].flags
    ensures Represents(s.kv, s.handles[x], fs.open[x].flat)
    ensures s.handles[x].Clean() ==> fs.files[fs.open[x].path] == Rest(fs.open[x].flat)
  {
    hide Consistent, NameOf, Represents, NextId, FilesStored;
    assert HandleRefines(s.kv, fs.files, s.handles[x], fs.open[x]);
  }

  // -------------------------------------------------------------------------
  // Catalog requests

  lemma RemoveKeepsDense(s: Sys, fs: Fs, path: Path, kv': Kv)
    requires DenseSys(s, fs) && RemoveFile(s.kv, path) == Success(kv')
    ensures DenseFiles(kv', fs.files - {path}) && DenseHandles(kv', s.handles, Detach(fs.open, path))
  {
    hide NameOf, RemoveFile, ImageOf, NextId, DenseImage, DenseFile, Consistent, FilesStored, HandleRefines, Exclusive, OneWriter;
    ConsistentParts(s.kv);
    RemoveEffect(s.kv, path, kv');
    forall p | p in fs.files - {path} ensures DensePath(kv', fs.files - {path}, p) {
      assert DensePath(s.kv, fs.files, p);
    }
    forall x | x in s.handles && x in fs.open && Detach(fs.open, path)[x].Attached?
      ensures DenseFile(kv', s.handles[x], Detach(fs.open, path)[x].flat)
    {
      AttachedParts(s, fs, x);
      HandleDenseKept(s.kv, kv', s.handles[x], fs.open[x].flat);
    }
  }

  lemma MoveKeepsDense(s: Sys, fs: Fs, source: Path, target: Path, kv': Kv)
    requires DenseSys(s, fs) && source != target && source in fs.files && MoveFile(s.kv, source, target) == Success(kv')
    ensures DenseFiles(kv', (fs.files - {source})[target := fs.files[source]])
    ensures DenseHandles(kv', s.handles, Rename(Detach(fs.open, target), source, target))
  {
    hide NameOf, MoveFile, ImageOf, NextId, DenseImage, DenseFile, Consistent, FilesStored, HandleRefines, Exclusive, OneWriter;
    ConsistentParts(s.kv);
    MoveEffect(s.kv, source, target, kv');
    var files' := (fs.files - {source})[target := fs.files[source]];
    forall p | p in files' ensures DensePath(kv', files', p) {
      assert DensePath(s.kv, fs.files, if p == target then source else p);
      assert NameOf(kv', p) == NameOf(s.kv, if p == target then source else p);
    }
    var open' := Rename(Detach(fs.open, target), source, target);
    forall x | x in s.handles && x in open' && open'[x].Attached? ensures DenseFile(kv', s.handles[x], open'[x].flat) {
      AttachedParts(s, fs, x);
      HandleDenseKept(s.kv, kv', s.handles[x], fs.open[x].flat);
    }
  }

  lemma EmptyImageDense()
    ensures DenseImage(EMPTY_FILE, EMPTY)
  {
    EmptyShows();
    EmptyIsDense(Decode(EMPTY_FILE.record.value).value.geometry, map[]);
    hide Decode, Encode, Dense, ImageShows;
  }

  lemma PrepareKeepsDense(s: Sys, fs: Fs, path: Path, flags: Flags, kv': Kv, id: u64, m: FileMetadata)
    requires DenseSys(s, fs)
    requires PrepareFileForOpen(s.kv, path, flags.create, flags.truncateExisting) == Success((kv', id, m))
    ensures DenseFiles(kv', fs.files[path := Prepared(fs, path, flags)])
    ensures DenseHandles(kv', s.handles, Detach(fs.open, path))
  {
    hide NameOf, PrepareFileForOpen, ImageOf, NextId, DenseImage, DenseFile, Consistent, HandleRefines, Exclusive, OneWriter, ImageShows;
    ConsistentParts(s.kv);
    PrepareCases(s.kv, path, flags, kv', id, m);
    EmptyImageDense();
    var files' := fs.files[path := Prepared(fs, path, flags)];
    forall p | p in files' ensures DensePath(kv', files', p) {
      if p in fs.files { assert DensePath(s.kv, fs.files, p); }
    }
    forall x | x in s.handles && x in fs.open && Detach(fs.open, path)[x].Attached?
      ensures DenseFile(kv', s.handles[x], Detach(fs.open, path)[x].flat)
    {
      AttachedParts(s, fs, x);
      HandleDenseKept(s.kv, kv', s.handles[x], fs.open[x].flat);
    }
  }

  // A handle opened on a file without holes has none either.
  lemma OpenedDense(kv: Kv, client: Client, id: u64, m: FileMetadata, flags: Flags, f: Flat)
    requires DenseImage(ImageOf(kv, id), f) && HasRecord(ImageOf(kv, id), m) && f == Rest(f)
    requires OpenHandle(client, id, m, flags).Success?
    ensures DenseFile(kv, OpenHandle(client, id, m, flags).value, Cursor(f, flags))
  {
    hide Dense, Decode, StoredChunks, Chunks.Shows, Chunks.Fits;
    OpenedAs(client, id, m, flags);
    ReopenExact(kv, client, id, flags, f);
    Chunks.OverlayEmpty(StoredChunks(kv, id));
  }

  lemma RecordOpens(kv: Kv, client: Client, id: u64, m: FileMetadata, flags: Flags, f: Flat)
    requires DenseImage(ImageOf(kv, id), f) && HasRecord(ImageOf(kv, id), m)
    requires flags.Validate().Success? && (client.ReadOnly? ==> flags.read && !flags.write)
    ensures OpenHandle(client, id, m, flags).Success?
  {
    hide Dense, Decode, StoredChunks, Chunks.Shows, Chunks.Fits;
    ReopenExact(kv, client, id, flags, f);
  }

  lemma DenseAt(kv: Kv, files: map<Path, Flat>, path: Path)
    requires DenseFiles(kv, files) && path in files
    ensures NameOf(kv, path).Some? && DenseImage(ImageOf(kv, NameOf(kv, path).value), files[path])
  {
    hide NameOf, ImageOf, DenseImage;
    assert DensePath(kv, files, path);
  }

  lemma OpenWriteKeepsDense(s: Sys, fs: Fs, hid: nat, path: Path, flags: Flags, answer: Answer, s': Sys)
    requires DenseSys(s, fs) && fs.Valid() && hid !in s.handles && flags.write && flags.Validate().Success?
    requires OpenForWrite(s, hid, path, flags, answer, s') && PlainFs.Allows(fs, Open(hid, path, flags), answer)
    ensures var fs' := PlainFs.Next(fs, Open(hid, path, flags), answer);
      DenseFiles(s'.kv, fs'.files) && DenseHandles(s'.kv, s'.handles, fs'.open)
  {
    hide NameOf, PrepareFileForOpen, ImageOf, NextId, DenseImage, DenseFile, Consistent, HandleRefines, Exclusive, OneWriter,
      ImageShows, DensePath, OpenHandle, NoWriter;
    match PrepareFileForOpen(s.kv, path, flags.create, flags.truncateExisting) {
      case Failure(e) => PrepareRefusals(s, fs, path, flags, e);
      case Success((kv', id, m)) =>
        PrepareKeepsDense(s, fs, path, flags, kv', id, m);
        PrepareCases(s.kv, path, flags, kv', id, m);
        var files' := fs.files[path := Prepared(fs, path, flags)];
        DenseAt(kv', files', path);
        if answer == Ok { OpenedDense(kv', ReadWrite, id, m, flags, files'[path]); }
        else { RecordOpens(kv', ReadWrite, id, m, flags, files'[path]); }
    }
  }

  lemma OpenReadKeepsDense(s: Sys, fs: Fs, hid: nat, path: Path, flags: Flags, answer: Answer, s': Sys)
    requires DenseSys(s, fs) && fs.Valid() && hid !in s.handles && !flags.write && flags.Validate().Success?
    requires OpenForRead(s, hid, path, flags, answer, s') && PlainFs.Allows(fs, Open(hid, path, flags), answer)
    ensures var fs' := PlainFs.Next(fs, Open(hid, path, flags), answer);
      DenseFiles(s'.kv, fs'.files) && DenseHandles(s'.kv, s'.handles, fs'.open)
  {
    hide NameOf, ImageOf, NextId, DenseImage, DenseFile, Consistent, HandleRefines, Exclusive, OneWriter, ImageShows, DensePath,
      OpenHandle, Catalog.OpenFile;
    OpenFileCases(s, fs, path);
    if answer == Ok && path != [] && path in fs.files {
      DenseAt(s.kv, fs.files, path);
      var id := NameOf(s.kv, path).value;
      var m := Decode(ImageOf(s.kv, id).record.value).value;
      var client :| OpenHandle(client, id, m, flags).Success?
        && s' == Sys(s.kv, s.handles[hid := OpenHandle(client, id, m, flags).value]);
      StoredAt(s.kv, fs.files, path);
      OpenedDense(s.kv, client, id, m, flags, fs.files[path]);
    }
  }

  // -------------------------------------------------------------------------
  // Handle operations

  // A sync of a file without holes stores one.
  lemma SyncedDense(kv: Kv, h: Handle, f: Flat)
    requires DenseFile(kv, h, f)
    ensures DenseImage(ImageOf(Apply(kv, SyncBatch(h.fileId, h.pending, h.Record())), h.fileId), Rest(f))
  {
    hide Chunks.Shows, Chunks.Fits, Chunks.Overlay, StoredChunks, Apply, SyncBatch, Encode, Decode, Dense;
    SyncedImage(kv, h, f);
    SyncStoresOverlay(kv, h.fileId, h.pending, h.Record());
    DecodeEncodes(FileMetadata(h.size, h.geometry));
  }

  // An operation of a handle changes the image of its own file only.
  lemma IoImages(s: Sys, fs: Fs, hid: nat, op: Op, answer: Answer, s': Sys)
    requires Refines(s, fs) && IoStep(s, hid, op, answer, s')
    ensures SameNames(s.kv, s'.kv) && SameOtherImages(s.kv, s'.kv, s.handles[hid].fileId)
    ensures s'.kv != s.kv ==>
      && op == Sync && s.handles[hid].flags.write
      && s'.kv == Apply(s.kv, SyncBatch(s.handles[hid].fileId, s.handles[hid].pending, s.handles[hid].Record()))
    ensures s'.kv != s.kv && fs.open[hid].Detached? ==> !Mapped(s.kv, s.handles[hid].fileId)
  {
    hide NameOf, ImageOf, NextId, Consistent, HandleStep, Apply, SyncBatch, FilesStored, Mapped, Represents, Shown;
    var h := s.handles[hid];
    assert HandleRefines(s.kv, fs.files, h, fs.open[hid]);
    StepTouches(s.kv, h, op, answer.reply, s'.kv, s'.handles[hid]);
    SyncEffect(s.kv, h);
    if fs.open[hid].Attached? { ReadersAreClean(s.kv, h, fs.open[hid].flat); }
  }

  lemma SyncWrites(kv: Kv, h: Handle, reply: Reply, kv': Kv, h': Handle)
    requires h.geometry.Valid() && HandleStep(kv, h, Sync, reply, kv', h')
    ensures reply == Done ==> (h.Clean() && kv' == kv) || kv' == Apply(kv, SyncBatch(h.fileId, h.pending, h.Record()))
  {
    hide Apply, SyncBatch;
  }

  // Beside an attached writer no other attached handle is on its file.
  lemma WriterAlone(s: Sys, fs: Fs, hid: nat, x: nat)
    requires Refines(s, fs) && hid in s.handles && x in s.handles && x != hid
    requires fs.open[hid].Attached? && fs.open[x].Attached? && s.handles[hid].flags.write
    ensures s.handles[x].fileId != s.handles[hid].fileId
  {
    hide NameOf, NextId, Consistent, HandleRefines, Represents;
    ConsistentParts(s.kv);
    AttachedParts(s, fs, hid);
    AttachedParts(s, fs, x);
  }

  lemma AttachedKeepsDense(s: Sys, fs: Fs, hid: nat, op: Op, answer: Answer, s': Sys)
    requires DenseSys(s, fs) && fs.Valid() && IoStep(s, hid, op, answer, s') && fs.open[hid].Attached?
    requires PlainFs.Allows(fs, Io(hid, op), answer) && MakesNoHole(fs, Io(hid, op))
    ensures answer.reply != Rejected(SliceOutOfRange)
    ensures var fs' := PlainFs.Next(fs, Io(hid, op), answer);
      DenseFiles(s'.kv, fs'.files) && DenseHandles(s'.kv, s'.handles, fs'.open)
  {
    hide NameOf, ImageOf, NextId, Consistent, HandleStep, Apply, SyncBatch, FilesStored, HandleRefines, Exclusive, OneWriter,
      Mapped, DenseImage, DenseFile, Represents, LeavesNoHole, FlatFile.Allows, FlatFile.Next;
    var h, h' := s.handles[hid], s'.handles[hid];
    var Attached(path, flags, flat) := fs.open[hid];
    AttachedParts(s, fs, hid);
    StepKeepsDense(s.kv, h, flat, op, answer.reply, s'.kv, h');
    IoImages(s, fs, hid, op, answer, s');
    ConsistentParts(s.kv);
    var fs' := PlainFs.Next(fs, Io(hid, op), answer);
    forall p | p in fs'.files ensures DensePath(s'.kv, fs'.files, p) {
      DenseAt(s.kv, fs.files, p);
      if p == path {
        if op == Sync { SyncWrites(s.kv, h, answer.reply, s'.kv, h'); }
        SyncedDense(s.kv, h, flat);
      }
    }
    forall x | x in s'.handles && x in fs'.open && fs'.open[x].Attached? ensures DenseFile(s'.kv, s'.handles[x], fs'.open[x].flat) {
      if x != hid {
        AttachedParts(s, fs, x);
        if s'.kv != s.kv { WriterAlone(s, fs, hid, x); }
        HandleDenseKept(s.kv, s'.kv, s.handles[x], fs.open[x].flat);
      }
    }
  }

  lemma DetachedKeepsDense(s: Sys, fs: Fs, hid: nat, op: Op, answer: Answer, s': Sys)
    requires DenseSys(s, fs) && IoStep(s, hid, op, answer, s') && fs.open[hid].Detached?
    ensures DenseFiles(s'.kv, fs.files) && DenseHandles(s'.kv, s'.handles, fs.open)
  {
    hide NameOf, ImageOf, NextId, Consistent, HandleStep, Apply, SyncBatch, FilesStored, HandleRefines, Exclusive, OneWriter,
      DenseImage, DenseFile, Represents;
    IoImages(s, fs, hid, op, answer, s');
    forall p | p in fs.files ensures DensePath(s'.kv, fs.files, p) {
      DenseAt(s.kv, fs.files, p);
      assert s'.kv != s.kv ==> NameOf(s.kv, p) != Some(s.handles[hid].fileId);
    }
    forall x | x in s'.handles && x in fs.open && fs.open[x].Attached? ensures DenseFile(s'.kv, s'.handles[x], fs.open[x].flat) {
      AttachedParts(s, fs, x);
      assert s'.kv != s.kv ==> s.handles[x].fileId != s.handles[hid].fileId;
      HandleDenseKept(s.kv, s'.kv, s.handles[x], fs.open[x].flat);
    }
  }

  // -------------------------------------------------------------------------
  // Runs

  lemma StepKeepsDenseSys(s: Sys, fs: Fs, request: Request, answer: Answer, s': Sys)
    requires DenseSys(s, fs) && SysStep(s, request, answer, s') && MakesNoHole(fs, request)
    ensures !OutOfRange(fs, request, answer)
    ensures fs.Valid() && PlainFs.Allows(fs, request, answer) && DenseSys(s', PlainFs.Next(fs, request, answer))
  {
    hide Refines, DenseFiles, DenseHandles, IoStep, OpenForWrite, OpenForRead, RemoveFile, MoveFile, LeavesNoHole,
      FlatFile.Allows, FlatFile.Next;
    StepRefines(s, fs, request, answer, s');
    match request
    case Open(hid, path, flags) =>
      if flags.Validate().Success? {
        if flags.write { OpenWriteKeepsDense(s, fs, hid, path, flags, answer, s'); }
        else { OpenReadKeepsDense(s, fs, hid, path, flags, answer, s'); }
      }
    case Remove(path) =>
      if RemoveFile(s.kv, path).Success? { RemoveKeepsDense(s, fs, path, RemoveFile(s.kv, path).value); }
    case Move(source, target) =>
      MoveToSelf(s.kv, source);
      MoveRefusals(s, fs, source, target);
      if source != target && MoveFile(s.kv, source, target).Success? {
        MoveKeepsDense(s, fs, source, target, MoveFile(s.kv, source, target).value);
      }
    case Io(hid, op) =>
      if fs.open[hid].Attached? { AttachedKeepsDense(s, fs, hid, op, answer, s'); }
      else { DetachedKeepsDense(s, fs, hid, op, answer, s'); }
    case Drop(hid) => FewerDense(s, fs, {hid});
    case Crash =>
      FewerDense(s, fs, s.handles.Keys);
      NoneOpen(s, fs);
  }

  lemma FewerDense(s: Sys, fs: Fs, gone: set<nat>)
    requires DenseSys(s, fs)
    ensures DenseHandles(s.kv, s.handles - gone, fs.open - gone)
  {
    hide Refines, DenseFile, DenseFiles;
  }

  lemma NoneOpen(s: Sys, fs: Fs)
    requires Refines(s, fs)
    ensures s.handles - s.handles.Keys == map[] && fs.open - s.handles.Keys == map[]
  {
    hide Consistent, FilesStored, HandleRefines, NextId, Exclusive;
  }

  ghost predicate NeverMakesHole(fs: Fs, log: seq<Entry>)
    requires fs.Valid()
  {
    forall n :: 0 <= n < |log| && Replay(fs, log[..n]).Some? ==> MakesNoHole(Replay(fs, log[..n]).value, log[n].request)
  }

  // Over every run of the file system whose attached handles make no hole, no
  // read of theirs is ever out of range: whatever was synced, closed, crashed,
  // reopened, moved, removed or emptied in between, and whatever failed.
  lemma {:induction false} HoleFreeRunsStayInRange(states: seq<Sys>, log: seq<Entry>, fs: Fs)
    requires IsSysRun(states, log) && DenseSys(states[0], fs) && fs.Valid() && NeverMakesHole(fs, log)
    ensures Replay(fs, log).Some? && DenseSys(states[|log|], Replay(fs, log).value)
    ensures forall n :: 0 <= n < |log| ==>
      Replay(fs, log[..n]).Some? && !OutOfRange(Replay(fs, log[..n]).value, log[n].request, log[n].answer)
    decreases |log|
  {
    hide DenseSys, SysStep, MakesNoHole, OutOfRange, PlainFs.Allows, PlainFs.Next;
    if log != [] {
      var n := |log| - 1;
      assert IsSysRun(states[..n + 1], log[..n]);
      forall m | 0 <= m < n ensures log[..n][..m] == log[..m] && log[..n][m] == log[m] {}
      assert NeverMakesHole(fs, log[..n]);
      HoleFreeRunsStayInRange(states[..n + 1], log[..n], fs);
      StepKeepsDenseSys(states[n], Replay(fs, log[..n]).value, log[n].request, log[n].answer, states[n + 1]);
    }
  }

  // In particular from an empty database, where there is no hole to begin with.
  lemma ReachableReadsInRange(states: seq<Sys>, log: seq<Entry>)
    requires IsSysRun(states, log) && states[0] == Sys(map[], map[]) && NeverMakesHole(Fs(map[], map[]), log)
    ensures forall n :: 0 <= n < |log| ==>
      var before := Replay(Fs(map[], map[]), log[..n]);
      before.Some? && !OutOfRange(before.value, log[n].request, log[n].answer)
  {
    hide SysStep, MakesNoHole, OutOfRange, Refines;
    InitRefines();
    assert DenseSys(states[0], Fs(map[], map[]));
    HoleFreeRunsStayInRange(states, log, Fs(map[], map[]));
  }
}
