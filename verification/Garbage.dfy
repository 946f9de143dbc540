// Records and chunks that belong to no named file: exactly when a step leaves
// some, and that nothing ever clears them away.
module Garbage {
  import opened Bytes
  import opened Catalog
  import opened CatalogEffects
  import opened Chunks
  import opened FileFlags
  import opened FileHandle
  import opened FileIds
  import opened FileRuns
  import opened FileSystem
  import opened FileSystemRuns
  import opened FlatFile
  import opened Geometry
  import opened Images
  import opened Keys
  import opened KvStore
  import opened Metadata
  import opened PlainFs

  // Every record and chunk stored belongs to a file with a name.
  ghost predicate NoOrphans(kv: Kv) {
    forall f: u64 :: ImageOf(kv, f) != NO_FILE ==> Mapped(kv, f)
  }

  // File `f` has a name, and what is stored of it is the file at that name:
  // every chunk fits the record's geometry and the file's end.
  ghost predicate OfNamedFile(kv: Kv, fs: Fs, f: u64) {
    exists p :: p in fs.files && NameOf(kv, p) == Some(f) && ImageShows(ImageOf(kv, f), fs.files[p])
  }

  lemma StoredChunksFit(s: Sys, fs: Fs, f: u64)
    requires Refines(s, fs) && NoOrphans(s.kv) && ImageOf(s.kv, f) != NO_FILE
    ensures OfNamedFile(s.kv, fs, f)
  {
    hide ImageShows, ImageOf, Consistent, HandlesRefine, NameOf;
    var p: Path :| NameOf(s.kv, p) == Some(f);
    assert p in fs.files;
  }

  // A step leaves garbage when it is a call of a detached handle that changed the
  // database, and only then.
  lemma GarbageStep(s: Sys, fs: Fs, request: Request, answer: Answer, s': Sys)
    requires Refines(s, fs) && NoOrphans(s.kv) && SysStep(s, request, answer, s')
    ensures NoOrphans(s'.kv) <==>
      !(request.Io? && request.handle in fs.open && fs.open[request.handle].Detached? && s'.kv != s.kv)
  {
    hide ImageOf, Consistent, NameOf, OpenForWrite, OpenForRead, RemoveFile, MoveFile, HandleRefines, FilesStored, Exclusive, HandleStep;
    match request
    case Open(hid, path, flags) =>
      if flags.write { OpenKeepsNoOrphans(s, hid, path, flags, answer, s'); }
      else { ReadsChangeNothing(s, hid, path, flags, answer, s'); }
    case Remove(path) =>
      if RemoveFile(s.kv, path).Success? { RemoveKeepsNoOrphans(s.kv, path, RemoveFile(s.kv, path).value); }
    case Move(source, target) =>
      MoveToSelf(s.kv, source);
      if MoveFile(s.kv, source, target).Success? && source != target {
        MoveKeepsNoOrphans(s.kv, source, target, MoveFile(s.kv, source, target).value);
      }
    case Io(hid, op) => SyncGarbageIff(s, fs, hid, op, answer, s');
    case _ =>
  }

  // A sync through the dirty handle of a removed or replaced file.
  predicate LateSync(s: Sys, fs: Fs, request: Request) {
    request.Io? && request.op == Sync && request.handle in s.handles && request.handle in fs.open
    && fs.open[request.handle].Detached?
    && !s.handles[request.handle].Clean() && s.handles[request.handle].client.ReadWrite?
  }

  // A request can leave garbage exactly when it is a late sync.
  lemma GarbageIff(s: Sys, fs: Fs, request: Request)
    requires Refines(s, fs) && NoOrphans(s.kv)
    ensures (exists answer, s' :: SysStep(s, request, answer, s') && !NoOrphans(s'.kv)) <==> LateSync(s, fs, request)
  {
    hide Refines, NoOrphans, SysStep;
    if answer, s' :| SysStep(s, request, answer, s') && !NoOrphans(s'.kv) {
      GarbageIsLate(s, fs, request, answer, s');
    }
    if LateSync(s, fs, request) {
      var s' := LateSyncDone(s, fs, request.handle);
    }
  }

  lemma GarbageIsLate(s: Sys, fs: Fs, request: Request, answer: Answer, s': Sys)
    requires Refines(s, fs) && NoOrphans(s.kv) && SysStep(s, request, answer, s')
    ensures NoOrphans(s'.kv) <==> !(LateSync(s, fs, request) && s'.kv != s.kv)
  {
    hide NoOrphans, Consistent, FilesStored, HandleRefines, Exclusive, OneWriter, NextId, OpenForWrite, OpenForRead, RemoveFile, MoveFile;
    GarbageStep(s, fs, request, answer, s');
    if request.Io? && s'.kv != s.kv {
      LateIfChanged(s.kv, s.handles[request.handle], request.op, answer.reply, s'.kv, s'.handles[request.handle]);
    }
  }

  lemma LateIfChanged(kv: Kv, h: Handle, op: Op, reply: Reply, kv': Kv, h': Handle)
    requires h.geometry.Valid() && HandleStep(kv, h, op, reply, kv', h') && kv' != kv
    ensures op == Sync && !h.Clean() && h.client.ReadWrite?
  {
    hide Staged, Split, TruncatePending, Overlay, StoredChunks, Apply, SyncBatch, ShownBytes, InGap;
  }

  // Such a sync can succeed, and then it does.
  lemma LateSyncDone(s: Sys, fs: Fs, hid: nat) returns (s': Sys)
    requires Refines(s, fs) && NoOrphans(s.kv) && LateSync(s, fs, Io(hid, Sync))
    ensures SysStep(s, Io(hid, Sync), Replied(Done, true), s') && !NoOrphans(s'.kv)
  {
    hide Consistent, NameOf, NextId, FilesStored, Exclusive, OneWriter, ImageOf, Apply, SyncBatch, WithinCapacity, Shown;
    var h := s.handles[hid];
    assert HandleRefines(s.kv, fs.files, h, fs.open[hid]);
    s' := Sys(Apply(s.kv, SyncBatch(h.fileId, h.pending, h.Record())), s.handles[hid := h.(pending := map[], dirty := false)]);
    SyncEffect(s.kv, h);
    SyncRecordValid(s.kv, h);
    assert ImageOf(s'.kv, h.fileId) != NO_FILE;
    assert !Mapped(s'.kv, h.fileId);
    assert ImageOf(s.kv, h.fileId) == NO_FILE;
  }

  lemma OpenKeepsNoOrphans(s: Sys, hid: nat, path: Path, flags: Flags, answer: Answer, s': Sys)
    requires Consistent(s.kv) && NoOrphans(s.kv) && flags.write && SysStep(s, Open(hid, path, flags), answer, s')
    ensures NoOrphans(s'.kv)
  {
    hide ImageOf, Consistent, NameOf, PrepareFileForOpen, OpenHandle, NoWriter, NextId;
    ConsistentParts(s.kv);
    var spec := PrepareFileForOpen(s.kv, path, flags.create, flags.truncateExisting);
    if spec.Success? {
      var (kv', id, m) := spec.value;
      PrepareCases(s.kv, path, flags, kv', id, m);
      assert NameOf(kv', path) == Some(id);
      forall f: u64 | ImageOf(kv', f) != NO_FILE ensures Mapped(kv', f) {
        if f != id {
          var p: Path :| NameOf(s.kv, p) == Some(f);
          assert p != path;
          assert NameOf(kv', p) == Some(f);
        }
      }
    }
  }

  lemma RemoveKeepsNoOrphans(kv: Kv, path: Path, kv': Kv)
    requires Consistent(kv) && NoOrphans(kv) && RemoveFile(kv, path) == Success(kv')
    ensures NoOrphans(kv')
  {
    hide ImageOf, Consistent, NameOf, RemoveFile, NextId;
    ConsistentParts(kv);
    RemoveEffect(kv, path, kv');
    forall f: u64 | ImageOf(kv', f) != NO_FILE ensures Mapped(kv', f) {
      var p: Path :| NameOf(kv, p) == Some(f);
      assert p != path;
      assert NameOf(kv', p) == Some(f);
    }
  }

  lemma MoveKeepsNoOrphans(kv: Kv, source: Path, target: Path, kv': Kv)
    requires Consistent(kv) && NoOrphans(kv) && source != target && MoveFile(kv, source, target) == Success(kv')
    ensures NoOrphans(kv')
  {
    hide ImageOf, Consistent, NameOf, MoveFile, NextId;
    ConsistentParts(kv);
    MoveEffect(kv, source, target, kv');
    forall f: u64 | ImageOf(kv', f) != NO_FILE ensures Mapped(kv', f) {
      assert ImageOf(kv, f) != NO_FILE;
      var p: Path :| NameOf(kv, p) == Some(f);
      var after := if p == source then target else p;
      assert NameOf(kv', after) == Some(f);
    }
  }

  lemma SyncGarbageIff(s: Sys, fs: Fs, hid: nat, op: Op, answer: Answer, s': Sys)
    requires Refines(s, fs) && NoOrphans(s.kv) && IoStep(s, hid, op, answer, s')
    ensures NoOrphans(s'.kv) <==> fs.open[hid].Attached? || s'.kv == s.kv
  {
    hide Consistent, NameOf, NextId, HandleStep, FilesStored, Exclusive, ImageOf, Apply, SyncBatch, Represents;
    var h := s.handles[hid];
    assert HandleRefines(s.kv, fs.files, h, fs.open[hid]);
    StepTouches(s.kv, h, op, answer.reply, s'.kv, s'.handles[hid]);
    if s'.kv != s.kv {
      SyncEffect(s.kv, h);
      SyncRecordValid(s.kv, h);
      assert ImageOf(s'.kv, h.fileId) != NO_FILE;
      forall f: u64 ensures Mapped(s'.kv, f) <==> Mapped(s.kv, f) {
        forall p: Path ensures NameOf(s'.kv, p) == NameOf(s.kv, p) {}
      }
      if fs.open[hid].Attached? { assert NameOf(s.kv, fs.open[hid].path) == Some(h.fileId); }
    }
  }

  // -------------------------------------------------------------------------
  // Over runs

  // Entry `n` is a late sync that reached the database.
  ghost predicate Litters(states: seq<Sys>, log: seq<Entry>, fs: Fs, n: nat)
    requires n < |log| && |states| == |log| + 1 && fs.Valid()
  {
    && Replay(fs, log[..n]).Some?
    && LateSync(states[n], Replay(fs, log[..n]).value, log[n].request)
    && states[n + 1].kv != states[n].kv
  }

  // Garbage is never cleared away.
  lemma GarbageStays(kv: Kv, kv': Kv)
    requires Consistent(kv) && Evolves(kv, kv') && !NoOrphans(kv)
    ensures !NoOrphans(kv')
  {
    hide ImageOf, Mapped, NextId, Consistent;
    ConsistentParts(kv);
    var f: u64 :| ImageOf(kv, f) != NO_FILE && !Mapped(kv, f);
  }

  lemma NoOrphansStep(s: Sys, fs: Fs, request: Request, answer: Answer, s': Sys)
    requires Refines(s, fs) && SysStep(s, request, answer, s')
    ensures NoOrphans(s'.kv) <==> NoOrphans(s.kv) && !(LateSync(s, fs, request) && s'.kv != s.kv)
    ensures NoOrphans(s.kv) || !NoOrphans(s'.kv)
  {
    hide SysStep, NoOrphans, Evolves, FilesStored, HandlesRefine, Exclusive, OneWriter, Consistent;
    if NoOrphans(s.kv) {
      GarbageIsLate(s, fs, request, answer, s');
    } else {
      StepEvolves(s, fs, request, answer, s');
      GarbageStays(s.kv, s'.kv);
    }
  }

  // At the end of any run there is garbage exactly when some late sync reached
  // the database, however long ago.
  lemma {:induction false} GarbageRunIff(states: seq<Sys>, log: seq<Entry>, fs: Fs)
    requires IsSysRun(states, log) && Refines(states[0], fs) && NoOrphans(states[0].kv)
    ensures fs.Valid()
    ensures NoOrphans(states[|log|].kv) <==> forall n :: 0 <= n < |log| ==> !Litters(states, log, fs, n)
    decreases |log|
  {
    hide Refines, SysStep, NoOrphans, LateSync;
    RefinesAt(states, log, fs, 0);
    if log != [] {
      var n := |log| - 1;
      var before, earlier := log[..n], states[..n + 1];
      assert IsSysRun(earlier, before);
      GarbageRunIff(earlier, before, fs);
      forall m | 0 <= m < n ensures Litters(earlier, before, fs, m) <==> Litters(states, log, fs, m) {
        assert before[..m] == log[..m] && before[m] == log[m];
      }
      RefinesAt(states, log, fs, n);
      NoOrphansStep(states[n], Replay(fs, before).value, log[n].request, log[n].answer, states[n + 1]);
      assert Litters(states, log, fs, n)
        <==> LateSync(states[n], Replay(fs, before).value, log[n].request) && states[n + 1].kv != states[n].kv;
      hide Litters;
      assert (forall m :: 0 <= m < n ==> !Litters(earlier, before, fs, m)) <==> (forall m :: 0 <= m < n ==> !Litters(states, log, fs, m));
    }
  }

  // So without late syncs every stored record and chunk belongs to a named
  // file, and fits the geometry and size of its record, at every reachable state.
  lemma NoGarbageRuns(states: seq<Sys>, log: seq<Entry>)
    requires IsSysRun(states, log) && states[0] == Sys(map[], map[])
    requires forall n :: 0 <= n < |log| && Replay(Fs(map[], map[]), log[..n]).Some? ==>
      !LateSync(states[n], Replay(Fs(map[], map[]), log[..n]).value, log[n].request)
    ensures NoOrphans(states[|log|].kv) && Replay(Fs(map[], map[]), log).Some?
    ensures forall f: u64 :: ImageOf(states[|log|].kv, f) != NO_FILE ==>
      OfNamedFile(states[|log|].kv, Replay(Fs(map[], map[]), log).value, f)
  {
    hide Refines, SysStep, ImageOf, LateSync, OfNamedFile, NoOrphans;
    var fs := Fs(map[], map[]);
    InitRefines();
    EmptyHasNoOrphans();
    GarbageRunIff(states, log, fs);
    ReachableRefines(states, log);
    forall f: u64 | ImageOf(states[|log|].kv, f) != NO_FILE
      ensures OfNamedFile(states[|log|].kv, Replay(fs, log).value, f)
    {
      StoredChunksFit(states[|log|], Replay(fs, log).value, f);
    }
  }

  lemma EmptyHasNoOrphans()
    ensures NoOrphans(map[])
  {
  }

  // -------------------------------------------------------------------------
  // A run that leaves garbage

  // Create a file, write a byte, remove the file, then sync the handle.
  const LATE_PATH: Path := Ascii("a")
  const LATE_FLAGS := Flags(true, true, true, false, false)

  lemma OpenedLate() returns (s: Sys, fs: Fs)
    ensures SysStep(Sys(map[], map[]), Open(0, LATE_PATH, LATE_FLAGS), Ok, s)
    ensures Refines(s, fs) && NoOrphans(s.kv) && s.handles.Keys == fs.open.Keys == {0}
    ensures fs.files.Keys == {LATE_PATH} && fs.open[0].Attached? && fs.open[0].path == LATE_PATH
    ensures s.handles[0].flags == LATE_FLAGS && s.handles[0].client == ReadWrite && s.handles[0].size == 0
  {
    hide Refines, NoOrphans, PathKey, MetadataKey, Apply;
    var before, start, request := Sys(map[], map[]), Fs(map[], map[]), Open(0, LATE_PATH, LATE_FLAGS);
    var prepared := PrepareFileForOpen(map[], LATE_PATH, true, false);
    assert prepared == Success((Apply(map[], CreateBatch(LATE_PATH, 1)), 1, NEW_METADATA));
    var h := OpenHandle(ReadWrite, 1, NEW_METADATA, LATE_FLAGS).value;
    s := Sys(prepared.value.0, map[0 := h]);
    assert before.handles[0 := h] == map[0 := h];
    assert SysStep(before, request, Ok, s);
    hide SysStep, PrepareFileForOpen;
    InitRefines();
    EmptyHasNoOrphans();
    StepRefines(before, start, request, Ok, s);
    NoOrphansStep(before, start, request, Ok, s);
    fs := PlainFs.Next(start, request, Ok);
  }

  lemma WrittenLate(s: Sys, fs: Fs) returns (s': Sys, fs': Fs)
    requires Refines(s, fs) && NoOrphans(s.kv) && s.handles.Keys == fs.open.Keys == {0}
    requires fs.files.Keys == {LATE_PATH} && fs.open[0].Attached? && fs.open[0].path == LATE_PATH
    requires s.handles[0].flags == LATE_FLAGS && s.handles[0].client == ReadWrite
    ensures SysStep(s, Io(0, PWrite([7], 0)), Replied(Done, false), s')
    ensures Refines(s', fs') && NoOrphans(s'.kv) && s'.handles.Keys == fs'.open.Keys == {0}
    ensures fs'.files.Keys == {LATE_PATH} && fs'.open[0].Attached? && fs'.open[0].path == LATE_PATH
    ensures s'.handles[0].dirty && s'.handles[0].client == ReadWrite
  {
    hide Refines, NoOrphans, Split, Staged, StoredChunks;
    HandlesSound(s, fs, 0);
    var h := s.handles[0];
    var pending := Staged(h.geometry, StoredChunks(s.kv, h.fileId), h.pending, [7], 0, |Split(h.geometry, 1, 0)|);
    s' := s.(handles := s.handles[0 := h.(pending := pending, size := Max(h.size, 1), dirty := true)]);
    var request := Io(0, PWrite([7], 0));
    assert SysStep(s, request, Replied(Done, false), s');
    hide SysStep;
    StepRefines(s, fs, request, Replied(Done, false), s');
    NoOrphansStep(s, fs, request, Replied(Done, false), s');
    fs' := PlainFs.Next(fs, request, Replied(Done, false));
    assert fs'.open[0].Attached?;
  }

  lemma RemovedLate(s: Sys, fs: Fs) returns (s': Sys, fs': Fs)
    requires Refines(s, fs) && NoOrphans(s.kv) && s.handles.Keys == fs.open.Keys == {0}
    requires fs.files.Keys == {LATE_PATH} && fs.open[0].Attached? && fs.open[0].path == LATE_PATH
    requires s.handles[0].dirty && s.handles[0].client == ReadWrite
    ensures SysStep(s, Remove(LATE_PATH), Ok, s')
    ensures Refines(s', fs') && NoOrphans(s'.kv) && LateSync(s', fs', Io(0, Sync))
  {
    hide Refines, NoOrphans, RemoveFile;
    RemoveRefusals(s, fs, LATE_PATH);
    s' := s.(kv := RemoveFile(s.kv, LATE_PATH).value);
    var request := Remove(LATE_PATH);
    assert SysStep(s, request, Ok, s');
    hide SysStep;
    StepRefines(s, fs, request, Ok, s');
    NoOrphansStep(s, fs, request, Ok, s');
    fs' := PlainFs.Next(fs, request, Ok);
  }

  lemma GarbageWitness() returns (states: seq<Sys>, log: seq<Entry>)
    ensures log == [Entry(Open(0, LATE_PATH, LATE_FLAGS), Ok), Entry(Io(0, PWrite([7], 0)), Replied(Done, false)),
                    Entry(Remove(LATE_PATH), Ok), Entry(Io(0, Sync), Replied(Done, true))]
    ensures IsSysRun(states, log) && states[0] == Sys(map[], map[])
    ensures NoOrphans(states[3].kv) && !NoOrphans(states[4].kv)
  {
    hide Refines, NoOrphans, SysStep;
    var created, fs1 := OpenedLate();
    var written, fs2 := WrittenLate(created, fs1);
    var removed, fs3 := RemovedLate(written, fs2);
    var synced := LateSyncDone(removed, fs3, 0);
    states := [Sys(map[], map[]), created, written, removed, synced];
    log := [Entry(Open(0, LATE_PATH, LATE_FLAGS), Ok), Entry(Io(0, PWrite([7], 0)), Replied(Done, false)),
            Entry(Remove(LATE_PATH), Ok), Entry(Io(0, Sync), Replied(Done, true))];
  }
}
