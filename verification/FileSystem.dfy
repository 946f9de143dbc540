// One database with its catalog and open handles, and the proof that it
// refines the plain file system.
module FileSystem {
  import opened Bytes
  import opened Catalog
  import opened CatalogEffects
  import opened Chunks
  import opened FileFlags
  import opened FileHandle
  import opened FileRuns
  import opened FlatFile
  import opened Geometry
  import opened Images
  import opened Keys
  import opened KvStore
  import opened Metadata
  import opened PlainFs

  datatype Sys = Sys(kv: Kv, handles: map<nat, Handle>)

  // -------------------------------------------------------------------------
  // Steps

  // The one discipline asked of callers: a file has one writable handle at a time.
  predicate NoWriter(handles: map<nat, Handle>, fileId: u64) {
    forall h :: h in handles && handles[h].fileId == fileId ==> !handles[h].flags.write
  }

  // Arguments are checked before the store is asked, and the store may fail.
  predicate RefusedOrLost(e: Error, answer: Answer) {
    answer == Refused(e) || (e != InvalidArgument && answer == Lost(false))
  }

  ghost predicate OpenForWrite(s: Sys, hid: nat, path: Path, flags: Flags, answer: Answer, s': Sys) {
    match PrepareFileForOpen(s.kv, path, flags.create, flags.truncateExisting)
    case Failure(e) => RefusedOrLost(e, answer) && s' == s
    case Success((kv', id, m)) =>
      && NoWriter(s.handles, id)
      && match answer
         case Ok =>
           var h := OpenHandle(ReadWrite, id, m, flags);
           h.Success? && s' == Sys(kv', s.handles[hid := h.value])
         case Refused(e) => OpenHandle(ReadWrite, id, m, flags) == Failure(e) && s' == Sys(kv', s.handles)
         case Lost(applied) => s' == Sys(if applied then kv' else s.kv, s.handles)
         case _ => false
  }

  ghost predicate OpenForRead(s: Sys, hid: nat, path: Path, flags: Flags, answer: Answer, s': Sys) {
    match OpenFile(s.kv, path)
    case Failure(e) => RefusedOrLost(e, answer) && s' == s
    case Success((id, m)) =>
      match answer
      case Ok => exists client :: (
        var h := OpenHandle(client, id, m, flags);
        h.Success? && s' == Sys(s.kv, s.handles[hid := h.value]))
      case Refused(e) => (exists client :: OpenHandle(client, id, m, flags) == Failure(e)) && s' == s
      case Lost(_) => s' == s
      case _ => false
  }

  predicate CommitStep(s: Sys, spec: Result<Kv>, answer: Answer, s': Sys) {
    match spec
    case Failure(e) => RefusedOrLost(e, answer) && s' == s
    case Success(kv') =>
      || (answer == Ok && s' == s.(kv := kv'))
      || (answer == Lost(true) && s' == s.(kv := kv'))
      || (answer == Lost(false) && s' == s)
  }

  ghost predicate IoStep(s: Sys, hid: nat, op: Op, answer: Answer, s': Sys) {
    && hid in s.handles && hid in s'.handles
    && s'.handles == s.handles[hid := s'.handles[hid]]
    && answer.Replied?
    && answer.applied == (s'.kv != s.kv)
    && s.handles[hid].geometry.Valid()
    && HandleStep(s.kv, s.handles[hid], op, answer.reply, s'.kv, s'.handles[hid])
  }

  ghost predicate SysStep(s: Sys, request: Request, answer: Answer, s': Sys) {
    match request
    case Open(hid, path, flags) =>
      && hid !in s.handles
      && (if flags.Validate().Failure? then answer == Refused(InvalidArgument) && s' == s
          else if flags.write then OpenForWrite(s, hid, path, flags, answer, s')
          else OpenForRead(s, hid, path, flags, answer, s'))
    case Remove(path) => CommitStep(s, RemoveFile(s.kv, path), answer, s')
    case Move(source, target) => CommitStep(s, MoveFile(s.kv, source, target), answer, s')
    case Io(hid, op) => IoStep(s, hid, op, answer, s')
    case Drop(hid) => answer == Ok && s' == s.(handles := s.handles - {hid})
    case Crash => answer == Ok && s' == s.(handles := map[])
  }

  // -------------------------------------------------------------------------
  // The refinement

  ghost predicate Mapped(kv: Kv, id: u64) {
    exists p: Path :: NameOf(kv, p) == Some(id)
  }

  ghost predicate FilesStored(kv: Kv, files: map<Path, Flat>) {
    && (forall p: Path :: p in files <==> NameOf(kv, p).Some?)
    && (forall p :: p in files ==> files[p] == Rest(files[p]) && ImageShows(ImageOf(kv, NameOf(kv, p).value), files[p]))
  }

  ghost predicate HandleRefines(kv: Kv, files: map<Path, Flat>, h: Handle, file: OpenEntry) {
    match file
    case Attached(path, flags, flat) =>
      && path in files && NameOf(kv, path) == Some(h.fileId) && h.flags == flags
      && Represents(kv, h, flat)
      && (h.Clean() ==> files[path] == Rest(flat))
    case Detached =>
      && h.geometry.Valid()
      && (h.flags.write ==> !Mapped(kv, h.fileId) && WithinCapacity(h.geometry, Shown(kv, h)))
      && (!h.flags.write ==> h.Clean())
  }

  // A path with a writer has no other attached handle.
  ghost predicate Exclusive(open: map<nat, OpenEntry>) {
    forall x, y :: x in open && y in open && x != y && open[x].Attached? && open[y].Attached? && open[x].path == open[y].path
      ==> !open[x].flags.write
  }

  // Attached or not, no two handles may write one file.
  predicate OneWriter(handles: map<nat, Handle>) {
    forall x, y :: x in handles && y in handles && x != y && handles[x].fileId == handles[y].fileId ==>
      !(handles[x].flags.write && handles[y].flags.write)
  }

  ghost predicate HandlesRefine(s: Sys, fs: Fs) {
    && s.handles.Keys == fs.open.Keys
    && (forall h :: h in s.handles ==>
          s.handles[h].fileId < NextId(s.kv) && HandleRefines(s.kv, fs.files, s.handles[h], fs.open[h]))
  }

  ghost predicate Refines(s: Sys, fs: Fs) {
    && Consistent(s.kv)
    && FilesStored(s.kv, fs.files)
    && HandlesRefine(s, fs)
    && Exclusive(fs.open)
    && OneWriter(s.handles)
  }

  lemma InitRefines()
    ensures Refines(Sys(map[], map[]), Fs(map[], map[]))
  {
    EmptyConsistent();
  }

  lemma RefinesValid(s: Sys, fs: Fs)
    requires Refines(s, fs)
    ensures fs.Valid()
  {
    hide Consistent, NameOf, Shows, Fits, Shown, ImageOf, NextId;
    forall h | h in fs.open && fs.open[h].Attached? ensures fs.open[h].flat.Valid() && fs.open[h].path in fs.files {
      assert HandleRefines(s.kv, fs.files, s.handles[h], fs.open[h]);
    }
  }

  // Every open handle is one its operations accept.
  lemma HandlesSound(s: Sys, fs: Fs, hid: nat)
    requires Refines(s, fs) && hid in s.handles
    ensures Sound(s.kv, s.handles[hid])
  {
    hide Consistent, NameOf, Shows, Fits, Shown, WithinCapacity, Mapped, NextId, FilesStored;
    ConsistentKeysWellFormed(s.kv);
    var h := s.handles[hid];
    assert HandleRefines(s.kv, fs.files, h, fs.open[hid]);
    if fs.open[hid].Attached? { FitsWithinCapacity(h.geometry, Shown(s.kv, h), |fs.open[hid].flat.tape|); }
  }

  // An open handle keeps refining its file while the file's image and name stay.
  lemma HandleKept(kv: Kv, kv': Kv, files: map<Path, Flat>, files': map<Path, Flat>, h: Handle, file: OpenEntry)
    requires HandleRefines(kv, files, h, file)
    requires file.Attached? ==>
      && ImageOf(kv', h.fileId) == ImageOf(kv, h.fileId)
      && NameOf(kv', file.path) == NameOf(kv, file.path)
      && file.path in files' && files'[file.path] == files[file.path]
    requires file.Detached? && h.flags.write ==>
      && ImageOf(kv', h.fileId) == ImageOf(kv, h.fileId)
      && (Mapped(kv', h.fileId) ==> Mapped(kv, h.fileId))
    ensures HandleRefines(kv', files', h, file)
  {
    hide NameOf, Represents, ImageOf, Mapped, WithinCapacity, Shown;
    if file.Attached? { RepresentsFrame(kv, kv', h, file.flat); }
    else if h.flags.write { ShownFrame(kv, kv', h); }
  }

  lemma ShownFrame(kv: Kv, kv': Kv, h: Handle)
    requires ImageOf(kv', h.fileId) == ImageOf(kv, h.fileId)
    ensures Shown(kv', h) == Shown(kv, h)
  {
    hide StoredChunks, Overlay;
  }

  // -------------------------------------------------------------------------
  // Remove

  lemma RemoveRefines(s: Sys, fs: Fs, path: Path, kv': Kv)
    requires Refines(s, fs) && RemoveFile(s.kv, path) == Success(kv')
    ensures path in fs.files && Refines(s.(kv := kv'), Fs(fs.files - {path}, Detach(fs.open, path)))
  {
    hide Consistent, NameOf, RemoveFile, HandleRefines, NextId, Exclusive, FilesStored;
    RemoveConsistent(s.kv, path, kv');
    RemoveKeepsFiles(s.kv, fs.files, path, kv');
    DetachExclusive(fs.open, path);
    forall h | h in s.handles ensures HandleRefines(kv', fs.files - {path}, s.handles[h], Detach(fs.open, path)[h]) {
      RemoveKeepsHandle(s.kv, kv', fs.files, path, s.handles[h], fs.open[h]);
    }
  }

  lemma DetachExclusive(open: map<nat, OpenEntry>, path: Path)
    requires Exclusive(open)
    ensures Exclusive(Detach(open, path))
  {
  }

  lemma RemoveKeepsFiles(kv: Kv, files: map<Path, Flat>, path: Path, kv': Kv)
    requires Consistent(kv) && FilesStored(kv, files) && RemoveFile(kv, path) == Success(kv')
    ensures path in files && FilesStored(kv', files - {path})
  {
    hide Consistent, NameOf, RemoveFile, ImageShows, ImageOf, NextId;
    ConsistentParts(kv);
    RemoveEffect(kv, path, kv');
  }

  lemma RemoveKeepsHandle(kv: Kv, kv': Kv, files: map<Path, Flat>, path: Path, h: Handle, file: OpenEntry)
    requires Consistent(kv) && RemoveFile(kv, path) == Success(kv') && HandleRefines(kv, files, h, file)
    ensures HandleRefines(kv', files - {path}, h, if file.Attached? && file.path == path then Detached else file)
  {
    hide Consistent, NameOf, RemoveFile, Represents, ImageOf, NextId;
    ConsistentParts(kv);
    RemoveEffect(kv, path, kv');
    if file.Attached? && file.path == path {
      DetachedByRemoval(kv, kv', files, files - {path}, h, file);
    } else {
      assert Mapped(kv', h.fileId) ==> Mapped(kv, h.fileId);
      HandleKept(kv, kv', files, files - {path}, h, file);
    }
  }

  lemma ConsistentParts(kv: Kv)
    requires Consistent(kv)
    ensures WellFormedKeys(kv.Keys)
    ensures forall p: Path, q: Path :: NameOf(kv, p).Some? && NameOf(kv, p) == NameOf(kv, q) ==> p == q
    ensures forall p: Path :: NameOf(kv, p).Some? ==> 1 <= NameOf(kv, p).value < NextId(kv)
    ensures forall f: u64 :: f >= NextId(kv) ==> ImageOf(kv, f) == NO_FILE
  {
    ConsistentKeysWellFormed(kv);
  }

  // A handle whose file lost its last name can still only touch that file.
  lemma DetachedByRemoval(kv: Kv, kv': Kv, files: map<Path, Flat>, files': map<Path, Flat>, h: Handle, file: OpenEntry)
    requires HandleRefines(kv, files, h, file) && file.Attached?
    requires !Mapped(kv', h.fileId) && ImageOf(kv', h.fileId) == NO_FILE
    ensures HandleRefines(kv', files', h, Detached)
  {
    hide NameOf, Shows, Fits, Mapped, Overlay, StoredChunks, WithinCapacity;
    FitsWithinCapacity(h.geometry, Shown(kv, h), |file.flat.tape|);
    StagedAloneWithinCapacity(h.geometry, StoredChunks(kv, h.fileId), h.pending);
  }

  // -------------------------------------------------------------------------
  // Move

  lemma MoveRefines(s: Sys, fs: Fs, source: Path, target: Path, kv': Kv)
    requires Refines(s, fs) && source != target && MoveFile(s.kv, source, target) == Success(kv')
    ensures source in fs.files
    ensures Refines(s.(kv := kv'),
      Fs((fs.files - {source})[target := fs.files[source]], Rename(Detach(fs.open, target), source, target)))
  {
    hide Consistent, NameOf, MoveFile, ImageShows, HandleRefines, ImageOf, NextId, Exclusive, FilesStored;
    MoveConsistent(s.kv, source, target, kv');
    MoveKeepsFiles(s.kv, fs.files, source, target, kv');
    RenameExclusive(fs.open, source, target);
    var files' := (fs.files - {source})[target := fs.files[source]];
    var open' := Rename(Detach(fs.open, target), source, target);
    forall h | h in s.handles ensures HandleRefines(kv', files', s.handles[h], open'[h]) {
      MoveKeepsHandle(s.kv, kv', fs.files, files', source, target, s.handles[h], fs.open[h]);
    }
  }

  lemma RenameExclusive(open: map<nat, OpenEntry>, source: Path, target: Path)
    requires Exclusive(open) && source != target
    ensures Exclusive(Rename(Detach(open, target), source, target))
  {
  }

  lemma MoveKeepsFiles(kv: Kv, files: map<Path, Flat>, source: Path, target: Path, kv': Kv)
    requires Consistent(kv) && FilesStored(kv, files) && source != target && MoveFile(kv, source, target) == Success(kv')
    ensures source in files && FilesStored(kv', (files - {source})[target := files[source]])
  {
    hide Consistent, NameOf, MoveFile, ImageShows, ImageOf, NextId;
    ConsistentParts(kv);
    MoveEffect(kv, source, target, kv');
    var files' := (files - {source})[target := files[source]];
    forall p | p in files'
      ensures NameOf(kv', p).Some? && ImageShows(ImageOf(kv', NameOf(kv', p).value), files'[p])
    {
      var before := if p == target then source else p;
      assert NameOf(kv', p) == NameOf(kv, before) && before in files;
    }
  }

  lemma MoveKeepsHandle(
    kv: Kv, kv': Kv, files: map<Path, Flat>, files': map<Path, Flat>, source: Path, target: Path, h: Handle, file: OpenEntry)
    requires Consistent(kv) && source != target && MoveFile(kv, source, target) == Success(kv') && source in files
    requires files' == (files - {source})[target := files[source]]
    requires HandleRefines(kv, files, h, file)
    ensures HandleRefines(kv', files', h,
      if file.Detached? || file.path == target then Detached
      else if file.path == source then file.(path := target) else file)
  {
    hide Consistent, NameOf, MoveFile, Represents, ImageOf, NextId;
    ConsistentParts(kv);
    MoveEffect(kv, source, target, kv');
    if file.Detached? {
      HandleKept(kv, kv', files, files', h, file);
    } else if file.path == target {
      DetachedByRemoval(kv, kv', files, files', h, file);
    } else {
      assert ImageOf(kv', h.fileId) == ImageOf(kv, h.fileId);
      RepresentsFrame(kv, kv', h, file.flat);
    }
  }

  // -------------------------------------------------------------------------
  // Open for writing

  // The image of a new or emptied file is the empty file.
  lemma EmptyShows()
    ensures ImageShows(EMPTY_FILE, EMPTY) && HasRecord(EMPTY_FILE, NEW_METADATA)
  {
    DecodeEncodes(NEW_METADATA);
    hide Locate, Encode, Decode;
  }

  // Whatever a writable open prepares, the handles on the path step back and
  // the path holds the prepared file.
  lemma PreparedRefines(s: Sys, fs: Fs, path: Path, flags: Flags, kv': Kv, id: u64, m: FileMetadata)
    requires Refines(s, fs) && flags.write && NoWriter(s.handles, id)
    requires PrepareFileForOpen(s.kv, path, flags.create, flags.truncateExisting) == Success((kv', id, m))
    ensures path in fs.files || flags.create
    ensures Refines(s.(kv := kv'), Fs(fs.files[path := Prepared(fs, path, flags)], Detach(fs.open, path)))
    ensures NameOf(kv', path) == Some(id) && HasRecord(ImageOf(kv', id), m)
    ensures forall h :: h in s.handles ==> s.handles[h].fileId != id || !s.handles[h].flags.write
  {
    hide Consistent, NameOf, PrepareFileForOpen, ImageShows, HandleRefines, ImageOf, NextId, Exclusive, FilesStored;
    PrepareCases(s.kv, path, flags, kv', id, m);
    PrepareKeepsFiles(s.kv, fs.files, path, flags, kv', id, m);
    DetachExclusive(fs.open, path);
    var files' := fs.files[path := Prepared(fs, path, flags)];
    forall h | h in s.handles ensures HandleRefines(kv', files', s.handles[h], Detach(fs.open, path)[h]) {
      PrepareKeepsHandle(s.kv, kv', fs.files, files'[path], path, flags, id, m, s.handles[h], fs.open[h]);
    }
  }

  lemma PrepareKeepsFiles(kv: Kv, files: map<Path, Flat>, path: Path, flags: Flags, kv': Kv, id: u64, m: FileMetadata)
    requires Consistent(kv) && FilesStored(kv, files)
    requires PrepareFileForOpen(kv, path, flags.create, flags.truncateExisting) == Success((kv', id, m))
    ensures path in files || flags.create
    ensures FilesStored(kv', files[path := if path in files && !flags.truncateExisting then files[path] else EMPTY])
  {
    hide Consistent, NameOf, PrepareFileForOpen, ImageShows, ImageOf, NextId;
    ConsistentParts(kv);
    PrepareCases(kv, path, flags, kv', id, m);
    EmptyShows();
  }

  lemma PrepareKeepsHandle(
    kv: Kv, kv': Kv, files: map<Path, Flat>, d: Flat, path: Path, flags: Flags, id: u64, m: FileMetadata, h: Handle, file: OpenEntry)
    requires Consistent(kv) && h.fileId < NextId(kv) && HandleRefines(kv, files, h, file)
    requires PrepareFileForOpen(kv, path, flags.create, flags.truncateExisting) == Success((kv', id, m))
    requires h.fileId == id ==> !h.flags.write
    ensures HandleRefines(kv', files[path := d], h, if file.Attached? && file.path == path then Detached else file)
  {
    hide Consistent, NameOf, PrepareFileForOpen, Represents, ImageOf, NextId;
    ConsistentParts(kv);
    PrepareCases(kv, path, flags, kv', id, m);
    if file.Attached? && file.path == path {
      StepsBack(kv, kv', files, files[path := d], h, file);
    } else {
      assert Mapped(kv', h.fileId) && h.flags.write ==> Mapped(kv, h.fileId);
      HandleKept(kv, kv', files, files[path := d], h, file);
    }
  }

  // A reader steps back when a writer comes.
  lemma StepsBack(kv: Kv, kv': Kv, files: map<Path, Flat>, files': map<Path, Flat>, h: Handle, file: OpenEntry)
    requires HandleRefines(kv, files, h, file) && file.Attached? && !h.flags.write
    ensures HandleRefines(kv', files', h, Detached)
  {
    hide NameOf, Shows, Fits, Shown, Mapped;
  }

  // The three things opening for writing may do, and what they have in common.
  lemma PrepareCases(kv: Kv, path: Path, flags: Flags, kv': Kv, id: u64, m: FileMetadata)
    requires Consistent(kv)
    requires PrepareFileForOpen(kv, path, flags.create, flags.truncateExisting) == Success((kv', id, m))
    ensures Consistent(kv') && NextId(kv) <= NextId(kv') && id < NextId(kv') && WellFormedKeys(kv.Keys)
    ensures NameOf(kv, path).None? ==> flags.create && id == NextId(kv)
    ensures forall p: Path :: NameOf(kv', p) == if p == path then Some(id) else NameOf(kv, p)
    ensures SameOtherImages(kv, kv', id)
    ensures HasRecord(ImageOf(kv', id), m)
    ensures ImageOf(kv', id) == if NameOf(kv, path).Some? && !flags.truncateExisting then ImageOf(kv, id) else EMPTY_FILE
    ensures NameOf(kv, path).Some? ==> NameOf(kv, path) == Some(id)
  {
    hide ImageOf, NextId, Encode, Decode;
    ConsistentKeysWellFormed(kv);
    EmptyShows();
    match NameOf(kv, path) {
      case None =>
        NotMappedNotFound(kv, path, flags.create, flags.truncateExisting);
        CreateEffect(kv, path, flags.truncateExisting, kv', id, m);
        CreateConsistent(kv, path, flags.truncateExisting, kv', id, m);
      case Some(_) =>
        if flags.truncateExisting {
          TruncateEffect(kv, path, flags.create, kv', id, m);
          TruncateConsistent(kv, path, flags.create, kv', id, m);
        } else {
          MappedFound(kv, path);
        }
    }
  }

  lemma NotMappedNotFound(kv: Kv, path: Path, create: bool, truncateExisting: bool)
    requires Consistent(kv) && NameOf(kv, path).None?
    requires PrepareFileForOpen(kv, path, create, truncateExisting).Success?
    ensures create
  {
  }

  // On a consistent catalog a mapped path always opens.
  lemma MappedFound(kv: Kv, path: Path)
    requires Consistent(kv) && NameOf(kv, path).Some?
    ensures var id := NameOf(kv, path).value;
      && RecordValid(ImageOf(kv, id))
      && FindFile(kv, path) == Success(Some((id, Decode(ImageOf(kv, id).record.value).value)))
      && id < NextId(kv)
  {
    hide Decode, DecodeFileId, NextId;
    assert RecordValid(ImageOf(kv, NameOf(kv, path).value));
  }

  lemma OpenWriteRefines(s: Sys, fs: Fs, hid: nat, path: Path, flags: Flags, answer: Answer, s': Sys)
    requires Refines(s, fs) && fs.Valid() && hid !in s.handles && flags.write && flags.Validate().Success?
    requires OpenForWrite(s, hid, path, flags, answer, s')
    ensures PlainFs.Allows(fs, Open(hid, path, flags), answer)
    ensures Refines(s', PlainFs.Next(fs, Open(hid, path, flags), answer))
  {
    hide Consistent, NameOf, PrepareFileForOpen, ImageShows, Represents, ImageOf, NextId, NoWriter;
    match PrepareFileForOpen(s.kv, path, flags.create, flags.truncateExisting) {
      case Failure(e) => PrepareRefusals(s, fs, path, flags, e);
      case Success((kv', id, m)) =>
        PreparedRefines(s, fs, path, flags, kv', id, m);
        PreparedNonEmpty(s.kv, path, flags);
        var files' := fs.files[path := Prepared(fs, path, flags)];
        assert ImageShows(ImageOf(kv', id), files'[path]);
        ReopenExact(kv', ReadWrite, id, flags, files'[path]);
        if answer == Ok {
          OpenedAs(ReadWrite, id, m, flags);
          OpenedHandle(s.(kv := kv'), Fs(files', Detach(fs.open, path)), hid, path, flags,
            OpenHandle(ReadWrite, id, m, flags).value);
        }
    }
  }

  lemma PreparedNonEmpty(kv: Kv, path: Path, flags: Flags)
    requires PrepareFileForOpen(kv, path, flags.create, flags.truncateExisting).Success?
    ensures path != []
  {
  }

  // On a consistent database the only decoding error left is an exhausted id space.
  lemma PrepareRefusals(s: Sys, fs: Fs, path: Path, flags: Flags, e: Error)
    requires Refines(s, fs)
    requires PrepareFileForOpen(s.kv, path, flags.create, flags.truncateExisting) == Failure(e)
    ensures if path == [] then e == InvalidArgument
      else path !in fs.files && e == if flags.create then MetadataDecode else FileNotFound
  {
    hide Decode, DecodeFileId, NextId, ImageShows, ImageOf;
    if NameOf(s.kv, path).Some? { MappedFound(s.kv, path); }
  }

  // A freshly opened handle is the file at its path.
  lemma OpenedHandle(s: Sys, fs: Fs, hid: nat, path: Path, flags: Flags, h: Handle)
    requires Refines(s, fs) && hid !in s.handles && path in fs.files && NameOf(s.kv, path) == Some(h.fileId)
    requires forall x :: x in fs.open && fs.open[x].Attached? && fs.open[x].path == path ==>
      !flags.write && !fs.open[x].flags.write
    requires h.flags == flags && h.Clean() && Represents(s.kv, h, Cursor(fs.files[path], flags))
    requires flags.write ==> NoWriter(s.handles, h.fileId)
    ensures Refines(s.(handles := s.handles[hid := h]),
      fs.(open := fs.open[hid := Attached(path, flags, Cursor(fs.files[path], flags))]))
  {
    hide Consistent, NameOf, HandleRefines, NextId, Represents, Exclusive, FilesStored;
    ConsistentParts(s.kv);
    AttachExclusive(fs.open, hid, path, flags, Cursor(fs.files[path], flags));
    StoredAt(s.kv, fs.files, path);
    HandleAttaches(s.kv, fs.files, h, path, flags);
    HandleAdded(s, fs, hid, h, Attached(path, flags, Cursor(fs.files[path], flags)));
  }

  lemma HandleAdded(s: Sys, fs: Fs, hid: nat, h: Handle, file: OpenEntry)
    requires Refines(s, fs) && hid !in s.handles && h.fileId < NextId(s.kv)
    requires HandleRefines(s.kv, fs.files, h, file) && Exclusive(fs.open[hid := file])
    requires h.flags.write ==> NoWriter(s.handles, h.fileId)
    ensures Refines(s.(handles := s.handles[hid := h]), fs.(open := fs.open[hid := file]))
  {
    hide Consistent, HandleRefines, NextId, Exclusive, FilesStored;
  }

  lemma StoredAt(kv: Kv, files: map<Path, Flat>, path: Path)
    requires FilesStored(kv, files) && path in files
    ensures NameOf(kv, path).Some? && ImageShows(ImageOf(kv, NameOf(kv, path).value), files[path])
    ensures files[path] == Rest(files[path])
  {
  }

  lemma OpenedAs(client: Client, id: u64, m: FileMetadata, flags: Flags)
    requires OpenHandle(client, id, m, flags).Success?
    ensures var h := OpenHandle(client, id, m, flags).value;
      h.fileId == id && h.flags == flags && h.Clean()
    ensures flags.Validate().Success? && (client.ReadOnly? ==> flags.read && !flags.write)
  {
  }

  lemma AttachExclusive(open: map<nat, OpenEntry>, hid: nat, path: Path, flags: Flags, flat: Flat)
    requires Exclusive(open) && hid !in open
    requires forall h :: h in open && open[h].Attached? && open[h].path == path ==> !flags.write && !open[h].flags.write
    ensures Exclusive(open[hid := Attached(path, flags, flat)])
  {
  }

  lemma HandleAttaches(kv: Kv, files: map<Path, Flat>, h: Handle, path: Path, flags: Flags)
    requires path in files && NameOf(kv, path) == Some(h.fileId) && h.flags == flags && h.Clean()
    requires files[path] == Rest(files[path]) && Represents(kv, h, Cursor(files[path], flags))
    ensures HandleRefines(kv, files, h, Attached(path, flags, Cursor(files[path], flags)))
  {
    hide NameOf, Represents;
  }

  // -------------------------------------------------------------------------
  // Open for reading

  lemma OpenReadRefines(s: Sys, fs: Fs, hid: nat, path: Path, flags: Flags, answer: Answer, s': Sys)
    requires Refines(s, fs) && fs.Valid() && hid !in s.handles && !flags.write && flags.Validate().Success?
    requires OpenForRead(s, hid, path, flags, answer, s')
    ensures PlainFs.Allows(fs, Open(hid, path, flags), answer)
    ensures Refines(s', PlainFs.Next(fs, Open(hid, path, flags), answer))
  {
    hide Consistent, NameOf, ImageShows, Represents, ImageOf, NextId, FindFile;
    OpenFileCases(s, fs, path);
    if path != [] && path in fs.files {
      var id := NameOf(s.kv, path).value;
      var m := Decode(ImageOf(s.kv, id).record.value).value;
      assert ImageShows(ImageOf(s.kv, id), fs.files[path]);
      ReopenExact(s.kv, ReadWrite, id, flags, fs.files[path]);
      ReopenExact(s.kv, ReadOnly, id, flags, fs.files[path]);
      forall client: Client ensures OpenHandle(client, id, m, flags).Success? {
        match client case ReadWrite => case ReadOnly =>
      }
      if answer == Ok {
        var client :| OpenHandle(client, id, m, flags).Success?
          && s' == Sys(s.kv, s.handles[hid := OpenHandle(client, id, m, flags).value]);
        if HasWriter(fs.open, path) {
          OpenedBesideWriter(s, fs, hid, client, id, m, flags);
        } else {
          OpenedAs(client, id, m, flags);
          ReopenExact(s.kv, client, id, flags, fs.files[path]);
          OpenedHandle(s, fs, hid, path, flags, OpenHandle(client, id, m, flags).value);
        }
      }
    }
  }

  lemma OpenFileCases(s: Sys, fs: Fs, path: Path)
    requires Refines(s, fs)
    ensures Catalog.OpenFile(s.kv, path) ==
      if path == [] then Failure(InvalidArgument)
      else if path !in fs.files then Failure(FileNotFound)
      else Success((NameOf(s.kv, path).value, Decode(ImageOf(s.kv, NameOf(s.kv, path).value).record.value).value))
    ensures path in fs.files ==>
      RecordValid(ImageOf(s.kv, NameOf(s.kv, path).value)) && NameOf(s.kv, path).value < NextId(s.kv)
  {
    hide Decode, DecodeFileId, NextId, ImageShows, ImageOf;
    if NameOf(s.kv, path).Some? { MappedFound(s.kv, path); }
  }

  // A reader opened beside a writer makes no promise, and cannot do harm.
  lemma OpenedBesideWriter(s: Sys, fs: Fs, hid: nat, client: Client, id: u64, m: FileMetadata, flags: Flags)
    requires Refines(s, fs) && hid !in s.handles && !flags.write && id < NextId(s.kv)
    requires OpenHandle(client, id, m, flags).Success?
    ensures Refines(s.(handles := s.handles[hid := OpenHandle(client, id, m, flags).value]),
      fs.(open := fs.open[hid := Detached]))
  {
    hide Consistent, NameOf, ImageShows, Represents, ImageOf, NextId;
  }

  // -------------------------------------------------------------------------
  // Handle operations

  // A sync writes under its own file id only.
  lemma SyncEffect(kv: Kv, h: Handle)
    requires Consistent(kv) && h.geometry.Valid() && h.fileId < NextId(kv)
    ensures var kv' := Apply(kv, SyncBatch(h.fileId, h.pending, h.Record()));
      && Consistent(kv')
      && NextId(kv') == NextId(kv)
      && SameNames(kv, kv')
      && SameOtherImages(kv, kv', h.fileId)
  {
    hide ChunkKey, MetadataKey, PathKey, Apply, PendingBatch, ImageOf, KeyOfFile, KnownKey, RecordValid, Decode, Encode, SyncBatch, Consistent, NextId;
    var batch := SyncBatch(h.fileId, h.pending, h.Record());
    var kv' := Apply(kv, batch);
    SyncTouches(h);
    OtherImagesKept(kv, batch, h.fileId);
    forall p: Path ensures Lookup(kv', PathKey(p)) == Lookup(kv, PathKey(p)) {
      CatalogKeysOfNoFile(h.fileId, p);
      SyncFrame(kv, h.fileId, h.pending, h.Record(), PathKey(p));
    }
    CatalogKeysOfNoFile(h.fileId, []);
    SyncFrame(kv, h.fileId, h.pending, h.Record(), NEXT_FILE_ID_KEY);
    NextIdFrame(kv, kv');
    SyncRecordValid(kv, h);
    SyncKnownKeys(kv, h);
    ConsistentImageChange(kv, kv', h.fileId);
  }

  lemma SyncTouches(h: Handle)
    ensures TouchesOnly(SyncBatch(h.fileId, h.pending, h.Record()), h.fileId)
  {
    hide ChunkKey, MetadataKey, PendingBatch;
    PendingBatchIs(h.fileId, h.pending);
  }

  lemma SyncRecordValid(kv: Kv, h: Handle)
    requires h.geometry.Valid()
    ensures RecordValid(ImageOf(Apply(kv, SyncBatch(h.fileId, h.pending, h.Record())), h.fileId))
  {
    hide Apply, SyncBatch, Encode, Decode, Overlay, StoredChunks;
    SyncStoresOverlay(kv, h.fileId, h.pending, h.Record());
    DecodeEncodes(FileMetadata(h.size, h.geometry));
  }

  lemma SyncKnownKeys(kv: Kv, h: Handle)
    requires Consistent(kv)
    ensures forall k :: k in Apply(kv, SyncBatch(h.fileId, h.pending, h.Record())) ==> KnownKey(k)
  {
    hide ChunkKey, MetadataKey, PathKey, Apply, KeyOfFile, Decode, Encode, SyncBatch, ImageOf;
    var kv' := Apply(kv, SyncBatch(h.fileId, h.pending, h.Record()));
    forall k | k in kv' ensures KnownKey(k) {
      if !KeyOfFile(h.fileId, k) {
        SyncFrame(kv, h.fileId, h.pending, h.Record(), k);
        assert Lookup(kv', k).Some?;
      }
    }
  }

  // What any handle operation does to the database: nothing, or a sync.
  lemma StepTouches(kv: Kv, h: Handle, op: Op, reply: Reply, kv': Kv, h': Handle)
    requires h.geometry.Valid() && HandleStep(kv, h, op, reply, kv', h')
    ensures kv' == kv || (kv' == Apply(kv, SyncBatch(h.fileId, h.pending, h.Record())) && op == Sync && !h.Clean())
    ensures h'.fileId == h.fileId && h'.geometry == h.geometry && h'.flags == h.flags
    ensures h.Clean() && !h.flags.write ==> h'.Clean()
  {
    hide Staged, Split, TruncatePending, Overlay, StoredChunks, Apply, SyncBatch, ShownBytes;
  }

  // One operation of one handle.
  lemma IoRefines(s: Sys, fs: Fs, hid: nat, op: Op, answer: Answer, s': Sys)
    requires Refines(s, fs) && fs.Valid() && IoStep(s, hid, op, answer, s')
    ensures PlainFs.Allows(fs, Io(hid, op), answer)
    ensures Refines(s', PlainFs.Next(fs, Io(hid, op), answer))
  {
    hide Consistent, FilesStored, HandleRefines, Exclusive, HandleStep, NextId, FlatFile.Next, FlatFile.Allows;
    if fs.open[hid].Attached? {
      AttachedIo(s, fs, hid, op, answer, s');
    } else {
      DetachedIo(s, fs, hid, op, answer, s');
    }
  }

  // An attached handle moves as its flat file does, and a sync publishes it.
  lemma AttachedIo(s: Sys, fs: Fs, hid: nat, op: Op, answer: Answer, s': Sys)
    requires Refines(s, fs) && fs.Valid() && IoStep(s, hid, op, answer, s') && fs.open[hid].Attached?
    ensures PlainFs.Allows(fs, Io(hid, op), answer)
    ensures Refines(s', PlainFs.Next(fs, Io(hid, op), answer))
  {
    hide Consistent, NameOf, ImageShows, Represents, ImageOf, NextId, HandleStep, Apply, SyncBatch, FlatFile.Next, FlatFile.Allows,
      HandleRefines, FilesStored, Exclusive;
    var h, h' := s.handles[hid], s'.handles[hid];
    var Attached(path, flags, flat) := fs.open[hid];
    StepTouches(s.kv, h, op, answer.reply, s'.kv, h');
    SyncEffect(s.kv, h);
    AttachedValid(fs, hid);
    OwnStep(s.kv, h, fs.files, path, flags, flat, op, answer.reply, s'.kv, h');
    var fs' := PlainFs.Next(fs, Io(hid, op), answer);
    ExclusiveKept(fs.open, hid, fs'.open[hid]);
    forall x | x in s.handles && x != hid ensures HandleRefines(s'.kv, fs'.files, s.handles[x], fs.open[x]) {
      OtherHandle(s, fs, hid, op, answer, s', x);
    }
  }

  lemma ExclusiveKept(open: map<nat, OpenEntry>, hid: nat, file: OpenEntry)
    requires Exclusive(open) && hid in open && open[hid].Attached? && file.Attached?
    requires file.path == open[hid].path && file.flags == open[hid].flags
    ensures Exclusive(open[hid := file])
  {
  }

  lemma AttachedValid(fs: Fs, hid: nat)
    requires fs.Valid() && hid in fs.open && fs.open[hid].Attached?
    ensures fs.open[hid].flat.Valid() && fs.open[hid].path in fs.files
  {
  }

  lemma OwnStep(
    kv: Kv, h: Handle, files: map<Path, Flat>, path: Path, flags: Flags, flat: Flat, op: Op, reply: Reply, kv': Kv, h': Handle)
    requires Consistent(kv) && FilesStored(kv, files) && HandleRefines(kv, files, h, Attached(path, flags, flat))
    requires h.fileId < NextId(kv) && h.geometry.Valid() && flat.Valid() && HandleStep(kv, h, op, reply, kv', h')
    ensures FlatFile.Allows(flags, flat, op, reply)
    ensures var files' := if op == Sync && (reply == Done || kv' != kv) then files[path := Rest(flat)] else files;
      FilesStored(kv', files') && HandleRefines(kv', files', h', Attached(path, flags, FlatFile.Next(flags, flat, op, reply)))
  {
    hide Consistent, NameOf, ImageShows, Represents, ImageOf, NextId, HandleStep, FlatFile.Next, FlatFile.Allows, FilesStored,
      Apply, SyncBatch;
    StepTouches(kv, h, op, reply, kv', h');
    StoredAt(kv, files, path);
    HandleRefinesFlat(kv, h, flat, op, reply, kv', h');
    var a, b := Snapshot(kv, h), Snapshot(kv', h');
    DurableStep(a, op, reply, b, flat, files[path]);
    var d := StoredAfter(a, op, reply, b, flat, files[path]);
    OwnFileStored(kv, h, files, path, d, kv');
    assert files[path := files[path]] == files;
  }

  // A database changed under one file only, where that file is stored anew.
  lemma OwnFileStored(kv: Kv, h: Handle, files: map<Path, Flat>, path: Path, d: Flat, kv': Kv)
    requires Consistent(kv) && FilesStored(kv, files) && path in files && NameOf(kv, path) == Some(h.fileId)
    requires h.geometry.Valid() && h.fileId < NextId(kv)
    requires kv' == kv || kv' == Apply(kv, SyncBatch(h.fileId, h.pending, h.Record()))
    requires d == Rest(d) && ImageShows(ImageOf(kv', h.fileId), d)
    ensures FilesStored(kv', files[path := d]) && NameOf(kv', path) == NameOf(kv, path)
  {
    hide Consistent, NameOf, ImageShows, ImageOf, NextId, Apply, SyncBatch;
    SyncEffect(kv, h);
    ConsistentParts(kv);
  }

  lemma OtherHandle(s: Sys, fs: Fs, hid: nat, op: Op, answer: Answer, s': Sys, x: nat)
    requires Refines(s, fs) && fs.Valid() && IoStep(s, hid, op, answer, s') && fs.open[hid].Attached?
    requires x in s.handles && x != hid && PlainFs.Allows(fs, Io(hid, op), answer)
    ensures HandleRefines(s'.kv, PlainFs.Next(fs, Io(hid, op), answer).files, s.handles[x], fs.open[x])
  {
    hide Consistent, NameOf, ImageShows, Represents, ImageOf, NextId, HandleStep, Apply, SyncBatch, FlatFile.Next, FlatFile.Allows;
    var h, h' := s.handles[hid], s'.handles[hid];
    assert HandleRefines(s.kv, fs.files, h, fs.open[hid]);
    assert HandleRefines(s.kv, fs.files, s.handles[x], fs.open[x]);
    StepTouches(s.kv, h, op, answer.reply, s'.kv, h');
    SyncEffect(s.kv, h);
    ConsistentParts(s.kv);
    ReadersAreClean(s.kv, h, fs.open[hid].flat);
    CleanSyncDoesNothing(s.kv, h, op, answer.reply, s'.kv, h');
    HandleKept(s.kv, s'.kv, fs.files, PlainFs.Next(fs, Io(hid, op), answer).files, s.handles[x], fs.open[x]);
  }

  lemma ReadersAreClean(kv: Kv, h: Handle, flat: Flat)
    requires Represents(kv, h, flat)
    ensures h.geometry.Valid() && (!h.flags.write ==> h.Clean())
  {
  }

  lemma CleanSyncDoesNothing(kv: Kv, h: Handle, op: Op, reply: Reply, kv': Kv, h': Handle)
    requires h.geometry.Valid() && HandleStep(kv, h, op, reply, kv', h')
    requires !h.flags.write ==> h.Clean()
    ensures op == Sync && (reply == Done || kv' != kv) ==> h.flags.write || h.Clean()
    ensures kv' != kv ==> h.flags.write
  {
    hide Staged, Split, TruncatePending, Overlay, StoredChunks, Apply, SyncBatch, ShownBytes;
  }

  // Through a detached handle nothing reaches any path: a late sync is harmless.
  lemma DetachedIo(s: Sys, fs: Fs, hid: nat, op: Op, answer: Answer, s': Sys)
    requires Refines(s, fs) && fs.Valid() && IoStep(s, hid, op, answer, s') && fs.open[hid].Detached?
    ensures Refines(s', fs)
  {
    hide Consistent, NameOf, HandleRefines, ImageOf, NextId, HandleStep, Apply, SyncBatch, FilesStored, Mapped, Exclusive, OneWriter;
    var h, h' := s.handles[hid], s'.handles[hid];
    StepTouches(s.kv, h, op, answer.reply, s'.kv, h');
    OneWriterKept(s.handles, hid, h');
    SyncEffect(s.kv, h);
    if s'.kv != s.kv {
      DetachedUnmapped(s.kv, fs.files, h);
      FilesUntouched(s.kv, s'.kv, fs.files, h.fileId);
    }
    forall x | x in s.handles ensures HandleRefines(s'.kv, fs.files, s'.handles[x], fs.open[x]) {
      if x == hid {
        DetachedStays(s.kv, fs.files, h, op, answer.reply, s'.kv, h');
      } else if s'.kv != s.kv {
        OtherWriter(s.handles, hid, x) by { DetachedWriter(s.kv, fs.files, h); }
        HandleUntouched(s.kv, s'.kv, fs.files, h.fileId, s.handles[x], fs.open[x]);
      }
    }
  }

  lemma DetachedUnmapped(kv: Kv, files: map<Path, Flat>, h: Handle)
    requires HandleRefines(kv, files, h, Detached)
    ensures h.Clean() || !Mapped(kv, h.fileId)
  {
    hide Mapped;
  }

  lemma FilesUntouched(kv: Kv, kv': Kv, files: map<Path, Flat>, id: u64)
    requires FilesStored(kv, files) && SameNames(kv, kv') && SameOtherImages(kv, kv', id) && !Mapped(kv, id)
    ensures FilesStored(kv', files)
  {
    hide NameOf, ImageOf, ImageShows;
  }

  lemma DetachedStays(kv: Kv, files: map<Path, Flat>, h: Handle, op: Op, reply: Reply, kv': Kv, h': Handle)
    requires HandleRefines(kv, files, h, Detached) && (kv' == kv || SameNames(kv, kv'))
    requires h.geometry.Valid() && HandleStep(kv, h, op, reply, kv', h')
    ensures HandleRefines(kv', files, h', Detached)
  {
    hide NameOf, HandleStep, WithinCapacity, Shown;
    StepTouches(kv, h, op, reply, kv', h');
    if h.flags.write { StepKeepsCapacity(kv, h, op, reply, kv', h'); }
  }

  lemma DetachedWriter(kv: Kv, files: map<Path, Flat>, h: Handle)
    requires HandleRefines(kv, files, h, Detached)
    ensures h.Clean() || h.flags.write
  {
    hide NameOf, WithinCapacity, Shown;
  }

  lemma OtherWriter(handles: map<nat, Handle>, hid: nat, x: nat)
    requires OneWriter(handles) && hid in handles && x in handles && x != hid && handles[hid].flags.write
    ensures handles[x].flags.write ==> handles[x].fileId != handles[hid].fileId
  {
  }

  lemma OneWriterKept(handles: map<nat, Handle>, hid: nat, h': Handle)
    requires OneWriter(handles) && hid in handles
    requires h'.fileId == handles[hid].fileId && h'.flags == handles[hid].flags
    ensures OneWriter(handles[hid := h'])
  {
  }

  lemma HandleUntouched(kv: Kv, kv': Kv, files: map<Path, Flat>, id: u64, h: Handle, file: OpenEntry)
    requires HandleRefines(kv, files, h, file) && SameNames(kv, kv') && SameOtherImages(kv, kv', id) && !Mapped(kv, id)
    requires h.flags.write ==> h.fileId != id
    ensures HandleRefines(kv', files, h, file)
  {
    hide NameOf, ImageOf, Represents, WithinCapacity, Shown;
    HandleKept(kv, kv', files, files, h, file);
  }
}
