// The calls of one database as they are carried out: the catalog's transaction,
// then the handle (rust/src/fs.rs:187-278). Each is a step of the system, so each
// does what the plain file system says.
module FileCalls {
  import opened Bytes
  import opened FileFlags
  import opened FileHandle
  import opened FileRuns
  import opened FileSystem
  import opened FileSystemRuns
  import opened FlatFile
  import opened Keys
  import opened KvStore
  import opened PlainFs
  import DatabaseMetadata

  // What a call that may have lost its commit tells the caller.
  function AnswerTo<T>(r: Result<T>, applied: bool): Answer {
    match r
    case Success(_) => Ok
    case Failure(StoreFault) => Lost(applied)
    case Failure(e) => Refused(e)
  }

  // The system after the call: the handle it returned is open as `hid`.
  ghost function Opened(s: Sys, kv: Kv, hid: nat, r: Result<FileHandle>): Sys
    reads match r case Success(h) => {h, h.chunks} case Failure(_) => {}
  {
    Sys(kv, if r.Success? then s.handles[hid := r.value.State()] else s.handles)
  }

  // The step is allowed, and leaves what the plain file system has next; it
  // reports a fault exactly when a call on the store failed, and is otherwise
  // answered exactly as the plain file system says.
  ghost predicate Does(s: Sys, fs: Fs, request: Request, answer: Answer, s': Sys, faulted: bool) {
    && SysStep(s, request, answer, s')
    && fs.Valid()
    && PlainFs.Allows(fs, request, answer)
    && Refines(s', PlainFs.Next(fs, request, answer))
    && (Faulty(answer) <==> faulted)
    && (!faulted ==> FaultFree(fs, request, answer, Exhausted(s.kv)))
  }

  lemma StepDoes(s: Sys, fs: Fs, request: Request, answer: Answer, s': Sys)
    requires Refines(s, fs) && SysStep(s, request, answer, s')
    ensures Does(s, fs, request, answer, s', Faulty(answer))
  {
    hide Refines, SysStep, PlainFs.Allows, PlainFs.Next, FaultFree;
    StepRefines(s, fs, request, answer, s');
    if !Faulty(answer) { AnswerExact(s, fs, request, answer, s'); }
  }

  // The discipline of one writer, for the file this path would open.
  ghost predicate Unwritten(s: Sys, path: Path, flags: Flags) {
    match Catalog.PrepareFileForOpen(s.kv, path, flags.create, flags.truncateExisting)
    case Success((_, id, _)) => NoWriter(s.handles, id)
    case Failure(_) => true
  }

  method OpenFile(store: Store, client: Client, path: Path, flags: Flags, ghost s: Sys, ghost fs: Fs, ghost hid: nat)
    returns (r: Result<FileHandle>, ghost answer: Answer)
    requires s.kv == store.kv && Refines(s, fs) && hid !in s.handles
    requires flags.write ==> client.ReadWrite? && Unwritten(s, path, flags)
    modifies store
    ensures Does(s, fs, Open(hid, path, flags), answer, Opened(s, store.kv, hid, r), store.faults != old(store.faults))
    ensures r.Success? ==> fresh(r.value) && fresh(r.value.chunks) && r.value.store == store && r.value.Valid()
    ensures answer == AnswerTo(r, store.kv != s.kv)
    ensures !Accepted(flags) || path == [] ==> r == Failure(InvalidArgument)
    ensures Accepted(flags) && path != [] && store.faults == old(store.faults) ==>
      if path in fs.files || (flags.create && !Exhausted(s.kv)) then r.Success?
      else r == Failure(if flags.create then MetadataDecode else FileNotFound)
  {
    hide Refines, SysStep, PlainFs.Next;
    if flags.Validate().Failure? {
      answer := Refused(InvalidArgument);
      assert SysStep(s, Open(hid, path, flags), answer, s) by { InvalidIsRefused(s, hid, path, flags); }
      StepDoes(s, fs, Open(hid, path, flags), answer, s);
      return Failure(InvalidArgument), answer;
    }
    if flags.write {
      r, answer := OpenWriteHandle(store, path, flags, s, hid);
    } else {
      r, answer := OpenReadHandle(store, client, path, flags, s, hid);
    }
    ghost var s' := Opened(s, store.kv, hid, r);
    StepDoes(s, fs, Open(hid, path, flags), answer, s');
    if r.Success? { OpenedIsValid(s, fs, Open(hid, path, flags), answer, s', hid, r.value, store); }
  }

  lemma InvalidIsRefused(s: Sys, hid: nat, path: Path, flags: Flags)
    requires hid !in s.handles && flags.Validate().Failure?
    ensures SysStep(s, Open(hid, path, flags), Refused(InvalidArgument), s)
  {
  }

  lemma OpenedIsValid(s: Sys, fs: Fs, request: Request, answer: Answer, s': Sys, hid: nat, h: FileHandle, store: Store)
    requires Does(s, fs, request, answer, s', Faulty(answer)) && hid in s'.handles && s'.handles[hid] == h.State() && s'.kv == store.kv
    requires h.store == store && h.chunks.store == store
    ensures h.Valid()
  {
    hide Refines, SysStep, PlainFs.Allows, PlainFs.Next, FaultFree;
    HandlesSound(s', PlainFs.Next(fs, request, answer), hid);
  }

  method OpenWriteHandle(store: Store, path: Path, flags: Flags, ghost s: Sys, ghost hid: nat)
    returns (r: Result<FileHandle>, ghost answer: Answer)
    requires s.kv == store.kv && hid !in s.handles && flags.Validate().Success? && flags.write && Unwritten(s, path, flags)
    modifies store
    ensures SysStep(s, Open(hid, path, flags), answer, Opened(s, store.kv, hid, r))
    ensures r.Success? ==>
      fresh(r.value) && fresh(r.value.chunks) && r.value.store == store && r.value.chunks.store == store
    ensures answer == AnswerTo(r, store.kv != s.kv)
    ensures answer.Lost? <==> store.faults != old(store.faults)
  {
    hide Catalog.PrepareFileForOpen, OpenHandle;
    var metadata := new DatabaseMetadata.DatabaseMetadata(store);
    var prepared := metadata.PrepareFileForOpen(path, flags.create, flags.truncateExisting);
    if prepared.Failure? {
      return Failure(prepared.error), AnswerTo(prepared, store.kv != s.kv);
    }
    var (fileId, m) := prepared.value;
    r := FileHandle.Open(ReadWrite, store, fileId, m, flags);
    return r, AnswerTo(r, store.kv != s.kv);
  }

  method OpenReadHandle(store: Store, client: Client, path: Path, flags: Flags, ghost s: Sys, ghost hid: nat)
    returns (r: Result<FileHandle>, ghost answer: Answer)
    requires s.kv == store.kv && hid !in s.handles && flags.Validate().Success? && !flags.write
    modifies store`faults
    ensures SysStep(s, Open(hid, path, flags), answer, Opened(s, store.kv, hid, r))
    ensures r.Success? ==>
      fresh(r.value) && fresh(r.value.chunks) && r.value.store == store && r.value.chunks.store == store
    ensures answer == AnswerTo(r, store.kv != s.kv)
    ensures answer.Lost? <==> store.faults != old(store.faults)
  {
    hide Catalog.FindFile, OpenHandle;
    Catalog.FindFileErrors(store.kv, path);
    var metadata := new DatabaseMetadata.DatabaseMetadata(store);
    var found := metadata.OpenFile(path);
    if found.Failure? {
      return Failure(found.error), AnswerTo(found, store.kv != s.kv);
    }
    var (fileId, m) := found.value;
    r := FileHandle.Open(client, store, fileId, m, flags);
    return r, AnswerTo(r, store.kv != s.kv);
  }

  // Existence is existence in the plain file system.
  method FileExists(store: Store, path: Path, ghost s: Sys, ghost fs: Fs) returns (r: Result<bool>)
    requires s.kv == store.kv && Refines(s, fs)
    modifies store`faults
    ensures r == if path == [] then Failure(InvalidArgument)
                 else if store.faults == old(store.faults) then Success(path in fs.files)
                 else Failure(StoreFault)
  {
    PathStored(s, fs, path);
    hide Refines, PathKey;
    var metadata := new DatabaseMetadata.DatabaseMetadata(store);
    r := metadata.FileExists(path);
  }

  lemma PathStored(s: Sys, fs: Fs, path: Path)
    requires Refines(s, fs)
    ensures path in fs.files <==> PathKey(path) in s.kv
  {
    hide Refines, PathKey;
    PathsRead(s, fs, path);
  }

  method RemoveFile(store: Store, path: Path, ghost s: Sys, ghost fs: Fs) returns (r: Result<()>, ghost answer: Answer)
    requires s.kv == store.kv && Refines(s, fs)
    modifies store
    ensures answer == AnswerTo(r, store.kv != s.kv)
    ensures Does(s, fs, Remove(path), answer, s.(kv := store.kv), store.faults != old(store.faults))
  {
    hide Refines, Does, Catalog.RemoveFile;
    var metadata := new DatabaseMetadata.DatabaseMetadata(store);
    r := metadata.RemoveFile(path);
    answer := AnswerTo(r, store.kv != s.kv);
    StepDoes(s, fs, Remove(path), answer, s.(kv := store.kv));
  }

  method MoveFile(store: Store, source: Path, target: Path, ghost s: Sys, ghost fs: Fs)
    returns (r: Result<()>, ghost answer: Answer)
    requires s.kv == store.kv && Refines(s, fs)
    modifies store
    ensures answer == AnswerTo(r, store.kv != s.kv)
    ensures Does(s, fs, Move(source, target), answer, s.(kv := store.kv), store.faults != old(store.faults))
  {
    hide Refines, Does, Catalog.MoveFile;
    var metadata := new DatabaseMetadata.DatabaseMetadata(store);
    r := metadata.MoveFile(source, target);
    answer := AnswerTo(r, store.kv != s.kv);
    StepDoes(s, fs, Move(source, target), answer, s.(kv := store.kv));
  }

  // Any open handle of the system, as an object, meets what its methods ask.
  lemma OpenHandleIsValid(s: Sys, fs: Fs, hid: nat, h: FileHandle)
    requires Refines(s, fs) && hid in s.handles && s.handles[hid] == h.State()
    requires h.chunks.store == h.store && h.store.kv == s.kv
    ensures h.Valid()
  {
    hide Refines;
    HandlesSound(s, fs, hid);
  }

  // And what its methods promise of one call is a step of the system.
  lemma HandleCallDoes(s: Sys, fs: Fs, hid: nat, op: Op, reply: Reply, kv': Kv, h': Handle)
    requires Refines(s, fs) && hid in s.handles && Sound(s.kv, s.handles[hid])
    requires HandleStep(s.kv, s.handles[hid], op, reply, kv', h')
    ensures Does(s, fs, Io(hid, op), Replied(reply, kv' != s.kv), Sys(kv', s.handles[hid := h']), reply.Faulted?)
  {
    hide Refines, HandleStep, Shown;
    StepDoes(s, fs, Io(hid, op), Replied(reply, kv' != s.kv), Sys(kv', s.handles[hid := h']));
  }

  // Syncing a handle in charge of a path publishes its file there, unless a call
  // on the store fails.
  method SyncFile(h: FileHandle, ghost s: Sys, ghost fs: Fs, ghost hid: nat) returns (r: Result<()>)
    requires Refines(s, fs) && hid in s.handles && s.handles[hid] == h.State() && h.Valid() && h.store.kv == s.kv
    requires hid in fs.open && fs.open[hid].Attached?
    modifies h, h.chunks, h.store
    ensures r.Success? <==> h.store.faults == old(h.store.faults)
    ensures r.Failure? ==> r.error == StoreFault
    ensures var reply := FileHandle.WriteReply(r, 0);
      && Does(s, fs, Io(hid, Sync), Replied(reply, h.store.kv != s.kv), Sys(h.store.kv, s.handles[hid := h.State()]), reply.Faulted?)
      && (r.Success? ==>
            PlainFs.Next(fs, Io(hid, Sync), Replied(reply, h.store.kv != s.kv)).files
            == fs.files[fs.open[hid].path := Rest(fs.open[hid].flat)])
  {
    hide Refines, HandleStep, Shown;
    r := h.Sync();
    ghost var reply := FileHandle.WriteReply(r, 0);
    HandleCallDoes(s, fs, hid, Sync, reply, h.store.kv, h.State());
    assert PlainFs.Allows(fs, Io(hid, Sync), Replied(reply, h.store.kv != s.kv));
    assert FlatFile.Allows(fs.open[hid].flags, fs.open[hid].flat, Sync, reply);
  }
}
