// Whole runs of the file system: opens, removals, moves, operations of any
// number of handles, dropped handles and crashes, with faults anywhere.
module FileSystemRuns {
  import opened Bytes
  import opened Catalog
  import opened CatalogEffects
  import opened Chunks
  import opened FileFlags
  import opened FileHandle
  import opened FileRuns
  import opened FileSystem
  import opened FlatFile
  import opened Images
  import opened Keys
  import opened KvStore
  import opened Metadata
  import opened PlainFs

  // Every step of the system is a step of the plain file system.
  lemma StepRefines(s: Sys, fs: Fs, request: Request, answer: Answer, s': Sys)
    requires Refines(s, fs) && SysStep(s, request, answer, s')
    ensures fs.Valid() && PlainFs.Allows(fs, request, answer)
    ensures Refines(s', PlainFs.Next(fs, request, answer))
  {
    hide Consistent, FilesStored, HandleRefines, NextId, IoStep, OpenForWrite, OpenForRead, RemoveFile, MoveFile;
    RefinesValid(s, fs);
    match request
    case Open(hid, path, flags) =>
      if flags.Validate().Success? {
        if flags.write { OpenWriteRefines(s, fs, hid, path, flags, answer, s'); }
        else { OpenReadRefines(s, fs, hid, path, flags, answer, s'); }
      }
    case Remove(path) =>
      RemoveRefusals(s, fs, path);
      if RemoveFile(s.kv, path).Success? { RemoveRefines(s, fs, path, RemoveFile(s.kv, path).value); }
    case Move(source, target) =>
      MoveRefusals(s, fs, source, target);
      if source != target && MoveFile(s.kv, source, target).Success? {
        MoveRefines(s, fs, source, target, MoveFile(s.kv, source, target).value);
      }
    case Io(hid, op) => IoRefines(s, fs, hid, op, answer, s');
    case Drop(hid) => FewerHandles(s, fs, {hid});
    case Crash =>
      FewerHandles(s, fs, s.handles.Keys);
      assert s.handles - s.handles.Keys == map[] && fs.open - s.handles.Keys == map[];
  }

  lemma FewerHandles(s: Sys, fs: Fs, gone: set<nat>)
    requires Refines(s, fs)
    ensures Refines(s.(handles := s.handles - gone), fs.(open := fs.open - gone))
  {
    hide Consistent, FilesStored, HandleRefines, NextId;
  }

  lemma RemoveRefusals(s: Sys, fs: Fs, path: Path)
    requires Refines(s, fs)
    ensures RemoveFile(s.kv, path).Failure? ==>
      RemoveFile(s.kv, path).error == if path == [] then InvalidArgument else FileNotFound
    ensures RemoveFile(s.kv, path).Failure? <==> path == [] || path !in fs.files
  {
    hide ReadFileId, Refines, Apply, PrefixKeys;
    PathsRead(s, fs, path);
  }

  // On a consistent catalog every path key decodes, so the only way not to find
  // an id is not to have the path.
  lemma PathsRead(s: Sys, fs: Fs, path: Path)
    requires Refines(s, fs)
    ensures if path in fs.files then ReadFileId(s.kv, PathKey(path)).Success? else ReadFileId(s.kv, PathKey(path)) == Failure(FileNotFound)
  {
    hide DecodeFileId, ImageShows, ImageOf, HandlesRefine;
    assert PathKey(path) in s.kv ==> NameOf(s.kv, path).Some?;
  }

  lemma MoveRefusals(s: Sys, fs: Fs, source: Path, target: Path)
    requires Refines(s, fs)
    ensures var spec := MoveFile(s.kv, source, target);
      && (spec.Failure? <==> source == [] || target == [] || (source != target && source !in fs.files))
      && (spec.Failure? ==> spec.error == if source == [] || target == [] then InvalidArgument else FileNotFound)
      && (source == target && source != [] ==> spec == Success(s.kv))
  {
    hide ReadFileId, Refines, Apply, PrefixKeys;
    PathsRead(s, fs, source);
    PathsRead(s, fs, target);
  }

  // -------------------------------------------------------------------------
  // Answers

  predicate Faulty(answer: Answer) { answer.Lost? || (answer.Replied? && answer.reply.Faulted?) }

  // The ids below 2^64 are used up.
  predicate Exhausted(kv: Kv) { NextId(kv) + 1 >= U64_LIMIT }

  // Every answer that does not report a fault is the one answer the plain file
  // system gives; creating is refused only once the ids are exhausted.
  lemma AnswerExact(s: Sys, fs: Fs, request: Request, answer: Answer, s': Sys)
    requires Refines(s, fs) && SysStep(s, request, answer, s') && !Faulty(answer)
    ensures fs.Valid() && FaultFree(fs, request, answer, Exhausted(s.kv))
  {
    hide Consistent, FilesStored, HandleRefines, Exclusive, OneWriter, NextId, IoStep, OpenForWrite, OpenForRead, RemoveFile, MoveFile,
      PrepareFileForOpen;
    StepRefines(s, fs, request, answer, s');
    match request
    case Open(hid, path, flags) =>
      if flags.Validate().Success? {
        if flags.write { OpenWriteExact(s, fs, hid, path, flags, answer, s'); }
        else { OpenReadExact(s, fs, hid, path, flags, answer, s'); }
      }
    case Remove(path) => RemoveRefusals(s, fs, path);
    case Move(source, target) => MoveRefusals(s, fs, source, target);
    case Io(hid, op) => IoReplies(s, hid, op, answer, s');
    case _ =>
  }

  // What a caller has to see to: a new handle number, no second writer of a
  // file, and calls of open handles only.
  ghost predicate Asked(s: Sys, request: Request) {
    match request
    case Open(hid, path, flags) =>
      hid !in s.handles
      && (flags.write ==>
            match PrepareFileForOpen(s.kv, path, flags.create, flags.truncateExisting)
            case Success((_, id, _)) => NoWriter(s.handles, id)
            case Failure(_) => true)
    case Io(hid, _) => hid in s.handles
    case _ => true
  }

  // Every request has a step that reports no fault, hence answers exactly what
  // the plain file system says.
  lemma FaultFreeRequest(s: Sys, fs: Fs, request: Request) returns (answer: Answer, s': Sys)
    requires Refines(s, fs) && Asked(s, request)
    ensures SysStep(s, request, answer, s') && !Faulty(answer)
    ensures fs.Valid() && FaultFree(fs, request, answer, Exhausted(s.kv))
  {
    hide FaultFree, Consistent, FilesStored, HandleRefines, Exclusive, OneWriter, NextId, HandleStep, RemoveFile, MoveFile,
      PrepareFileForOpen, Catalog.OpenFile, OpenHandle, NoWriter;
    answer, s' := Ok, s;
    match request {
      case Open(hid, path, flags) =>
        if flags.Validate().Failure? { answer := Refused(InvalidArgument); }
        else if flags.write { answer, s' := FaultFreeOpen(s, hid, path, flags); }
        else { answer, s' := FaultFreeLook(s, hid, path, flags); }
      case Remove(path) =>
        match RemoveFile(s.kv, path) {
          case Success(kv') => s' := s.(kv := kv');
          case Failure(e) => answer := Refused(e);
        }
      case Move(source, target) =>
        match MoveFile(s.kv, source, target) {
          case Success(kv') => s' := s.(kv := kv');
          case Failure(e) => answer := Refused(e);
        }
      case Io(hid, op) => answer, s' := FaultFreeIo(s, fs, hid, op);
      case Drop(hid) => s' := s.(handles := s.handles - {hid});
      case Crash => s' := s.(handles := map[]);
    }
    AnswerExact(s, fs, request, answer, s');
  }

  lemma FaultFreeOpen(s: Sys, hid: nat, path: Path, flags: Flags) returns (answer: Answer, s': Sys)
    requires Asked(s, Open(hid, path, flags)) && flags.write
    ensures OpenForWrite(s, hid, path, flags, answer, s') && !Faulty(answer)
  {
    hide PrepareFileForOpen, OpenHandle, NoWriter;
    match PrepareFileForOpen(s.kv, path, flags.create, flags.truncateExisting)
    case Failure(e) => answer, s' := Refused(e), s;
    case Success((kv', id, m)) =>
      match OpenHandle(ReadWrite, id, m, flags)
      case Failure(e) => answer, s' := Refused(e), Sys(kv', s.handles);
      case Success(h) => answer, s' := Ok, Sys(kv', s.handles[hid := h]);
  }

  lemma FaultFreeLook(s: Sys, hid: nat, path: Path, flags: Flags) returns (answer: Answer, s': Sys)
    ensures OpenForRead(s, hid, path, flags, answer, s') && !Faulty(answer)
  {
    hide Catalog.OpenFile, OpenHandle;
    match Catalog.OpenFile(s.kv, path)
    case Failure(e) => answer, s' := Refused(e), s;
    case Success((id, m)) =>
      match OpenHandle(ReadWrite, id, m, flags)
      case Failure(e) => answer, s' := Refused(e), s;
      case Success(h) => answer, s' := Ok, Sys(s.kv, s.handles[hid := h]);
  }

  lemma FaultFreeIo(s: Sys, fs: Fs, hid: nat, op: Op) returns (answer: Answer, s': Sys)
    requires Refines(s, fs) && hid in s.handles
    ensures IoStep(s, hid, op, answer, s') && !Faulty(answer)
  {
    hide Refines, HandleStep, Shown;
    HandlesSound(s, fs, hid);
    var reply, kv', h' := FaultFreeStep(s.kv, s.handles[hid], op);
    answer, s' := Replied(reply, kv' != s.kv), Sys(kv', s.handles[hid := h']);
  }

  lemma IoReplies(s: Sys, hid: nat, op: Op, answer: Answer, s': Sys)
    requires IoStep(s, hid, op, answer, s')
    ensures answer.Replied?
  {
  }

  lemma OpenWriteExact(s: Sys, fs: Fs, hid: nat, path: Path, flags: Flags, answer: Answer, s': Sys)
    requires Refines(s, fs) && fs.Valid() && hid !in s.handles && flags.write && flags.Validate().Success?
    requires OpenForWrite(s, hid, path, flags, answer, s') && !answer.Lost?
    ensures FaultFree(fs, Open(hid, path, flags), answer, Exhausted(s.kv))
  {
    hide Consistent, NameOf, PrepareFileForOpen, ImageShows, ImageOf, NextId, NoWriter, HandlesRefine, Exclusive, OneWriter, OpenHandle;
    var spec := PrepareFileForOpen(s.kv, path, flags.create, flags.truncateExisting);
    if path != [] && path !in fs.files && flags.create {
      CreateGrantedIff(s.kv, path, flags.truncateExisting);
    }
    if spec.Failure? {
      PrepareRefusals(s, fs, path, flags, spec.error);
    } else {
      var (kv', id, m) := spec.value;
      PreparedNonEmpty(s.kv, path, flags);
      PreparedRefines(s, fs, path, flags, kv', id, m);
      var f := Prepared(fs, path, flags);
      assert ImageShows(ImageOf(kv', id), f);
      ReopenExact(kv', ReadWrite, id, flags, f);
    }
  }

  lemma OpenReadExact(s: Sys, fs: Fs, hid: nat, path: Path, flags: Flags, answer: Answer, s': Sys)
    requires Refines(s, fs) && fs.Valid() && hid !in s.handles && !flags.write && flags.Validate().Success?
    requires OpenForRead(s, hid, path, flags, answer, s') && !answer.Lost?
    ensures FaultFree(fs, Open(hid, path, flags), answer, Exhausted(s.kv))
  {
    hide Consistent, NameOf, ImageShows, ImageOf, NextId, HandlesRefine, Exclusive, OneWriter, OpenHandle, Catalog.OpenFile;
    OpenFileCases(s, fs, path);
    if path != [] && path in fs.files {
      var id := NameOf(s.kv, path).value;
      assert ImageShows(ImageOf(s.kv, id), fs.files[path]);
      OpensEitherWay(s.kv, id, flags, fs.files[path]);
    }
  }

  lemma OpensEitherWay(kv: Kv, id: u64, flags: Flags, f: Flat)
    requires ImageShows(ImageOf(kv, id), f) && !flags.write && flags.Validate().Success?
    ensures forall client :: OpenHandle(client, id, Decode(ImageOf(kv, id).record.value).value, flags).Success?
  {
    forall client: Client ensures OpenHandle(client, id, Decode(ImageOf(kv, id).record.value).value, flags).Success? {
      hide ImageShows, ImageOf, Decode;
      ReopenExact(kv, client, id, flags, f);
    }
  }

  // -------------------------------------------------------------------------
  // Runs

  datatype Entry = Entry(request: Request, answer: Answer)

  ghost predicate IsSysRun(states: seq<Sys>, log: seq<Entry>) {
    && |states| == |log| + 1
    && forall i :: 0 <= i < |log| ==> SysStep(states[i], log[i].request, log[i].answer, states[i + 1])
  }

  // The plain file system after the same log; None once it would not allow it.
  function Replay(fs: Fs, log: seq<Entry>): (r: Option<Fs>)
    requires fs.Valid()
    ensures r.Some? ==> r.value.Valid()
  {
    if log == [] then Some(fs)
    else
      match Replay(fs, log[..|log| - 1])
      case None => None
      case Some(g) =>
        var Entry(request, answer) := log[|log| - 1];
        if PlainFs.Allows(g, request, answer) then NextValid(g, request, answer); Some(PlainFs.Next(g, request, answer)) else None
  }

  // Over every run the whole stack is a map from paths to files with open
  // handles, and only that.
  lemma {:induction false} RunRefinesPlainFs(states: seq<Sys>, log: seq<Entry>, fs: Fs)
    requires IsSysRun(states, log) && Refines(states[0], fs)
    ensures fs.Valid() && Replay(fs, log).Some? && Refines(states[|log|], Replay(fs, log).value)
    decreases |log|
  {
    hide Refines, SysStep, PlainFs.Allows, PlainFs.Next;
    RefinesValid(states[0], fs);
    if log != [] {
      var n := |log| - 1;
      assert IsSysRun(states[..n + 1], log[..n]);
      RunRefinesPlainFs(states[..n + 1], log[..n], fs);
      StepRefines(states[n], Replay(fs, log[..n]).value, log[n].request, log[n].answer, states[n + 1]);
    }
  }

  // From an empty database nothing else can be reached.
  lemma ReachableRefines(states: seq<Sys>, log: seq<Entry>)
    requires IsSysRun(states, log) && states[0] == Sys(map[], map[])
    ensures Replay(Fs(map[], map[]), log).Some? && Refines(states[|log|], Replay(Fs(map[], map[]), log).value)
  {
    InitRefines();
    RunRefinesPlainFs(states, log, Fs(map[], map[]));
  }

  // Runs in which no failed write of a handle in charge of a path reached past
  // the end of its file.
  ghost predicate NoSpills(fs: Fs, log: seq<Entry>)
    requires fs.Valid()
  {
    forall n :: 0 <= n < |log| && Replay(fs, log[..n]).Some? ==>
      Unspilt(Replay(fs, log[..n]).value, log[n].request, log[n].answer)
  }

  // In those every path is a plain byte string, and the database holds its bytes.
  lemma {:induction false} PlainReplay(states: seq<Sys>, log: seq<Entry>, fs: Fs)
    requires IsSysRun(states, log) && Refines(states[0], fs)
    requires fs.Valid() && Plain(fs) && NoSpills(fs, log)
    ensures Replay(fs, log).Some? && Plain(Replay(fs, log).value)
    ensures forall p :: p in Contents(Replay(fs, log).value) ==>
      NameOf(states[|log|].kv, p).Some? &&
      HoldsExactly(ImageOf(states[|log|].kv, NameOf(states[|log|].kv, p).value), Contents(Replay(fs, log).value)[p])
    decreases |log|
  {
    hide Refines, SysStep, PlainFs.Allows, PlainFs.Next, Plain, Unspilt, ImageOf, HoldsExactly, NameOf;
    RunRefinesPlainFs(states, log, fs);
    if log != [] {
      var n := |log| - 1;
      assert IsSysRun(states[..n + 1], log[..n]);
      forall m | 0 <= m < n ensures log[..n][..m] == log[..m] && log[..n][m] == log[m] {}
      assert NoSpills(fs, log[..n]);
      PlainReplay(states[..n + 1], log[..n], fs);
      PlainKept(Replay(fs, log[..n]).value, log[n].request, log[n].answer);
    }
    forall p | p in Contents(Replay(fs, log).value)
      ensures NameOf(states[|log|].kv, p).Some?
      ensures HoldsExactly(ImageOf(states[|log|].kv, NameOf(states[|log|].kv, p).value), Contents(Replay(fs, log).value)[p])
    {
      PlainStored(states[|log|], Replay(fs, log).value, p);
    }
  }

  // The record and chunks of an image are exactly these bytes, followed by zeros.
  ghost predicate StoredAs(image: Image, contents: bytes) {
    ImageShows(image, Flat(contents, |contents|, 0))
  }

  // It is those bytes and cannot be read as any others.
  ghost predicate HoldsExactly(image: Image, contents: bytes) {
    forall c :: StoredAs(image, c) <==> c == contents
  }

  lemma StoredAsUnique(image: Image, a: bytes, b: bytes)
    requires StoredAs(image, a) && StoredAs(image, b)
    ensures a == b
  {
    hide Shows, Fits, Decode;
    ShowsUnique(Decode(image.record.value).value.geometry, image.chunks, a, b);
  }

  lemma PlainStored(s: Sys, fs: Fs, path: Path)
    requires Refines(s, fs) && fs.Valid() && Plain(fs) && path in fs.files
    ensures NameOf(s.kv, path).Some? && HoldsExactly(ImageOf(s.kv, NameOf(s.kv, path).value), fs.files[path].Contents())
  {
    hide Consistent, HandlesRefine, ImageShows, ImageOf, NameOf;
    var f := fs.files[path];
    assert f.Contents() == f.tape;
    assert f == Rest(f) == Flat(f.Contents(), |f.Contents()|, 0);
    var image := ImageOf(s.kv, NameOf(s.kv, path).value);
    forall c | StoredAs(image, c) ensures c == f.Contents() { StoredAsUnique(image, c, f.Contents()); }
  }
}
