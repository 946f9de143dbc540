// What the file system is for: a map from paths to files, and open handles on
// them. It knows no ids, keys or chunks; the whole stack is proved to refine it.
module PlainFs {
  import opened Bytes
  import opened FileFlags
  import opened FileRuns
  import opened FlatFile
  import opened Keys

  // An attached handle is the one that speaks for its path, or one of several
  // readers of it. A detached one says nothing of any path: its file is gone,
  // or a writer owns it.
  datatype OpenEntry =
    | Attached(path: Path, flags: Flags, flat: Flat)
    | Detached

  datatype Fs = Fs(files: map<Path, Flat>, open: map<nat, OpenEntry>) {
    predicate Valid() {
      && (forall p :: p in files ==> files[p].Valid())
      && (forall h :: h in open && open[h].Attached? ==> open[h].flat.Valid() && open[h].path in files)
    }
  }

  datatype Request =
    | Open(handle: nat, path: Path, flags: Flags)
    | Remove(path: Path)
    | Move(source: Path, target: Path)
    | Io(handle: nat, op: Op)
    | Drop(handle: nat)
    | Crash

  datatype Answer =
    | Ok
    | Refused(error: Error)
    | Lost(applied: bool)                   // an error that does not say whether it happened
    | Replied(reply: Reply, applied: bool)

  const EMPTY := Flat([], 0, 0)

  predicate Happened(answer: Answer) { answer == Ok || answer == Lost(true) }

  function Detach(open: map<nat, OpenEntry>, path: Path): map<nat, OpenEntry> {
    map h | h in open :: if open[h].Attached? && open[h].path == path then Detached else open[h]
  }

  function Rename(open: map<nat, OpenEntry>, source: Path, target: Path): map<nat, OpenEntry> {
    map h | h in open :: if open[h].Attached? && open[h].path == source then open[h].(path := target) else open[h]
  }

  predicate HasWriter(open: map<nat, OpenEntry>, path: Path) {
    exists h :: h in open && open[h].Attached? && open[h].path == path && open[h].flags.write
  }

  // What an open for writing leaves at its path.
  function Prepared(fs: Fs, path: Path, flags: Flags): Flat {
    if path in fs.files && !flags.truncateExisting then fs.files[path] else EMPTY
  }

  function Cursor(f: Flat, flags: Flags): Flat { f.(position := if flags.append then f.size else 0) }

  // Some access is asked for, only a writer creates or appends, and a file is
  // emptied only where it may be created.
  predicate Accepted(flags: Flags) {
    && (flags.read || flags.write)
    && (flags.create || flags.append ==> flags.write)
    && (flags.truncateExisting ==> flags.create)
  }

  predicate Allows(fs: Fs, request: Request, answer: Answer)
    requires fs.Valid()
  {
    match request
    case Open(h, path, flags) =>
      if !Accepted(flags) || path == [] then answer == Refused(InvalidArgument)
      else if path !in fs.files && !flags.create then answer == Refused(FileNotFound) || answer == Lost(false)
      else answer == Ok || answer.Lost? || (path !in fs.files && answer == Refused(MetadataDecode))
    case Remove(path) =>
      if path == [] then answer == Refused(InvalidArgument)
      else if path !in fs.files then answer == Refused(FileNotFound) || answer == Lost(false)
      else answer == Ok || answer.Lost?
    case Move(source, target) =>
      if source == [] || target == [] then answer == Refused(InvalidArgument)
      else if source != target && source !in fs.files then answer == Refused(FileNotFound) || answer == Lost(false)
      else answer == Ok || answer.Lost?
    case Io(h, op) =>
      h in fs.open && answer.Replied? &&
      (fs.open[h].Attached? ==> FlatFile.Allows(fs.open[h].flags, fs.open[h].flat, op, answer.reply))
    case _ => answer == Ok
  }

  // Exactly what a request is answered when no call on the store fails. Only
  // creating a file can also find that the file ids are exhausted.
  predicate FaultFree(fs: Fs, request: Request, answer: Answer, exhausted: bool)
    requires fs.Valid()
  {
    match request
    case Open(_, path, flags) =>
      answer == if !Accepted(flags) || path == [] then Refused(InvalidArgument)
                else if path in fs.files then Ok
                else if !flags.create then Refused(FileNotFound)
                else if exhausted then Refused(MetadataDecode) else Ok
    case Remove(path) =>
      answer == if path == [] then Refused(InvalidArgument) else if path in fs.files then Ok else Refused(FileNotFound)
    case Move(source, target) =>
      answer == if source == [] || target == [] then Refused(InvalidArgument)
                else if source == target || source in fs.files then Ok else Refused(FileNotFound)
    case Io(_, _) => answer.Replied? && !answer.reply.Faulted?
    case _ => answer == Ok
  }

  function Next(fs: Fs, request: Request, answer: Answer): Fs
    requires fs.Valid() && Allows(fs, request, answer)
  {
    match request
    case Open(h, path, flags) =>
      if !Happened(answer) then fs
      else if flags.write then
        var file := Prepared(fs, path, flags);
        var others := Detach(fs.open, path);
        Fs(fs.files[path := file], if answer == Ok then others[h := Attached(path, flags, Cursor(file, flags))] else others)
      else if answer == Ok then
        fs.(open := fs.open[h := if HasWriter(fs.open, path) then Detached
                                 else Attached(path, flags, Cursor(fs.files[path], flags))])
      else fs
    case Remove(path) =>
      if !Happened(answer) then fs else Fs(fs.files - {path}, Detach(fs.open, path))
    case Move(source, target) =>
      if !Happened(answer) || source == target then fs
      else Fs((fs.files - {source})[target := fs.files[source]], Rename(Detach(fs.open, target), source, target))
    case Io(h, op) =>
      if fs.open[h].Detached? then fs
      else
        var Attached(path, flags, flat) := fs.open[h];
        var synced := op == Sync && (answer.reply == Done || answer.applied);
        Fs(if synced then fs.files[path := Rest(flat)] else fs.files,
           fs.open[h := Attached(path, flags, FlatFile.Next(flags, flat, op, answer.reply))])
    case Drop(h) => fs.(open := fs.open - {h})
    case Crash => fs.(open := map[])
  }

  // -------------------------------------------------------------------------
  // Plain files only: a map from paths to byte strings

  predicate Plain(fs: Fs)
    requires fs.Valid()
  {
    && (forall p :: p in fs.files ==> fs.files[p].Plain())
    && (forall h :: h in fs.open && fs.open[h].Attached? ==> fs.open[h].flat.Plain())
  }

  function Contents(fs: Fs): map<Path, bytes>
    requires fs.Valid()
  {
    map p | p in fs.files :: fs.files[p].Contents()
  }

  // What a request does to the handles other than its own: removing a path
  // detaches those on it, moving onto one does too and takes the source's along,
  // a writer detaches the readers of its path, and no other handle is touched.
  lemma OthersNext(fs: Fs, request: Request, answer: Answer, x: nat)
    requires fs.Valid() && Allows(fs, request, answer) && x in fs.open
    requires request.Open? || request.Io? || request.Drop? ==> x != request.handle
    ensures var before, open := fs.open[x], Next(fs, request, answer).open;
      var on := (p: Path) => before.Attached? && before.path == p;
      match request
      case Crash => open == map[]
      case Remove(path) => x in open && open[x] == if Happened(answer) && on(path) then Detached else before
      case Move(source, target) =>
        x in open && open[x] == if !Happened(answer) || source == target then before
                                else if on(target) then Detached
                                else if on(source) then before.(path := target) else before
      case Open(_, path, flags) =>
        x in open && open[x] == if Happened(answer) && flags.write && on(path) then Detached else before
      case _ => x in open && open[x] == before
  {
    hide FlatFile.Allows, FlatFile.Next;
  }

  // A handle opened on a path speaks for it, from the start of its file or, to
  // append, from the end, unless it only reads beside a writer.
  lemma OpenedNext(fs: Fs, handle: nat, path: Path, flags: Flags)
    requires fs.Valid() && Allows(fs, Open(handle, path, flags), Ok)
    ensures var after := Next(fs, Open(handle, path, flags), Ok);
      && path in after.files && handle in after.open
      && after.open[handle] ==
           if !flags.write && exists h :: h in fs.open && fs.open[h].Attached? && fs.open[h].path == path && fs.open[h].flags.write
           then Detached
           else Attached(path, flags, after.files[path].(position := if flags.append then after.files[path].size else 0))
  {
  }

  lemma NextValid(fs: Fs, request: Request, answer: Answer)
    requires fs.Valid() && Allows(fs, request, answer)
    ensures Next(fs, request, answer).Valid()
  {
    hide FlatFile.Allows, FlatFile.Next;
  }

  // No failed write of a handle in charge of a path reached past the end.
  predicate Unspilt(fs: Fs, request: Request, answer: Answer)
    requires fs.Valid()
  {
    request.Io? && request.handle in fs.open && answer.Replied? && fs.open[request.handle].Attached? ==>
      !Spills(fs.open[request.handle].flags, fs.open[request.handle].flat, request.op, answer.reply)
  }

  // As long as no failed write spills, every file is its contents.
  lemma PlainKept(fs: Fs, request: Request, answer: Answer)
    requires fs.Valid() && Plain(fs) && Allows(fs, request, answer)
    requires Unspilt(fs, request, answer)
    ensures Next(fs, request, answer).Valid() && Plain(Next(fs, request, answer))
  {
    hide FlatFile.Allows, FlatFile.Next, Spills;
    NextValid(fs, request, answer);
    if request.Io? && fs.open[request.handle].Attached? {
      var file := fs.open[request.handle];
      PlainUntilSpill(file.flags, file.flat, request.op, answer.reply);
    }
  }

  // The requests on the map from paths to bytes: create adds an empty file,
  // truncate-on-open empties one path, remove drops one, move gives the target
  // the source's bytes, a sync publishes one handle's bytes, and nothing else
  // changes anything.
  lemma ContentsNext(fs: Fs, request: Request, answer: Answer)
    requires fs.Valid() && Allows(fs, request, answer) && Next(fs, request, answer).Valid()
    ensures var before, after := Contents(fs), Contents(Next(fs, request, answer));
      match request
      case Open(_, path, flags) =>
        after == if !Happened(answer) || !flags.write then before
                 else if path in before && !flags.truncateExisting then before else before[path := []]
      case Remove(path) => after == if Happened(answer) then before - {path} else before
      case Move(source, target) =>
        after == if Happened(answer) && source != target then (before - {source})[target := before[source]] else before
      case Io(h, Sync) =>
        after == if fs.open[h].Attached? && (answer.reply == Done || answer.applied)
                 then before[fs.open[h].path := fs.open[h].flat.Contents()] else before
      case _ => after == before
  {
    hide FlatFile.Allows, FlatFile.Next;
  }
}
