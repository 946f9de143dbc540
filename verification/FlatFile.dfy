// What a file handle is for: a flat byte string with a cursor. This is the
// specification the chunked handle is proved to refine; it knows no chunks.
module FlatFile {
  import opened Bytes
  import opened FileFlags
  import opened Tapes

  datatype Op =
    | PRead(len: nat, offset: u64)
    | PWrite(data: bytes, offset: u64)
    | Read(len: nat)
    | Write(data: bytes)
    | Seek(position: u64)
    | Reset
    | Truncate(size: u64)
    | Sync

  datatype Reply =
    | Data(data: bytes)      // what a read delivered
    | Done
    | Rejected(error: Error) // refused or out of range, nothing happened
    | Faulted(staged: nat)   // the store failed; a write had staged this many bytes

  // The file is the first `size` bytes of the tape. The tape can only run past
  // the size, by a spill, once a write failed halfway.
  datatype Flat = Flat(tape: bytes, size: nat, position: nat) {
    predicate Valid() { size <= |tape| }

    function Contents(): bytes
      requires Valid()
    {
      tape[..size]
    }

    predicate Plain() { |tape| == size }
  }

  function Min(a: int, b: int): int { if a < b then a else b }
  function Max(a: int, b: int): int { if a < b then b else a }

  // The in-range bytes of a read.
  function ReadAt(f: Flat, len: nat, offset: nat): bytes
    requires f.Valid()
  {
    if offset >= f.size then [] else f.Contents()[offset..Min(offset + len, f.size)]
  }

  // Whether a read may be out of range shows in the chunks only, but it takes
  // zeros on both sides of where it starts.
  predicate BehindZero(f: Flat, offset: nat) {
    offset > 0 && ByteIn(f.tape, offset - 1) == ByteIn(f.tape, offset) == 0
  }

  predicate AllowsRead(flags: Flags, f: Flat, len: nat, offset: nat, reply: Reply)
    requires f.Valid()
  {
    if !flags.read then reply == Rejected(InvalidArgument)
    else
      || reply == Data(ReadAt(f, len, offset))
      || (ReadAt(f, len, offset) != [] && (reply == Faulted(0) || (reply == Rejected(SliceOutOfRange) && BehindZero(f, offset))))
  }

  predicate AllowsWrite(flags: Flags, data: bytes, offset: nat, reply: Reply) {
    if !flags.write then reply == Rejected(ReadOnlyViolation)
    else if data == [] then reply == Done
    else if offset + |data| >= U64_LIMIT then reply == Rejected(InvalidArgument)
    else reply == Done || (reply.Faulted? && reply.staged < |data|)
  }

  // Append handles write at the end wherever the cursor is.
  function WriteOffset(flags: Flags, f: Flat): nat { if flags.append then f.size else f.position }

  predicate Allows(flags: Flags, f: Flat, op: Op, reply: Reply)
    requires f.Valid()
  {
    match op
    case PRead(len, offset) => AllowsRead(flags, f, len, offset, reply)
    case Read(len) =>
      // End of file is reported before the access check.
      if ReadAt(f, len, f.position) == [] then reply == Data([]) else AllowsRead(flags, f, len, f.position, reply)
    case PWrite(data, offset) => AllowsWrite(flags, data, offset, reply)
    case Write(data) => AllowsWrite(flags, data, WriteOffset(flags, f), reply)
    case Seek(_) => reply == Done
    case Reset => reply == Done
    case Truncate(size) =>
      if !flags.write then reply == Rejected(ReadOnlyViolation)
      else reply == Done || (size < f.size && reply == Faulted(0))
    case Sync => reply == Done || reply == Faulted(0)
  }

  function AfterWrite(f: Flat, data: bytes, offset: nat, reply: Reply): (f': Flat)
    requires f.Valid() && (reply.Faulted? ==> reply.staged <= |data|)
    ensures f'.Valid()
  {
    match reply
    case Done => if data == [] then f else f.(tape := Splice(f.tape, offset, data), size := Max(f.size, offset + |data|))
    case Faulted(staged) => f.(tape := Overwritten(f.tape, offset, data, staged))
    case _ => f
  }

  function Next(flags: Flags, f: Flat, op: Op, reply: Reply): (f': Flat)
    requires f.Valid() && Allows(flags, f, op, reply)
    ensures f'.Valid()
  {
    match op
    case Read(_) => if reply.Data? then f.(position := f.position + |reply.data|) else f
    case PWrite(data, offset) => AfterWrite(f, data, offset, reply)
    case Write(data) =>
      var offset := WriteOffset(flags, f);
      var f' := AfterWrite(f, data, offset, reply);
      if reply.Done? then f'.(position := offset + |data|) else f'
    case Seek(position) => f.(position := position)
    case Reset => f.(position := 0)
    case Truncate(size) =>
      if !reply.Done? then f
      else if size < f.size then f.(tape := f.tape[..size], size := size)
      else f.(tape := Padded(f.tape, size), size := size)
    case _ => f
  }

  // -------------------------------------------------------------------------
  // Plain files: the tape ends where the file does

  // A failed write that had reached past the end of the file.
  predicate Spills(flags: Flags, f: Flat, op: Op, reply: Reply) {
    reply.Faulted? && reply.staged > 0 &&
    match op
    case PWrite(_, offset) => offset + reply.staged > f.size
    case Write(_) => WriteOffset(flags, f) + reply.staged > f.size
    case _ => false
  }

  // A plain file stays plain exactly as long as no failed write spills.
  lemma PlainUntilSpill(flags: Flags, f: Flat, op: Op, reply: Reply)
    requires f.Valid() && f.Plain() && Allows(flags, f, op, reply)
    ensures Next(flags, f, op, reply).Plain() <==> !Spills(flags, f, op, reply)
  {
    hide Splice, Padded;
  }

  // On a plain file the operations are the textbook ones: a write replaces its
  // range and zero-fills a gap before it, a truncation cuts or zero-extends,
  // and a write that failed inside the file leaves a prefix of its data.
  function Written(contents: bytes, data: bytes, offset: nat, reply: Reply): bytes
    requires reply.Faulted? ==> reply.staged <= |data|
  {
    match reply
    case Done => if data == [] then contents else Splice(contents, offset, data)
    case Faulted(staged) => Overwritten(contents, offset, data, staged)
    case _ => contents
  }

  lemma PlainContents(flags: Flags, f: Flat, op: Op, reply: Reply)
    requires f.Valid() && f.Plain() && Allows(flags, f, op, reply) && !Spills(flags, f, op, reply)
    ensures var before, after := f.Contents(), Next(flags, f, op, reply).Contents();
      match op
      case PWrite(data, offset) => after == Written(before, data, offset, reply)
      case Write(data) => after == Written(before, data, if flags.append then |before| else f.position, reply)
      case Truncate(size) =>
        after == if !reply.Done? then before else if size < |before| then before[..size] else before + Zeros(size - |before|)
      case _ => after == before
  {
    hide Splice;
    PlainUntilSpill(flags, f, op, reply);
    assert f.Contents() == f.tape;
  }
}
