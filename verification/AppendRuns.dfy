// Append handles: every write lands at the end of the file, wherever the cursor
// is, and a run that shows it.
module AppendRuns {
  import opened Bytes
  import opened CatalogEffects
  import opened FileFlags
  import opened FileSystem
  import opened FileSystemRuns
  import opened FlatFile
  import opened Keys
  import opened PlainFs
  import opened Tapes

  // A write that succeeds adds its data to the end and leaves the cursor there.
  lemma AppendsAtEnd(flags: Flags, f: Flat, data: bytes)
    requires f.Valid() && f.Plain() && flags.append && flags.write && f.size + |data| < U64_LIMIT
    ensures FlatFile.Allows(flags, f, Write(data), Done)
    ensures var after := FlatFile.Next(flags, f, Write(data), Done);
      after.Plain() && after.Contents() == f.Contents() + data && after.position == after.size
  {
    var after := FlatFile.Next(flags, f, Write(data), Done);
    var written := if data == [] then f.tape else Splice(f.tape, f.size, data);
    assert after.tape == written;
    forall i | 0 <= i < |written| ensures written[i] == (f.tape + data)[i] {
      assert written[i] == ByteIn(written, i);
    }
    assert written == f.tape + data;
    assert f.Contents() == f.tape && after.Contents() == after.tape;
  }

  // -------------------------------------------------------------------------
  // A run: open for appending, write, move the cursor back, write again

  const LOG: Path := Ascii("log")

  // Handle 0 appends to the file, which holds `contents`.
  ghost predicate Appending(s: Sys, fs: Fs, contents: bytes) {
    && Refines(s, fs) && fs.Valid()
    && 0 in s.handles && 0 in fs.open && fs.open[0].Attached?
    && fs.open[0].path == LOG && fs.open[0].flags == APPEND
    && fs.open[0].flat.Plain() && fs.open[0].flat.Contents() == contents
  }

  lemma OpenedForAppend() returns (s: Sys, fs: Fs)
    ensures SysStep(Sys(map[], map[]), Open(0, LOG, APPEND), Ok, s) && Appending(s, fs, [])
  {
    hide Refines, SysStep;
    var before, start := Sys(map[], map[]), Fs(map[], map[]);
    InitRefines();
    assert Asked(before, Open(0, LOG, APPEND));
    var answer, after := FaultFreeRequest(before, start, Open(0, LOG, APPEND));
    FirstIdIsLeft();
    assert answer == Ok;
    StepRefines(before, start, Open(0, LOG, APPEND), answer, after);
    s, fs := after, PlainFs.Next(start, Open(0, LOG, APPEND), Ok);
    RefinesValid(s, fs);
    OpenBoth(s, fs);
  }

  lemma FirstIdIsLeft()
    ensures !Exhausted(map[])
  {
  }

  lemma OpenBoth(s: Sys, fs: Fs)
    requires Refines(s, fs)
    ensures s.handles.Keys == fs.open.Keys
  {
    hide Consistent, FilesStored, HandleRefines, NextId, Exclusive;
  }

  lemma Appended(s: Sys, fs: Fs, contents: bytes, data: bytes) returns (answer: Answer, s': Sys, fs': Fs)
    requires Appending(s, fs, contents) && data != [] && |contents| + |data| < U64_LIMIT
    ensures SysStep(s, Io(0, Write(data)), answer, s') && answer.Replied? && answer.reply == Done
    ensures Appending(s', fs', contents + data)
  {
    hide Refines, SysStep, FlatFile.Next;
    var request := Io(0, Write(data));
    answer, s' := FaultFreeRequest(s, fs, request);
    StepRefines(s, fs, request, answer, s');
    assert FlatFile.Allows(APPEND, fs.open[0].flat, Write(data), answer.reply);
    AppendsAtEnd(APPEND, fs.open[0].flat, data);
    fs' := PlainFs.Next(fs, request, answer);
    RefinesValid(s', fs');
    OpenBoth(s', fs');
  }

  lemma Rewound(s: Sys, fs: Fs, contents: bytes) returns (answer: Answer, s': Sys, fs': Fs)
    requires Appending(s, fs, contents)
    ensures SysStep(s, Io(0, Seek(0)), answer, s') && answer.Replied? && answer.reply == Done
    ensures Appending(s', fs', contents) && fs'.open[0].flat.position == 0
  {
    hide Refines, SysStep;
    var request := Io(0, Seek(0));
    answer, s' := FaultFreeRequest(s, fs, request);
    StepRefines(s, fs, request, answer, s');
    fs' := PlainFs.Next(fs, request, answer);
    RefinesValid(s', fs');
    OpenBoth(s', fs');
  }

  lemma AppendRun() returns (states: seq<Sys>, log: seq<Entry>, fs: Fs)
    ensures IsSysRun(states, log) && states[0] == Sys(map[], map[]) && |log| == 4
    ensures log[0] == Entry(Open(0, LOG, APPEND), Ok)
    ensures log[1].request == Io(0, Write([1])) && log[2].request == Io(0, Seek(0)) && log[3].request == Io(0, Write([2]))
    ensures forall n :: 1 <= n < 4 ==> log[n].answer.Replied? && log[n].answer.reply == Done
    ensures Appending(states[4], fs, [1, 2])
  {
    hide SysStep, Appending;
    var s1, fs1 := OpenedForAppend();
    var a2, s2, fs2 := Appended(s1, fs1, [], [1]);
    var a3, s3, fs3 := Rewound(s2, fs2, [] + [1]);
    var a4, s4, fs4 := Appended(s3, fs3, [] + [1], [2]);
    assert [] + [1] + [2] == [1, 2];
    states, fs := [Sys(map[], map[]), s1, s2, s3, s4], fs4;
    log := [Entry(Open(0, LOG, APPEND), Ok), Entry(Io(0, Write([1])), a2), Entry(Io(0, Seek(0)), a3), Entry(Io(0, Write([2])), a4)];
  }
}
