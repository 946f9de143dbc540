// File ids over whole runs: an id is handed out once, and a file that lost its
// name never gets it back (rust/src/database_metadata.rs:149-160).
module FileIds {
  import opened Bytes
  import opened Catalog
  import opened CatalogEffects
  import opened FileFlags
  import opened FileHandle
  import opened FileRuns
  import opened FileSystem
  import opened FileSystemRuns
  import opened Images
  import opened Keys
  import opened KvStore
  import opened PlainFs

  // What no step ever undoes: the counter does not fall, a file without a name
  // gets none, and what is stored of it is not cleared away.
  ghost predicate Evolves(kv: Kv, kv': Kv) {
    && NextId(kv) <= NextId(kv')
    && forall f: u64 :: f < NextId(kv) && !Mapped(kv, f) ==>
         !Mapped(kv', f) && (ImageOf(kv, f) != NO_FILE ==> ImageOf(kv', f) != NO_FILE)
  }

  lemma EvolvesFurther(a: Kv, b: Kv, c: Kv)
    requires Evolves(a, b) && Evolves(b, c)
    ensures Evolves(a, c)
  {
    hide NextId, Mapped, ImageOf;
  }

  lemma RemoveEvolves(kv: Kv, path: Path, kv': Kv)
    requires Consistent(kv) && RemoveFile(kv, path) == Success(kv')
    ensures Evolves(kv, kv')
  {
    hide NextId, ImageOf, NameOf, RemoveFile, Consistent;
    ConsistentParts(kv);
    RemoveConsistent(kv, path, kv');
    RemoveEffect(kv, path, kv');
    forall f: u64 | !Mapped(kv, f) ensures !Mapped(kv', f) && ImageOf(kv', f) == ImageOf(kv, f) {
      assert NameOf(kv, path) != Some(f);
    }
  }

  lemma MoveEvolves(kv: Kv, source: Path, target: Path, kv': Kv)
    requires Consistent(kv) && source != target && MoveFile(kv, source, target) == Success(kv')
    ensures Evolves(kv, kv')
  {
    hide NextId, ImageOf, NameOf, MoveFile, Consistent;
    MoveConsistent(kv, source, target, kv');
    MoveEffect(kv, source, target, kv');
    forall f: u64 | !Mapped(kv, f) ensures !Mapped(kv', f) && ImageOf(kv', f) == ImageOf(kv, f) {
      assert NameOf(kv, source) != Some(f) && NameOf(kv, target) != Some(f);
    }
  }

  lemma PrepareEvolves(kv: Kv, path: Path, flags: Flags)
    requires Consistent(kv) && PrepareFileForOpen(kv, path, flags.create, flags.truncateExisting).Success?
    ensures Evolves(kv, PrepareFileForOpen(kv, path, flags.create, flags.truncateExisting).value.0)
  {
    hide NextId, ImageOf, NameOf, PrepareFileForOpen, Consistent;
    var (kv', id, m) := PrepareFileForOpen(kv, path, flags.create, flags.truncateExisting).value;
    PrepareCases(kv, path, flags, kv', id, m);
    forall f: u64 | f < NextId(kv) && !Mapped(kv, f) ensures !Mapped(kv', f) && ImageOf(kv', f) == ImageOf(kv, f) {
      assert NameOf(kv, path) != Some(f);
      assert f != id;
    }
  }

  lemma SyncEvolves(kv: Kv, h: Handle)
    requires Consistent(kv) && h.geometry.Valid() && h.fileId < NextId(kv)
    ensures Evolves(kv, Apply(kv, SyncBatch(h.fileId, h.pending, h.Record())))
  {
    hide NextId, ImageOf, NameOf, Consistent, Apply, SyncBatch;
    SyncEffect(kv, h);
    SyncRecordValid(kv, h);
  }

  lemma StepEvolves(s: Sys, fs: Fs, request: Request, answer: Answer, s': Sys)
    requires Refines(s, fs) && SysStep(s, request, answer, s')
    ensures Evolves(s.kv, s'.kv)
  {
    hide Evolves, NextId, FilesStored, HandleRefines, Exclusive, OneWriter, HandleStep, Consistent, RemoveFile, MoveFile,
      PrepareFileForOpen, OpenHandle, OpenForRead;
    EvolvesNot(s.kv);
    match request
    case Open(hid, path, flags) =>
      if flags.write && PrepareFileForOpen(s.kv, path, flags.create, flags.truncateExisting).Success? {
        PrepareEvolves(s.kv, path, flags);
      } else if !flags.write {
        ReadsChangeNothing(s, hid, path, flags, answer, s');
      }
    case Remove(path) =>
      if RemoveFile(s.kv, path).Success? { RemoveEvolves(s.kv, path, RemoveFile(s.kv, path).value); }
    case Move(source, target) =>
      MoveToSelf(s.kv, source);
      if source != target && MoveFile(s.kv, source, target).Success? {
        MoveEvolves(s.kv, source, target, MoveFile(s.kv, source, target).value);
      }
    case Io(hid, op) =>
      StepTouches(s.kv, s.handles[hid], op, answer.reply, s'.kv, s'.handles[hid]);
      SyncEvolves(s.kv, s.handles[hid]);
    case _ =>
  }

  lemma EvolvesNot(kv: Kv)
    ensures Evolves(kv, kv)
  {
    hide NextId, Mapped, ImageOf;
  }

  lemma MoveToSelf(kv: Kv, path: Path)
    ensures MoveFile(kv, path, path) == if path == [] then Failure(InvalidArgument) else Success(kv)
  {
  }

  // A new file gets an id above that of every file any open handle ever had,
  // and under which nothing is stored.
  lemma CreatedIdIsFresh(s: Sys, fs: Fs, hid: nat, path: Path, flags: Flags, answer: Answer, s': Sys)
    requires Refines(s, fs) && SysStep(s, Open(hid, path, flags), answer, s')
    requires path !in fs.files && NameOf(s'.kv, path).Some?
    ensures var id := NameOf(s'.kv, path).value;
      && id == NextId(s.kv) < NextId(s'.kv)
      && ImageOf(s.kv, id) == NO_FILE
      && (forall h :: h in s.handles ==> s.handles[h].fileId < id)
      && !Mapped(s.kv, id)
  {
    hide NextId, HandleRefines, Exclusive, ImageShows, PrepareFileForOpen, OpenHandle, ImageOf, NameOf, OpenForRead, Consistent;
    ConsistentParts(s.kv);
    var spec := PrepareFileForOpen(s.kv, path, flags.create, flags.truncateExisting);
    if spec.Success? { PrepareCases(s.kv, path, flags, spec.value.0, spec.value.1, spec.value.2); }
    if !flags.write { ReadsChangeNothing(s, hid, path, flags, answer, s'); }
  }

  lemma ReadsChangeNothing(s: Sys, hid: nat, path: Path, flags: Flags, answer: Answer, s': Sys)
    requires SysStep(s, Open(hid, path, flags), answer, s') && !flags.write
    ensures s'.kv == s.kv
  {
    hide OpenHandle, Catalog.OpenFile;
  }

  // -------------------------------------------------------------------------
  // Over runs

  // Every state of a run refines what the plain file system has there.
  lemma RefinesAt(states: seq<Sys>, log: seq<Entry>, fs: Fs, n: nat)
    requires IsSysRun(states, log) && Refines(states[0], fs) && n <= |log|
    ensures fs.Valid() && Replay(fs, log[..n]).Some? && Refines(states[n], Replay(fs, log[..n]).value)
  {
    hide Refines, SysStep;
    assert IsSysRun(states[..n + 1], log[..n]);
    RunRefinesPlainFs(states[..n + 1], log[..n], fs);
  }

  lemma {:induction false} RunEvolves(states: seq<Sys>, log: seq<Entry>, fs: Fs, i: nat, j: nat)
    requires IsSysRun(states, log) && Refines(states[0], fs) && i <= j <= |log|
    ensures Evolves(states[i].kv, states[j].kv)
    decreases j - i
  {
    hide Refines, SysStep, Evolves;
    if i == j {
      EvolvesNot(states[i].kv);
    } else {
      RunEvolves(states, log, fs, i, j - 1);
      RefinesAt(states, log, fs, j - 1);
      StepEvolves(states[j - 1], Replay(fs, log[..j - 1]).value, log[j - 1].request, log[j - 1].answer, states[j]);
      EvolvesFurther(states[i].kv, states[j - 1].kv, states[j].kv);
    }
  }

  // A file that lost its last name has none at any later point of the run.
  lemma UnnamedStaysUnnamed(states: seq<Sys>, log: seq<Entry>, fs: Fs, i: nat, j: nat, f: u64)
    requires IsSysRun(states, log) && Refines(states[0], fs) && i <= j <= |log|
    requires f < NextId(states[i].kv) && !Mapped(states[i].kv, f)
    ensures !Mapped(states[j].kv, f)
  {
    hide Refines, SysStep, Mapped, NextId, ImageOf;
    RunEvolves(states, log, fs, i, j);
  }

  // The entry brought a path into being.
  ghost predicate Creates(states: seq<Sys>, log: seq<Entry>, n: nat, path: Path)
    requires n < |log| && |states| == |log| + 1
  {
    && log[n].request.Open? && log[n].request.path == path
    && NameOf(states[n].kv, path).None? && NameOf(states[n + 1].kv, path).Some?
  }

  lemma CreatedId(states: seq<Sys>, log: seq<Entry>, fs: Fs, n: nat, path: Path)
    requires IsSysRun(states, log) && Refines(states[0], fs) && n < |log| && Creates(states, log, n, path)
    ensures NameOf(states[n + 1].kv, path).value == NextId(states[n].kv) < NextId(states[n + 1].kv)
  {
    hide SysStep, NextId, NameOf, Consistent, HandlesRefine, Exclusive, OneWriter, ImageShows, ImageOf;
    RefinesAt(states, log, fs, n);
    var Open(hid, _, flags) := log[n].request;
    CreatedIdIsFresh(states[n], Replay(fs, log[..n]).value, hid, path, flags, log[n].answer, states[n + 1]);
  }

  // No id is ever handed out twice: of any two files created in a run the later
  // one has the larger id, whatever was removed, moved or lost in between.
  lemma IdsNeverReused(states: seq<Sys>, log: seq<Entry>, fs: Fs, i: nat, j: nat, p: Path, q: Path)
    requires IsSysRun(states, log) && Refines(states[0], fs) && i < j < |log|
    requires Creates(states, log, i, p) && Creates(states, log, j, q)
    ensures NameOf(states[i + 1].kv, p).value < NameOf(states[j + 1].kv, q).value
  {
    hide Refines, SysStep, NextId, NameOf, Mapped, ImageOf;
    CreatedId(states, log, fs, i, p);
    CreatedId(states, log, fs, j, q);
    RunEvolves(states, log, fs, i + 1, j);
  }

  lemma ReachableIdsNeverReused(states: seq<Sys>, log: seq<Entry>, i: nat, j: nat, p: Path, q: Path)
    requires IsSysRun(states, log) && states[0] == Sys(map[], map[]) && i < j < |log|
    requires Creates(states, log, i, p) && Creates(states, log, j, q)
    ensures NameOf(states[i + 1].kv, p).value < NameOf(states[j + 1].kv, q).value
  {
    hide Refines, SysStep, NameOf;
    InitRefines();
    IdsNeverReused(states, log, Fs(map[], map[]), i, j, p, q);
  }
}
