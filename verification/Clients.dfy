// Opening readers and writers lazily, one client per database, under a global
// and a per-database lock (rust/src/fs.rs:284-376). Calls of any number of
// threads interleave at every await; each step below is what happens between two.
module Clients {
  import opened Bytes
  import opened Keys
  import opened Routing

  type Thread = nat
  type Group = bytes

  // A client and the openings it came from.
  datatype Client = Client(readWrite: Option<nat>, reader: Option<nat>)

  const NO_CLIENT := Client(None, None)

  datatype Call =
    | ReadClient(path: Path)               // open for reading, existence check
    | WriteDb(path: Path, create: bool)    // open for writing, remove, move
  {
    function Group(): Group { DatabaseGroup(path) }
  }

  datatype Outcome =
    | Got(client: Client)
    | Failed(error: Error)

  // Where a call is. The last three hold the lock of the call's group.
  datatype Pc =
    | Idle
    | Finished(call: Call, outcome: Outcome)
    | Entered(call: Call)
    | Locked(call: Call)
    | OpeningReader(call: Call)
    | OpeningWriter(call: Call)
  {
    predicate HoldsLock() { Locked? || OpeningReader? || OpeningWriter? }
    predicate InFlight() { Entered? || HoldsLock() }
  }

  datatype Opening = Reader(group: Group) | Writer(group: Group)

  datatype State = State(
    closed: bool,
    databases: map<Group, Client>,
    locks: map<Group, Thread>,
    pcs: map<Thread, Pc>,        // absent threads are idle
    stored: set<Group>,          // the databases that exist in the object store
    log: seq<Opening>)           // every opening that ever succeeded
  {
    function At(t: Thread): Pc { if t in pcs then pcs[t] else Idle }
  }

  // A file system just opened, over whatever databases already exist.
  predicate Initial(s: State) {
    s == State(false, map[], map[], map[], s.stored, [])
  }

  // -------------------------------------------------------------------------
  // Steps

  datatype Step =
    | Begin(thread: Thread, call: Call)
    | Lock(thread: Thread)
    | Decide(thread: Thread)
    | ReaderOpens(thread: Thread, fault: bool)
    | WriterOpens(thread: Thread, fault: bool, created: bool)
    | Return(thread: Thread)
    | Close
    | Elsewhere(group: Group)    // another process creates a database

  function Goto(s: State, t: Thread, pc: Pc): State { s.(pcs := s.pcs[t := pc]) }

  // Leave the critical section with an outcome.
  function Finish(s: State, t: Thread, call: Call, outcome: Outcome): State {
    Goto(s, t, Finished(call, outcome)).(locks := s.locks - {call.Group()})
  }

  predicate Enabled(s: State, step: Step) {
    match step
    case Begin(t, _) => s.At(t).Idle?
    case Lock(t) => s.At(t).Entered? && s.At(t).call.Group() !in s.locks
    case Decide(t) => s.At(t).Locked? && s.At(t).call.Group() in s.databases
    case ReaderOpens(t, _) => s.At(t).OpeningReader? && s.At(t).call.Group() in s.databases
    case WriterOpens(t, fault, created) =>
      s.At(t).OpeningWriter? && s.At(t).call.Group() in s.databases && (created ==> fault)
    case Return(t) => s.At(t).Finished?
    // `close` takes the file system exclusively, so no call is in flight.
    case Close => forall t :: t in s.pcs ==> !s.pcs[t].InFlight()
    case Elsewhere(_) => true
  }

  function Decided(s: State, t: Thread, call: Call): State
    requires call.Group() in s.databases
  {
    var client := s.databases[call.Group()];
    match call
    case ReadClient(_) =>
      if client.readWrite.Some? || client.reader.Some? then Finish(s, t, call, Got(client))
      else Goto(s, t, OpeningReader(call))
    case WriteDb(_, create) =>
      if client.readWrite.Some? then Finish(s, t, call, Got(client))
      else if !create && client.reader.None? then Goto(s, t, OpeningReader(call))
      else Goto(s, t, OpeningWriter(call))
  }

  function ReaderOpened(s: State, t: Thread, call: Call, fault: bool): State
    requires call.Group() in s.databases
  {
    var g := call.Group();
    if fault then Finish(s, t, call, Failed(StoreFault))
    else if g !in s.stored then Finish(s, t, call, Failed(FileNotFound))
    else
      var client := s.databases[g].(reader := Some(|s.log|));
      var s' := s.(databases := s.databases[g := client], log := s.log + [Reader(g)]);
      match call
      case ReadClient(_) => Finish(s', t, call, Got(client))
      case WriteDb(_, _) => Goto(s', t, OpeningWriter(call))
  }

  // A failed opening may have created the database before it failed.
  function WriterOpened(s: State, t: Thread, call: Call, fault: bool, created: bool): State
    requires call.Group() in s.databases
  {
    var g := call.Group();
    if fault then Finish(s.(stored := if created then s.stored + {g} else s.stored), t, call, Failed(StoreFault))
    else
      var client := s.databases[g].(readWrite := Some(|s.log|));
      var s' := s.(databases := s.databases[g := client], log := s.log + [Writer(g)], stored := s.stored + {g});
      Finish(s', t, call, Got(client))
  }

  function Next(s: State, step: Step): State
    requires Enabled(s, step)
  {
    match step
    case Begin(t, call) =>
      if s.closed then Goto(s, t, Finished(call, Failed(InvalidArgument)))
      else
        var g := call.Group();
        Goto(s, t, Entered(call)).(databases := if g in s.databases then s.databases else s.databases[g := NO_CLIENT])
    case Lock(t) => Goto(s, t, Locked(s.At(t).call)).(locks := s.locks[s.At(t).call.Group() := t])
    case Decide(t) => Decided(s, t, s.At(t).call)
    case ReaderOpens(t, fault) => ReaderOpened(s, t, s.At(t).call, fault)
    case WriterOpens(t, fault, created) => WriterOpened(s, t, s.At(t).call, fault, created)
    case Return(t) => Goto(s, t, Idle)
    case Close => s.(closed := true, databases := map[])
    case Elsewhere(g) => s.(stored := s.stored + {g})
  }

  // -------------------------------------------------------------------------
  // The invariant

  // A lock is held by the one call that is past taking it.
  predicate LocksHeld(pcs: map<Thread, Pc>, locks: map<Group, Thread>) {
    && (forall t :: t in pcs && pcs[t].HoldsLock() ==> pcs[t].call.Group() in locks && locks[pcs[t].call.Group()] == t)
    && (forall g :: g in locks ==> locks[g] in pcs && pcs[locks[g]].HoldsLock() && pcs[locks[g]].call.Group() == g)
  }

  // What a call knows at each point of its critical section.
  predicate CallKnows(s: State, pc: Pc) {
    && (pc.InFlight() ==> !s.closed && pc.call.Group() in s.databases)
    && (pc.OpeningReader? ==>
          && s.databases[pc.call.Group()] == NO_CLIENT
          && (pc.call.WriteDb? ==> !pc.call.create))
    && (pc.OpeningWriter? ==>
          && pc.call.WriteDb?
          && s.databases[pc.call.Group()].readWrite.None?
          && (!pc.call.create ==> pc.call.Group() in s.stored))
  }

  // A client's openings are in the log, and its database exists.
  predicate ClientLogged(g: Group, client: Client, stored: set<Group>, log: seq<Opening>) {
    && (client.readWrite.Some? ==> client.readWrite.value < |log| && log[client.readWrite.value] == Writer(g) && g in stored)
    && (client.reader.Some? ==> client.reader.value < |log| && log[client.reader.value] == Reader(g) && g in stored)
  }

  // Until the file system is closed, every writer ever opened is its group's.
  predicate WritersInUse(databases: map<Group, Client>, log: seq<Opening>) {
    forall n :: 0 <= n < |log| && log[n].Writer? ==>
      log[n].group in databases && databases[log[n].group].readWrite == Some(n)
  }

  predicate OneWriterEach(log: seq<Opening>) {
    forall m, n :: 0 <= m < n < |log| && log[m].Writer? && log[n].Writer? ==> log[m].group != log[n].group
  }

  predicate Inv(s: State) {
    && LocksHeld(s.pcs, s.locks)
    && (forall t :: t in s.pcs ==> CallKnows(s, s.pcs[t]))
    && (forall g :: g in s.databases ==> ClientLogged(g, s.databases[g], s.stored, s.log))
    && (s.closed ==> s.databases == map[])
    && (!s.closed ==> WritersInUse(s.databases, s.log))
    && OneWriterEach(s.log)
  }

  lemma InitialInv(s: State)
    requires Initial(s)
    ensures Inv(s)
  {
  }

  // -------------------------------------------------------------------------
  // Locks

  lemma GotoKeepsLocks(pcs: map<Thread, Pc>, locks: map<Group, Thread>, t: Thread, pc: Pc)
    requires LocksHeld(pcs, locks)
    requires if t in pcs && pcs[t].HoldsLock() then pc.HoldsLock() && pc.call == pcs[t].call else !pc.HoldsLock()
    ensures LocksHeld(pcs[t := pc], locks)
  {
    hide DatabaseGroup;
  }

  lemma TakeKeepsLocks(pcs: map<Thread, Pc>, locks: map<Group, Thread>, t: Thread, call: Call)
    requires LocksHeld(pcs, locks) && !(t in pcs && pcs[t].HoldsLock()) && call.Group() !in locks
    ensures LocksHeld(pcs[t := Locked(call)], locks[call.Group() := t])
  {
    hide DatabaseGroup;
  }

  lemma FinishKeepsLocks(pcs: map<Thread, Pc>, locks: map<Group, Thread>, t: Thread, call: Call, outcome: Outcome)
    requires LocksHeld(pcs, locks) && t in pcs && pcs[t].HoldsLock() && pcs[t].call == call
    ensures LocksHeld(pcs[t := Finished(call, outcome)], locks - {call.Group()})
  {
    hide DatabaseGroup;
  }

  lemma StepKeepsLocks(s: State, step: Step)
    requires LocksHeld(s.pcs, s.locks) && Enabled(s, step)
    ensures LocksHeld(Next(s, step).pcs, Next(s, step).locks)
  {
    hide DatabaseGroup, LocksHeld;
    match step
    case Begin(t, call) =>
      GotoKeepsLocks(s.pcs, s.locks, t, Finished(call, Failed(InvalidArgument)));
      GotoKeepsLocks(s.pcs, s.locks, t, Entered(call));
    case Lock(t) => TakeKeepsLocks(s.pcs, s.locks, t, s.At(t).call);
    case Decide(t) =>
      var call := s.At(t).call;
      FinishKeepsLocks(s.pcs, s.locks, t, call, Got(s.databases[call.Group()]));
      GotoKeepsLocks(s.pcs, s.locks, t, OpeningReader(call));
      GotoKeepsLocks(s.pcs, s.locks, t, OpeningWriter(call));
    case ReaderOpens(t, fault) =>
      var call := s.At(t).call;
      var outcome := if fault then Failed(StoreFault) else if call.Group() !in s.stored then Failed(FileNotFound)
        else Got(s.databases[call.Group()].(reader := Some(|s.log|)));
      FinishKeepsLocks(s.pcs, s.locks, t, call, outcome);
      GotoKeepsLocks(s.pcs, s.locks, t, OpeningWriter(call));
    case WriterOpens(t, fault, _) =>
      var call := s.At(t).call;
      var outcome := if fault then Failed(StoreFault) else Got(s.databases[call.Group()].(readWrite := Some(|s.log|)));
      FinishKeepsLocks(s.pcs, s.locks, t, call, outcome);
    case Return(t) => GotoKeepsLocks(s.pcs, s.locks, t, Idle);
    case _ =>
  }

  predicate MovesThread(step: Step, t: Thread) {
    match step
    case Begin(u, _) => u == t
    case Lock(u) => u == t
    case Decide(u) => u == t
    case ReaderOpens(u, _) => u == t
    case WriterOpens(u, _, _) => u == t
    case Return(u) => u == t
    case _ => false
  }

  // While a call holds its group's lock, no step of another one moves it or
  // touches its client: the code under the lock runs as if alone.
  lemma LockIsolates(s: State, step: Step, t: Thread)
    requires LocksHeld(s.pcs, s.locks) && Enabled(s, step) && s.At(t).HoldsLock() && !MovesThread(step, t)
    requires s.At(t).call.Group() in s.databases
    ensures var g, s' := s.At(t).call.Group(), Next(s, step);
      s'.At(t) == s.At(t) && g in s'.databases && s'.databases[g] == s.databases[g] && g in s'.locks && s'.locks[g] == t
  {
    hide DatabaseGroup, LocksHeld;
    match step
    case Decide(u) => OneHolder(s, t, u);
    case ReaderOpens(u, _) => OneHolder(s, t, u);
    case WriterOpens(u, _, _) => OneHolder(s, t, u);
    case Lock(u) => OneHolder(s, t, t);
    case _ => OneHolder(s, t, t);
  }

  // Two calls past taking a lock are of different groups.
  lemma OneHolder(s: State, t: Thread, u: Thread)
    requires LocksHeld(s.pcs, s.locks) && s.At(t).HoldsLock() && s.At(u).HoldsLock()
    ensures s.At(t).call.Group() in s.locks && s.locks[s.At(t).call.Group()] == t
    ensures t != u ==> s.At(t).call.Group() != s.At(u).call.Group()
  {
    hide DatabaseGroup;
  }

  // -------------------------------------------------------------------------
  // Clients

  lemma LogGrows(g: Group, client: Client, stored: set<Group>, log: seq<Opening>, stored': set<Group>, entry: Opening)
    requires ClientLogged(g, client, stored, log) && stored <= stored'
    ensures ClientLogged(g, client, stored', log) && ClientLogged(g, client, stored', log + [entry])
  {
  }

  lemma StepKeepsClients(s: State, step: Step)
    requires Inv(s) && Enabled(s, step)
    ensures forall g :: g in Next(s, step).databases ==>
      ClientLogged(g, Next(s, step).databases[g], Next(s, step).stored, Next(s, step).log)
  {
    hide DatabaseGroup, LocksHeld, WritersInUse, OneWriterEach, CallKnows;
    var s' := Next(s, step);
    forall g | g in s'.databases ensures ClientLogged(g, s'.databases[g], s'.stored, s'.log) {
      if g in s.databases {
        LogGrows(g, s.databases[g], s.stored, s.log, s'.stored, Reader(g));
        if s'.log != s.log { LogGrows(g, s.databases[g], s.stored, s.log, s'.stored, s'.log[|s.log|]); }
      }
    }
  }

  lemma StepKeepsWriters(s: State, step: Step)
    requires Inv(s) && Enabled(s, step)
    ensures !Next(s, step).closed ==> WritersInUse(Next(s, step).databases, Next(s, step).log)
    ensures OneWriterEach(Next(s, step).log)
  {
    hide DatabaseGroup, LocksHeld, ClientLogged;
    if step.ReaderOpens? || step.WriterOpens? { assert CallKnows(s, s.At(step.thread)); }
  }

  // -------------------------------------------------------------------------
  // Calls

  // A call not moved by the step knows what it knew: its group's client is
  // behind its lock, and databases are never forgotten or deleted.
  lemma OtherCallKnows(s: State, step: Step, t: Thread)
    requires Inv(s) && Enabled(s, step) && t in s.pcs && !MovesThread(step, t)
    ensures Next(s, step).At(t) == s.pcs[t] && CallKnows(Next(s, step), s.pcs[t])
  {
    hide DatabaseGroup, LocksHeld, ClientLogged, WritersInUse, OneWriterEach;
    assert CallKnows(s, s.pcs[t]);
    if s.pcs[t].HoldsLock() { LockIsolates(s, step, t); }
  }

  lemma OwnCallKnows(s: State, step: Step, t: Thread)
    requires Inv(s) && Enabled(s, step) && MovesThread(step, t)
    ensures CallKnows(Next(s, step), Next(s, step).At(t))
  {
    hide DatabaseGroup, LocksHeld, WritersInUse, OneWriterEach;
    if t in s.pcs { assert CallKnows(s, s.pcs[t]); }
  }

  lemma StepKeepsInv(s: State, step: Step)
    requires Inv(s) && Enabled(s, step)
    ensures Inv(Next(s, step))
  {
    hide DatabaseGroup, LocksHeld, CallKnows, ClientLogged, WritersInUse, OneWriterEach;
    StepKeepsLocks(s, step);
    StepKeepsClients(s, step);
    StepKeepsWriters(s, step);
    var s' := Next(s, step);
    forall t | t in s'.pcs ensures CallKnows(s', s'.pcs[t]) {
      if MovesThread(step, t) { OwnCallKnows(s, step, t); } else { OtherCallKnows(s, step, t); }
    }
  }

  // -------------------------------------------------------------------------
  // Every interleaving

  predicate IsRun(states: seq<State>, steps: seq<Step>) {
    && |states| == |steps| + 1
    && Initial(states[0])
    && forall i :: 0 <= i < |steps| ==> Enabled(states[i], steps[i]) && states[i + 1] == Next(states[i], steps[i])
  }

  lemma {:induction false} RunKeepsInv(states: seq<State>, steps: seq<Step>)
    requires IsRun(states, steps)
    ensures Inv(states[|steps|])
    decreases |steps|
  {
    hide Enabled, Next, Inv;
    InitialInv(states[0]);
    if steps != [] {
      var n := |steps| - 1;
      assert IsRun(states[..n + 1], steps[..n]);
      RunKeepsInv(states[..n + 1], steps[..n]);
      StepKeepsInv(states[n], steps[n]);
    }
  }

  // In any interleaving a database's writer is opened at most once.
  lemma AtMostOneWriter(states: seq<State>, steps: seq<Step>)
    requires IsRun(states, steps)
    ensures OneWriterEach(states[|steps|].log)
  {
    RunKeepsInv(states, steps);
  }

  // A call that succeeds once its database has a writer is given that writer,
  // and every call that succeeds is given a writer or a reader.
  lemma SuccessServedByWriter(s: State, step: Step, t: Thread, call: Call, client: Client, n: nat)
    requires Inv(s) && Enabled(s, step) && s.At(t).InFlight()
    requires Next(s, step).At(t) == Finished(call, Got(client))
    ensures n < |s.log| && s.log[n] == Writer(call.Group()) ==> client.readWrite == Some(n)
    ensures client.readWrite.Some? || client.reader.Some?
    ensures call.WriteDb? ==> client.readWrite.Some?
  {
    hide DatabaseGroup, LocksHeld, ClientLogged, OneWriterEach;
    assert CallKnows(s, s.At(t));
  }

  // A writer is opened only by a call that asked for one.
  lemma OnlyWritesOpenWriters(s: State, step: Step, g: Group)
    requires Inv(s) && Enabled(s, step) && Next(s, step).log == s.log + [Writer(g)]
    ensures step.WriterOpens? && s.At(step.thread).call.WriteDb? && s.At(step.thread).call.Group() == g
  {
    hide DatabaseGroup, LocksHeld, ClientLogged, OneWriterEach, WritersInUse;
    assert Next(s, step).log[|s.log|] == Writer(g);
    if step.WriterOpens? { assert CallKnows(s, s.At(step.thread)); }
  }

  // Only a creating call brings a database into existence in this process.
  lemma OnlyCreatesCreate(s: State, step: Step, g: Group)
    requires Inv(s) && Enabled(s, step) && g !in s.stored && g in Next(s, step).stored
    ensures step == Elsewhere(g)
      || (step.WriterOpens? && s.At(step.thread).call.WriteDb?
          && s.At(step.thread).call.create && s.At(step.thread).call.Group() == g)
  {
    hide DatabaseGroup, LocksHeld, ClientLogged, OneWriterEach, WritersInUse;
    if step.WriterOpens? { assert CallKnows(s, s.At(step.thread)); }
  }

  // A closed file system opens nothing and forgets nothing, for ever.
  lemma {:induction false} ClosedOpensNothing(states: seq<State>, steps: seq<Step>, i: nat)
    requires IsRun(states, steps) && i <= |steps| && states[i].closed
    ensures states[|steps|].closed && states[|steps|].log == states[i].log
    decreases |steps|
  {
    if i < |steps| {
      var n := |steps| - 1;
      assert IsRun(states[..n + 1], steps[..n]);
      ClosedOpensNothing(states[..n + 1], steps[..n], i);
      RunKeepsInv(states[..n + 1], steps[..n]);
      ClosedStep(states[n], steps[n]);
    }
  }

  lemma ClosedStep(s: State, step: Step)
    requires Inv(s) && Enabled(s, step) && s.closed
    ensures Next(s, step).closed && Next(s, step).log == s.log
  {
    hide DatabaseGroup, LocksHeld, ClientLogged, OneWriterEach, WritersInUse;
    forall t | t in s.pcs ensures !s.pcs[t].InFlight() { assert CallKnows(s, s.pcs[t]); }
  }

  // The file is reported missing only when its database does not exist and no
  // client of it is open.
  lemma NotFoundMeansAbsent(s: State, step: Step, t: Thread, call: Call)
    requires Inv(s) && Enabled(s, step) && s.At(t).InFlight()
    requires Next(s, step).At(t) == Finished(call, Failed(FileNotFound))
    ensures call.Group() !in s.stored && call.Group() in s.databases && s.databases[call.Group()] == NO_CLIENT
    ensures call.WriteDb? ==> !call.create
  {
    hide DatabaseGroup, LocksHeld, ClientLogged, OneWriterEach, WritersInUse;
    assert CallKnows(s, s.At(t));
  }

  // And when a call has to look whether its database exists, and no fault keeps
  // it from seeing, it reports the file missing exactly when it does not.
  lemma AbsentIffNotFound(s: State, t: Thread)
    requires Inv(s) && Enabled(s, ReaderOpens(t, false))
    ensures var call := s.At(t).call;
      Next(s, ReaderOpens(t, false)).At(t) == Finished(call, Failed(FileNotFound)) <==> call.Group() !in s.stored
  {
    hide DatabaseGroup, Inv;
  }

  // -------------------------------------------------------------------------
  // Closing

  // Closing closes, for good: no client is left, and nothing is opened after.
  lemma CloseCloses(states: seq<State>, steps: seq<Step>, i: nat)
    requires IsRun(states, steps) && i < |steps| && steps[i] == Step.Close
    ensures states[i + 1].closed && states[i + 1].databases == map[]
    ensures states[|steps|].closed && states[|steps|].log == states[i].log
  {
    hide Enabled;
    ClosedOpensNothing(states, steps, i + 1);
  }

  // Every call begun after that is refused at once.
  lemma ClosedRefusesCalls(states: seq<State>, steps: seq<Step>, i: nat, j: nat, t: Thread, call: Call)
    requires IsRun(states, steps) && i < j < |steps| && steps[i] == Step.Close && steps[j] == Begin(t, call)
    ensures states[j + 1].At(t) == Finished(call, Failed(InvalidArgument))
  {
    hide Enabled;
    assert IsRun(states[..j + 1], steps[..j]);
    CloseCloses(states[..j + 1], steps[..j], i);
  }

  // And only a closed file system refuses: a call begun before is let in, and
  // ends with a client, a fault, or a missing database.
  lemma OnlyClosedRefuses(s: State, step: Step, t: Thread, call: Call)
    requires Inv(s) && Enabled(s, step) && !s.closed
    ensures step == Begin(t, call) ==> Next(s, step).At(t) == Entered(call)
    ensures s.At(t).InFlight() ==> !Next(s, step).At(t).Finished? || Next(s, step).At(t).outcome != Failed(InvalidArgument)
  {
    hide DatabaseGroup, LocksHeld, ClientLogged, WritersInUse, OneWriterEach;
  }

  // -------------------------------------------------------------------------
  // The database of a call

  // The file belongs to the database `d`: it is a companion of it, or `d`
  // itself, unless that is named like a companion of yet another one.
  predicate OfDatabase(path: Path, d: Path) {
    DatabaseName(d) && ((exists s :: s in COMPANION_SUFFIXES && path == d + s) || (path == d && !IsCompanion(d)))
  }

  // Calls on the files of a database ask for its client.
  lemma CallsOfDatabase(path: Path, d: Path, create: bool)
    requires OfDatabase(path, d)
    ensures ReadClient(path).Group() == d && WriteDb(path, create).Group() == d
  {
    if s :| s in COMPANION_SUFFIXES && path == d + s {
      CompanionsGrouped(d, s);
    } else {
      GroupByNone(d, COMPANION_SUFFIXES);
    }
  }

  lemma LogStep(s: State, step: Step)
    requires Enabled(s, step)
    ensures s.log <= Next(s, step).log
  {
    hide DatabaseGroup;
  }

  lemma {:induction false} LogKept(states: seq<State>, steps: seq<Step>, i: nat, j: nat)
    requires IsRun(states, steps) && i <= j <= |steps|
    ensures states[i].log <= states[j].log
    decreases j
  {
    hide Enabled, Next, Initial;
    if i < j {
      LogKept(states, steps, i, j - 1);
      LogStep(states[j - 1], steps[j - 1]);
    }
  }

  // A call on any file of a database opens that database's writer.
  lemma WriterOfDatabase(s: State, t: Thread, d: Path)
    requires Inv(s) && Enabled(s, WriterOpens(t, false, false)) && OfDatabase(s.At(t).call.path, d)
    ensures Next(s, WriterOpens(t, false, false)).log == s.log + [Writer(d)]
  {
    hide DatabaseGroup, LocksHeld, ClientLogged, WritersInUse, OneWriterEach, OfDatabase;
    assert CallKnows(s, s.At(t));
    CallsOfDatabase(s.At(t).call.path, d, s.At(t).call.create);
  }

  // And every later call on any other file of it that succeeds, reading or
  // writing, is given that same writer.
  lemma CompanionsServed(states: seq<State>, steps: seq<Step>, i: nat, j: nat, d: Path, u: Thread, client: Client)
    requires IsRun(states, steps) && i < j < |steps|
    requires steps[i].WriterOpens? && !steps[i].fault && OfDatabase(states[i].At(steps[i].thread).call.path, d)
    requires states[j].At(u).InFlight() && OfDatabase(states[j].At(u).call.path, d)
    requires states[j + 1].At(u) == Finished(states[j].At(u).call, Got(client))
    ensures client.readWrite == Some(|states[i].log|)
  {
    hide DatabaseGroup, LocksHeld, ClientLogged, WritersInUse, OneWriterEach, OfDatabase, CallKnows, Next, Initial;
    InvAt(states, steps, i);
    InvAt(states, steps, j);
    var call := states[j].At(u).call;
    assert Enabled(states[i], steps[i]) && Enabled(states[j], steps[j]);
    WriterOfDatabase(states[i], steps[i].thread, d);
    LogKept(states, steps, i + 1, j);
    CallsOfDatabase(call.path, d, false);
    CallsOfDatabase(call.path, d, true);
    assert states[j].log[|states[i].log|] == states[i + 1].log[|states[i].log|] == Writer(d);
    SuccessServedByWriter(states[j], steps[j], u, call, client, |states[i].log|);
  }

  lemma InvAt(states: seq<State>, steps: seq<Step>, i: nat)
    requires IsRun(states, steps) && i <= |steps|
    ensures Inv(states[i])
  {
    hide Enabled, Next, Inv;
    assert IsRun(states[..i + 1], steps[..i]);
    RunKeepsInv(states[..i + 1], steps[..i]);
  }
}
