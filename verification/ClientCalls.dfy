// The file system object whose calls the client state machine interleaves, one
// call at a time (rust/src/fs.rs:284-376): each method is a solo run of the machine.
module ClientCalls {
  import opened Bytes
  import opened Clients
  import opened Keys
  import opened Routing

  // What the object store answers the openings of one call.
  datatype Answers = Answers(readerFault: bool, writerFault: bool, created: bool)

  // The code under the lock, from the decision on.
  function Section(s: State, t: Thread, call: Call, a: Answers): State
    requires call.Group() in s.databases
  {
    var decided := Decided(s, t, call);
    if decided.At(t).Finished? then decided
    else
      var after := if decided.At(t).OpeningReader? then ReaderOpened(decided, t, call, a.readerFault) else decided;
      if after.At(t).Finished? then after
      else WriterOpened(after, t, call, a.writerFault, a.writerFault && a.created)
  }

  // A call with nothing else going on.
  function Solo(s: State, t: Thread, call: Call, a: Answers): State {
    var begun := Next(s.(pcs := map[], locks := map[]), Begin(t, call));
    if begun.At(t).Finished? then begun else Section(Next(begun, Lock(t)), t, call, a)
  }

  // A solo call is a run of the machine: whatever every interleaving keeps, it keeps.
  lemma SoloKeepsInv(s: State, t: Thread, call: Call, a: Answers)
    requires Inv(s) && s.pcs == map[] && s.locks == map[]
    ensures Inv(Solo(s, t, call, a)) && Solo(s, t, call, a).At(t).Finished? && Solo(s, t, call, a).locks == map[]
  {
    hide DatabaseGroup, Inv;
    var begun := Next(s, Begin(t, call));
    StepKeepsInv(s, Begin(t, call));
    if !begun.At(t).Finished? {
      var locked := Next(begun, Lock(t));
      StepKeepsInv(begun, Lock(t));
      SectionKeepsInv(locked, t, call, a);
    }
  }

  // Where each part of the section leaves the call: finished without the lock,
  // or further on with it.
  predicate LeftAt(before: State, after: State, t: Thread, call: Call) {
    || (after.At(t).Finished? && after.locks == before.locks - {call.Group()})
    || (after.At(t) in {OpeningReader(call), OpeningWriter(call)}
        && after.locks == before.locks && call.Group() in after.databases)
  }

  lemma SectionParts(s: State, t: Thread, call: Call, fault: bool, created: bool)
    requires call.Group() in s.databases
    ensures LeftAt(s, Decided(s, t, call), t, call)
    ensures LeftAt(s, ReaderOpened(s, t, call, fault), t, call) && ReaderOpened(s, t, call, fault).At(t) != OpeningReader(call)
    ensures WriterOpened(s, t, call, fault, created).At(t).Finished?
    ensures WriterOpened(s, t, call, fault, created).locks == s.locks - {call.Group()}
  {
    hide DatabaseGroup;
  }

  lemma SectionKeepsInv(s: State, t: Thread, call: Call, a: Answers)
    requires Inv(s) && s.At(t) == Locked(call) && call.Group() in s.databases && s.locks == map[call.Group() := t]
    ensures Inv(Section(s, t, call, a)) && Section(s, t, call, a).At(t).Finished? && Section(s, t, call, a).locks == map[]
  {
    hide DatabaseGroup, Inv, Decided, ReaderOpened, WriterOpened;
    var created := a.writerFault && a.created;
    SectionParts(s, t, call, a.readerFault, created);
    StepKeepsInv(s, Decide(t));
    var now := Decided(s, t, call);
    if now.At(t).OpeningReader? {
      SectionParts(now, t, call, a.readerFault, created);
      StepKeepsInv(now, ReaderOpens(t, a.readerFault));
      now := ReaderOpened(now, t, call, a.readerFault);
    }
    if now.At(t).OpeningWriter? {
      SectionParts(now, t, call, a.writerFault, created);
      StepKeepsInv(now, WriterOpens(t, a.writerFault, created));
    }
    assert map[call.Group() := t] - {call.Group()} == map[];
  }

  // How a solo call ends: its group's client, what was opened and stored.
  function Ended(s: State, t: Thread, call: Call, client: Client, log: seq<Opening>, stored: set<Group>, outcome: Outcome): State {
    State(s.closed, s.databases[call.Group() := client], map[], map[t := Finished(call, outcome)], stored, log)
  }

  // A solo call inside its critical section, at `pc`.
  function Inside(s: State, t: Thread, client: Client, log: seq<Opening>, stored: set<Group>, pc: Pc): State
    requires pc.HoldsLock()
  {
    var g := pc.call.Group();
    State(s.closed, s.databases[g := client], map[g := t], map[t := pc], stored, log)
  }

  lemma EnterInside(s: State, t: Thread, call: Call)
    requires !s.closed && s.pcs == map[] && s.locks == map[]
    ensures var g := call.Group();
      var client := if g in s.databases then s.databases[g] else NO_CLIENT;
      Next(Next(s, Begin(t, call)), Lock(t)) == Inside(s, t, client, s.log, s.stored, Locked(call))
  {
    hide DatabaseGroup;
  }

  lemma FinishInside(s: State, t: Thread, client: Client, log: seq<Opening>, stored: set<Group>, pc: Pc, outcome: Outcome)
    requires pc.HoldsLock()
    ensures Finish(Inside(s, t, client, log, stored, pc), t, pc.call, outcome) == Ended(s, t, pc.call, client, log, stored, outcome)
  {
    hide DatabaseGroup;
    assert map[pc.call.Group() := t] - {pc.call.Group()} == map[];
  }

  lemma ReaderInside(s: State, t: Thread, client: Client, call: Call, fault: bool)
    ensures var g := call.Group();
      var now := Inside(s, t, client, s.log, s.stored, OpeningReader(call));
      var client' := client.(reader := Some(|s.log|));
      ReaderOpened(now, t, call, fault) ==
        if fault then Ended(s, t, call, client, s.log, s.stored, Failed(StoreFault))
        else if g !in s.stored then Ended(s, t, call, client, s.log, s.stored, Failed(FileNotFound))
        else if call.ReadClient? then Ended(s, t, call, client', s.log + [Reader(g)], s.stored, Got(client'))
        else Inside(s, t, client', s.log + [Reader(g)], s.stored, OpeningWriter(call))
  {
    hide DatabaseGroup;
    var client' := client.(reader := Some(|s.log|));
    var pc := OpeningReader(call);
    FinishInside(s, t, client, s.log, s.stored, pc, Failed(StoreFault));
    FinishInside(s, t, client, s.log, s.stored, pc, Failed(FileNotFound));
    FinishInside(s, t, client', s.log + [Reader(call.Group())], s.stored, pc, Got(client'));
    hide Finish, Ended;
  }

  lemma WriterInside(s: State, t: Thread, client: Client, log: seq<Opening>, call: Call, fault: bool, created: bool)
    ensures var g := call.Group();
      var now := Inside(s, t, client, log, s.stored, OpeningWriter(call));
      var client' := client.(readWrite := Some(|log|));
      WriterOpened(now, t, call, fault, created) ==
        if fault then Ended(s, t, call, client, log, if created then s.stored + {g} else s.stored, Failed(StoreFault))
        else Ended(s, t, call, client', log + [Writer(g)], s.stored + {g}, Got(client'))
  {
    hide DatabaseGroup;
    var client' := client.(readWrite := Some(|log|));
    var pc := OpeningWriter(call);
    if fault {
      FinishInside(s, t, client, log, if created then s.stored + {call.Group()} else s.stored, pc, Failed(StoreFault));
    } else {
      FinishInside(s, t, client', log + [Writer(call.Group())], s.stored + {call.Group()}, pc, Got(client'));
    }
    hide Finish, Ended;
  }

  lemma DecideInside(s: State, t: Thread, client: Client, call: Call)
    ensures var now := Inside(s, t, client, s.log, s.stored, Locked(call));
      Decided(now, t, call) ==
        if client.readWrite.Some? || (call.ReadClient? && client.reader.Some?) then
          Ended(s, t, call, client, s.log, s.stored, Got(client))
        else if client.reader.None? && (call.ReadClient? || !call.create) then
          Inside(s, t, client, s.log, s.stored, OpeningReader(call))
        else Inside(s, t, client, s.log, s.stored, OpeningWriter(call))
  {
    hide DatabaseGroup;
    FinishInside(s, t, client, s.log, s.stored, Locked(call), Got(client));
    hide Finish, Ended;
  }

  // A solo call, spelled out.
  function SoloEnd(s: State, t: Thread, call: Call, a: Answers): State {
    var g := call.Group();
    var client := if g in s.databases then s.databases[g] else NO_CLIENT;
    var fetch := client.reader.None? && (call.ReadClient? || !call.create);
    var client' := if fetch then client.(reader := Some(|s.log|)) else client;
    var log := if fetch then s.log + [Reader(g)] else s.log;
    var client'' := client'.(readWrite := Some(|log|));
    if s.closed then s.(pcs := map[t := Finished(call, Failed(InvalidArgument))], locks := map[])
    else if client.readWrite.Some? || (call.ReadClient? && client.reader.Some?) then
      Ended(s, t, call, client, s.log, s.stored, Got(client))
    else if fetch && a.readerFault then Ended(s, t, call, client, s.log, s.stored, Failed(StoreFault))
    else if fetch && g !in s.stored then Ended(s, t, call, client, s.log, s.stored, Failed(FileNotFound))
    else if call.ReadClient? then Ended(s, t, call, client', log, s.stored, Got(client'))
    else if a.writerFault then
      Ended(s, t, call, client', log, if a.created then s.stored + {g} else s.stored, Failed(StoreFault))
    else Ended(s, t, call, client'', log + [Writer(g)], s.stored + {g}, Got(client''))
  }

  lemma WhereItIs(s: State, t: Thread, client: Client, log: seq<Opening>, stored: set<Group>, call: Call)
    ensures forall outcome :: Ended(s, t, call, client, log, stored, outcome).At(t) == Finished(call, outcome)
    ensures forall pc: Pc :: pc.HoldsLock() ==>
      Inside(s, t, client, log, stored, pc).At(t) == pc && pc.call.Group() in Inside(s, t, client, log, stored, pc).databases
  {
    hide DatabaseGroup;
  }

  // The call has to find out first whether its database exists.
  predicate Probes(call: Call, client: Client) { client.reader.None? && (call.ReadClient? || !call.create) }

  lemma SectionProbes(s: State, t: Thread, call: Call, client: Client, a: Answers)
    requires !s.closed && client == if call.Group() in s.databases then s.databases[call.Group()] else NO_CLIENT
    requires Probes(call, client)
    ensures call.Group() in Inside(s, t, client, s.log, s.stored, Locked(call)).databases
    ensures Section(Inside(s, t, client, s.log, s.stored, Locked(call)), t, call, a) == SoloEnd(s, t, call, a)
  {
    var client' := client.(reader := Some(|s.log|));
    var log' := s.log + [Reader(call.Group())];
    WhereItIs(s, t, client, s.log, s.stored, call);
    WhereItIs(s, t, client', log', s.stored, call);
    hide DatabaseGroup, Decided, ReaderOpened, WriterOpened, Inside, Ended;
    DecideInside(s, t, client, call);
    ReaderInside(s, t, client, call, a.readerFault);
    WriterInside(s, t, client', log', call, a.writerFault, a.writerFault && a.created);
  }

  lemma SectionEndsSo(s: State, t: Thread, call: Call, client: Client, a: Answers)
    requires !s.closed && client == if call.Group() in s.databases then s.databases[call.Group()] else NO_CLIENT
    ensures call.Group() in Inside(s, t, client, s.log, s.stored, Locked(call)).databases
    ensures Section(Inside(s, t, client, s.log, s.stored, Locked(call)), t, call, a) == SoloEnd(s, t, call, a)
  {
    if Probes(call, client) {
      SectionProbes(s, t, call, client, a);
    } else {
      WhereItIs(s, t, client, s.log, s.stored, call);
      hide DatabaseGroup, Decided, ReaderOpened, WriterOpened, Inside, Ended;
      DecideInside(s, t, client, call);
      WriterInside(s, t, client, s.log, call, a.writerFault, a.writerFault && a.created);
    }
  }

  lemma SoloEndsSo(s: State, t: Thread, call: Call, a: Answers)
    requires s.pcs == map[] && s.locks == map[]
    ensures Solo(s, t, call, a) == SoloEnd(s, t, call, a)
  {
    hide DatabaseGroup;
    if !s.closed {
      var client := if call.Group() in s.databases then s.databases[call.Group()] else NO_CLIENT;
      EnterInside(s, t, call);
      SectionEndsSo(s, t, call, client, a);
      hide SoloEnd, Section, Inside;
    }
  }

  // A solo write call, when the file system is open and has no writer yet: what
  // the probe finds, and then the opening of the writer.
  lemma SoloWrite(s: State, path: Path, create: bool, a: Answers)
    requires s.pcs == map[] && s.locks == map[] && !s.closed
    ensures var call := Call.WriteDb(path, create);
      var g := DatabaseGroup(path);
      var client := ClientOf(s.databases, g);
      var probes := client.reader.None? && !create;
      var client' := if probes then client.(reader := Some(|s.log|)) else client;
      var log := if probes then s.log + [Reader(g)] else s.log;
      Solo(s, 0, call, a) ==
        if client.readWrite.Some? then Ended(s, 0, call, client, s.log, s.stored, Got(client))
        else if probes && a.readerFault then Ended(s, 0, call, client, s.log, s.stored, Failed(StoreFault))
        else if probes && g !in s.stored then Ended(s, 0, call, client, s.log, s.stored, Failed(FileNotFound))
        else if a.writerFault then
          Ended(s, 0, call, client', log, if a.created then s.stored + {g} else s.stored, Failed(StoreFault))
        else
          var writer := client'.(readWrite := Some(|log|));
          Ended(s, 0, call, writer, log + [Writer(g)], s.stored + {g}, Got(writer))
  {
    hide DatabaseGroup, Solo, Ended;
    SoloEndsSo(s, 0, Call.WriteDb(path, create), a);
  }

  // The object store, as far as openings go: which databases exist, and what
  // was opened on them. Any opening may fail.
  class ObjectStore {
    var stored: set<Group>
    var log: seq<Opening>

    // How many openings have failed.
    ghost var faults: nat

    constructor (existing: set<Group>)
      ensures stored == existing && log == []
    {
      stored, log, faults := existing, [], 0;
    }

    // Any opening may fail.
    method Fails() returns (failed: bool)
      modifies this`faults
      ensures faults == old(faults) + if failed then 1 else 0
    {
      if * {
        faults := faults + 1;
        return true;
      }
      return false;
    }

    // None when the database has never been written.
    method OpenReader(group: Group) returns (r: Result<Option<nat>>)
      modifies this`log, this`faults
      ensures faults == old(faults) + if r.Failure? then 1 else 0
      ensures r.Failure? ==> r.error == StoreFault && log == old(log)
      ensures r.Success? ==> (r.value.Some? <==> group in stored)
      ensures r.Success? && r.value.Some? ==> r.value.value == |old(log)| && log == old(log) + [Reader(group)]
      ensures r.Success? && r.value.None? ==> log == old(log)
    {
      var failed := Fails();
      if failed { return Failure(StoreFault); }
      if group !in stored { return Success(None); }
      log := log + [Reader(group)];
      return Success(Some(|log| - 1));
    }

    method OpenWriter(group: Group) returns (r: Result<nat>)
      modifies this
      ensures faults == old(faults) + if r.Failure? then 1 else 0
      ensures r.Failure? ==> r.error == StoreFault && log == old(log) && old(stored) <= stored <= old(stored) + {group}
      ensures r.Success? ==>
        r.value == |old(log)| && log == old(log) + [Writer(group)] && stored == old(stored) + {group}
    {
      var failed := Fails();
      if failed { return Failure(StoreFault); }
      stored := stored + {group};
      failed := Fails();
      if failed { return Failure(StoreFault); }
      log := log + [Writer(group)];
      return Success(|log| - 1);
    }
  }

  // A solo write call that succeeds has a writer.
  lemma WriteSucceedsWithWriter(s: State, path: Path, a: Answers, client: Client)
    requires s.pcs == map[] && s.locks == map[]
    requires Solo(s, 0, Call.WriteDb(path, false), a).At(0) == Finished(Call.WriteDb(path, false), Got(client))
    ensures client.readWrite.Some?
  {
    hide DatabaseGroup, Solo;
    SoloEndsSo(s, 0, Call.WriteDb(path, false), a);
  }

  lemma SoloClosed(s: State, call: Call, a: Answers)
    requires s.pcs == map[] && s.locks == map[] && s.closed
    ensures Solo(s, 0, call, a) == s.(pcs := map[0 := Finished(call, Failed(InvalidArgument))])
  {
    hide DatabaseGroup;
  }

  function ClientOf(databases: map<Group, Client>, group: Group): Client {
    if group in databases then databases[group] else NO_CLIENT
  }

  class SlateDbFileSystem {
    const objects: ObjectStore
    var closed: bool
    var databases: map<Group, Client>

    // The machine's state while no call is in flight.
    ghost function Quiet(): State
      reads this, objects
    {
      State(closed, databases, map[], map[], objects.stored, objects.log)
    }

    constructor (objects: ObjectStore)
      requires objects.log == []
      ensures this.objects == objects && Initial(Quiet())
    {
      this.objects, closed, databases := objects, false, map[];
    }

    method ClientForGroup(group: Group) returns (client: Client)
      modifies this`databases
      ensures databases == if group in old(databases) then old(databases) else old(databases)[group := NO_CLIENT]
      ensures client == databases[group]
    {
      if group !in databases { databases := databases[group := NO_CLIENT]; }
      client := databases[group];
    }

    // Open a reader for the group's client; a database never written is a
    // missing file.
    method OpenReaderOf(group: Group, client: Client) returns (r: Result<Client>)
      requires group in databases && databases[group] == client
      modifies this`databases, objects`log, objects`faults
      ensures databases == old(databases)[group := if r.Success? then r.value else client]
      ensures r.Success? ==>
        group in objects.stored && r.value == client.(reader := Some(|old(objects.log)|)) && objects.log == old(objects.log) + [Reader(group)]
      ensures r.Failure? ==> objects.log == old(objects.log) && (r.error == StoreFault || r.error == FileNotFound)
      ensures r == Failure(StoreFault) <==> objects.faults != old(objects.faults)
      ensures r == Failure(FileNotFound) ==> group !in objects.stored
    {
      var reader := objects.OpenReader(group);
      if reader.Failure? { return Failure(reader.error); }
      if reader.value.None? { return Failure(FileNotFound); }
      var reading := client.(reader := reader.value);
      databases := databases[group := reading];
      return Success(reading);
    }

    method ReadClient(path: Path) returns (outcome: Outcome, ghost a: Answers)
      modifies this, objects
      ensures Solo(old(Quiet()), 0, Call.ReadClient(path), a)
        == Quiet().(pcs := map[0 := Finished(Call.ReadClient(path), outcome)])
      ensures closed == old(closed) && (closed ==> outcome == Failed(InvalidArgument))
      ensures outcome == Failed(StoreFault) <==> objects.faults != old(objects.faults)
      ensures !closed && objects.faults == old(objects.faults) ==>
        var was := ClientOf(old(databases), DatabaseGroup(path));
        if was != NO_CLIENT then outcome == Got(was)
        else if DatabaseGroup(path) in objects.stored then outcome == Got(NO_CLIENT.(reader := Some(|old(objects.log)|)))
        else outcome == Failed(FileNotFound)
      ensures outcome.Got? ==> ClientOf(databases, DatabaseGroup(path)) == outcome.client
      ensures forall g :: g != DatabaseGroup(path) ==> ClientOf(databases, g) == ClientOf(old(databases), g)
    {
      hide DatabaseGroup, Solo;
      forall answers: Answers { SoloEndsSo(Quiet(), 0, Call.ReadClient(path), answers); }
      a := Answers(true, true, false);
      if closed { return Failed(InvalidArgument), a; }
      var group := DatabaseGroup(path);
      var client := ClientForGroup(group);
      if client.readWrite.Some? || client.reader.Some? { return Got(client), a; }
      var reading := OpenReaderOf(group, client);
      if reading == Failure(StoreFault) { return Failed(StoreFault), a; }
      a := a.(readerFault := false);
      if reading.Failure? { return Failed(FileNotFound), a; }
      return Got(reading.value), a;
    }

    method WriteDb(path: Path, create: bool) returns (outcome: Outcome, ghost a: Answers)
      modifies this, objects
      ensures Solo(old(Quiet()), 0, Call.WriteDb(path, create), a)
        == Quiet().(pcs := map[0 := Finished(Call.WriteDb(path, create), outcome)])
      ensures closed == old(closed) && (closed ==> outcome == Failed(InvalidArgument))
      ensures outcome == Failed(StoreFault) <==> objects.faults != old(objects.faults)
      ensures !closed && objects.faults == old(objects.faults) ==>
        var was := ClientOf(old(databases), DatabaseGroup(path));
        if !create && was == NO_CLIENT && DatabaseGroup(path) !in old(objects.stored) then outcome == Failed(FileNotFound)
        else outcome.Got? && outcome.client.readWrite.Some? && (was.readWrite.Some? ==> outcome == Got(was))
      ensures outcome.Got? ==> ClientOf(databases, DatabaseGroup(path)) == outcome.client
      ensures forall g :: g != DatabaseGroup(path) ==> ClientOf(databases, g) == ClientOf(old(databases), g)
    {
      hide DatabaseGroup, Solo, SoloEnd, Next, Enabled;
      a := Answers(true, true, false);
      if !closed {
        forall answers: Answers { SoloWrite(Quiet(), path, create, answers); }
      } else {
        SoloClosed(Quiet(), Call.WriteDb(path, create), a);
      }
      if closed { return Failed(InvalidArgument), a; }
      var group := DatabaseGroup(path);
      var client := ClientForGroup(group);
      if client.readWrite.Some? { return Got(client), a; }
      if !create && client.reader.None? {
        var reading := OpenReaderOf(group, client);
        if reading == Failure(StoreFault) { return Failed(StoreFault), a; }
        a := a.(readerFault := false);
        if reading.Failure? { return Failed(FileNotFound), a; }
        client := reading.value;
      }
      ghost var before := objects.stored;
      var db := objects.OpenWriter(group);
      if db.Failure? { return Failed(db.error), a.(created := objects.stored != before); }
      client := client.(readWrite := Some(db.value));
      databases := databases[group := client];
      return Got(client), a.(writerFault := false);
    }

    // Where a move is carried out: files of different databases are refused
    // before anything is opened, and others are in one database.
    method MoveClient(source: Path, target: Path) returns (outcome: Outcome)
      modifies this, objects
      ensures DatabaseGroup(source) != DatabaseGroup(target) ==>
        outcome == Failed(InvalidArgument) && Quiet() == old(Quiet()) && objects.faults == old(objects.faults)
      ensures closed == old(closed) && (closed ==> outcome == Failed(InvalidArgument))
      ensures outcome == Failed(StoreFault) <==> objects.faults != old(objects.faults)
      ensures outcome.Got? ==>
        && ClientOf(databases, DatabaseGroup(source)) == ClientOf(databases, DatabaseGroup(target)) == outcome.client
        && outcome.client.readWrite.Some?
      ensures !closed && objects.faults == old(objects.faults) && DatabaseGroup(source) == DatabaseGroup(target) ==>
        if ClientOf(old(databases), DatabaseGroup(source)) == NO_CLIENT && DatabaseGroup(source) !in old(objects.stored)
        then outcome == Failed(FileNotFound) else outcome.Got?
    {
      hide DatabaseGroup, Solo;
      if DatabaseGroup(source) != DatabaseGroup(target) { return Failed(InvalidArgument); }
      ghost var a;
      outcome, a := WriteDb(source, false);
      if outcome.Got? { WriteSucceedsWithWriter(old(Quiet()), source, a, outcome.client); }
    }

    // Where a file is looked up: in no database when its database does not exist.
    method ExistenceClient(path: Path) returns (r: Result<Option<Client>>)
      modifies this, objects
      ensures old(closed) ==> r == Failure(InvalidArgument)
      ensures r == Failure(StoreFault) <==> objects.faults != old(objects.faults)
      ensures !old(closed) && objects.faults == old(objects.faults) ==>
        && r.Success?
        && (r.value == None <==>
              ClientOf(old(databases), DatabaseGroup(path)) == NO_CLIENT && DatabaseGroup(path) !in objects.stored)
      ensures r.Success? && r.value.Some? ==> ClientOf(databases, DatabaseGroup(path)) == r.value.value
    {
      hide DatabaseGroup, Solo;
      ghost var a;
      var outcome;
      outcome, a := ReadClient(path);
      match outcome
      case Got(client) => return Success(Some(client));
      case Failed(FileNotFound) => return Success(None);
      case Failed(e) => return Failure(e);
    }

    method Close()
      modifies this
      ensures closed && databases == map[] && objects.log == old(objects.log)
      ensures Quiet() == Next(old(Quiet()), Step.Close)
    {
      closed := true;
      databases := map[];
    }
  }
}
