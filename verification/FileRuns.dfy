// Whole runs of one handle: reads, writes, seeks, truncations and syncs in any
// order, with store faults anywhere, interleaved with other files' activity.
module FileRuns {
  import opened Bytes
  import opened Chunks
  import opened FileFlags
  import opened FileHandle
  import opened FlatFile
  import opened Geometry
  import opened Images
  import opened KvStore
  import opened Metadata
  import opened Tapes

  // A step of the handle, or anything at all that leaves its file alone.
  datatype Event = Own(op: Op, reply: Reply) | Others

  datatype Snapshot = Snapshot(kv: Kv, handle: Handle) {
    ghost function Image(): Image { ImageOf(kv, handle.fileId) }
  }

  ghost predicate EventStep(a: Snapshot, e: Event, b: Snapshot) {
    match e
    case Own(op, reply) => a.handle.geometry.Valid() && HandleStep(a.kv, a.handle, op, reply, b.kv, b.handle)
    case Others => b.handle == a.handle && b.Image() == a.Image()
  }

  ghost predicate IsRun(states: seq<Snapshot>, events: seq<Event>) {
    && |states| == |events| + 1
    && forall i :: 0 <= i < |events| ==> EventStep(states[i], events[i], states[i + 1])
  }

  // The flat file after the same events; None once it would not allow one.
  function Follow(flags: Flags, f: Flat, events: seq<Event>): (r: Option<Flat>)
    requires f.Valid()
    ensures r.Some? ==> r.value.Valid()
  {
    if events == [] then Some(f)
    else
      match Follow(flags, f, events[..|events| - 1])
      case None => None
      case Some(g) =>
        match events[|events| - 1]
        case Others => Some(g)
        case Own(op, reply) => if Allows(flags, g, op, reply) then Some(Next(flags, g, op, reply)) else None
  }

  lemma StepKeepsIdentity(a: Snapshot, e: Event, b: Snapshot)
    requires EventStep(a, e, b)
    ensures b.handle.flags == a.handle.flags && b.handle.fileId == a.handle.fileId
  {
    hide Staged, Split, TruncatePending, Overlay, StoredChunks, Apply, SyncBatch, ShownBytes;
  }

  lemma {:induction false} RunKeepsIdentity(states: seq<Snapshot>, events: seq<Event>)
    requires IsRun(states, events)
    ensures var last := states[|events|].handle;
      last.flags == states[0].handle.flags && last.fileId == states[0].handle.fileId
    decreases |events|
  {
    hide EventStep;
    if events != [] {
      var n := |events| - 1;
      assert IsRun(states[..n + 1], events[..n]);
      RunKeepsIdentity(states[..n + 1], events[..n]);
      StepKeepsIdentity(states[n], events[n], states[n + 1]);
    }
  }

  // Over every run the handle is the flat file.
  lemma {:induction false} RunRefinesFlat(states: seq<Snapshot>, events: seq<Event>, f: Flat)
    requires IsRun(states, events)
    requires Represents(states[0].kv, states[0].handle, f)
    ensures var end := Follow(states[0].handle.flags, f, events);
      end.Some? && Represents(states[|events|].kv, states[|events|].handle, end.value)
    decreases |events|
  {
    hide HandleStep, Represents;
    RepresentsValid(states[0].kv, states[0].handle, f);
    if events != [] {
      var n := |events| - 1;
      assert IsRun(states[..n + 1], events[..n]);
      RunRefinesFlat(states[..n + 1], events[..n], f);
      RunKeepsIdentity(states[..n + 1], events[..n]);
      var a, b := states[n], states[n + 1];
      var g := Follow(states[0].handle.flags, f, events[..n]).value;
      match events[n]
      case Own(op, reply) =>
        assert EventStep(a, events[n], b);
        HandleRefinesFlat(a.kv, a.handle, g, op, reply, b.kv, b.handle);
      case Others =>
        assert EventStep(a, events[n], b);
        RepresentsFrame(a.kv, b.kv, a.handle, g);
    }
  }

  lemma RepresentsValid(kv: Kv, h: Handle, f: Flat)
    requires Represents(kv, h, f)
    ensures f.Valid() && h.geometry.Valid()
  {
  }

  lemma RepresentsFrame(kv: Kv, kv': Kv, h: Handle, f: Flat)
    requires Represents(kv, h, f) && ImageOf(kv', h.fileId) == ImageOf(kv, h.fileId)
    ensures Represents(kv', h, f)
  {
    hide Shows, Fits, Overlay, StoredChunks;
  }

  // Runs whose failed writes, if any, did not reach past the end of the file.
  ghost predicate NeverSpills(flags: Flags, f: Flat, events: seq<Event>)
    requires f.Valid()
  {
    forall n :: 0 <= n < |events| && events[n].Own? ==>
      var g := Follow(flags, f, events[..n]);
      g.Some? ==> !Spills(flags, g.value, events[n].op, events[n].reply)
  }

  // In those a plain file stays plain: bytes past the end never reappear.
  lemma {:induction false} PlainRuns(flags: Flags, f: Flat, events: seq<Event>)
    requires f.Valid() && f.Plain() && NeverSpills(flags, f, events)
    requires Follow(flags, f, events).Some?
    ensures Follow(flags, f, events).value.Plain()
    decreases |events|
  {
    hide Allows, Next;
    if events != [] {
      var n := |events| - 1;
      forall m | 0 <= m < n && events[m].Own? ensures events[..n][m] == events[m] && events[..n][..m] == events[..m] {
      }
      assert NeverSpills(flags, f, events[..n]);
      PlainRuns(flags, f, events[..n]);
      var g := Follow(flags, f, events[..n]).value;
      if events[n].Own? { PlainUntilSpill(flags, g, events[n].op, events[n].reply); }
    }
  }

  // So nothing is ever kept at or past the end of such a file: every chunk the
  // overlay shows is within its capacity and within the size, and every position
  // from the size on reads as zero.
  lemma NothingPastEnd(states: seq<Snapshot>, events: seq<Event>, f: Flat)
    requires IsRun(states, events) && Represents(states[0].kv, states[0].handle, f)
    requires f.Valid() && f.Plain() && NeverSpills(states[0].handle.flags, f, events)
    ensures var end := states[|events|];
      && end.handle.geometry.Valid()
      && Fits(end.handle.geometry, Shown(end.kv, end.handle), end.handle.size)
      && forall p: nat :: p >= end.handle.size ==> Byte(end.handle.geometry, Shown(end.kv, end.handle), p) == 0
  {
    hide HandleStep, Fits, Shows, Shown, Locate, Byte, NeverSpills, EventStep;
    RunRefinesFlat(states, events, f);
    PlainRuns(states[0].handle.flags, f, events);
    var end := states[|events|];
    forall p: nat | p >= end.handle.size ensures Byte(end.handle.geometry, Shown(end.kv, end.handle), p) == 0 {
      FitsMeansZeroTail(end.handle.geometry, Shown(end.kv, end.handle), end.handle.size, p);
    }
  }

  // -------------------------------------------------------------------------
  // What the database holds: crashes and reopening

  // The stored record and chunks alone are the file `f`.
  ghost predicate ImageShows(image: Image, f: Flat) {
    && f.Valid()
    && image.record.Some?
    && Decode(image.record.value).Success?
    && var m := Decode(image.record.value).value;
    && m.geometry.Valid()
    && m.size == f.size
    && Shows(m.geometry, image.chunks, f.tape)
    && Fits(m.geometry, image.chunks, |f.tape|)
  }

  // A file at rest has no cursor.
  function Rest(f: Flat): Flat { f.(position := 0) }

  // The states a crash may leave: that of the last completed sync, or of a
  // failed sync after it, as the file was when that sync was called.
  ghost predicate MayHold(flags: Flags, f: Flat, events: seq<Event>, d: Flat)
    requires f.Valid()
    decreases |events|
  {
    if events == [] then d == Rest(f)
    else
      var before := events[..|events| - 1];
      var g := Follow(flags, f, before);
      match events[|events| - 1]
      case Own(Sync, Done) => g.Some? && d == Rest(g.value)
      case Own(Sync, Faulted(_)) => MayHold(flags, f, before, d) || (g.Some? && d == Rest(g.value))
      case _ => MayHold(flags, f, before, d)
  }

  // The record of a handle decodes to its size and geometry.
  lemma SyncedImage(kv: Kv, h: Handle, f: Flat)
    requires Represents(kv, h, f)
    ensures ImageShows(ImageOf(Apply(kv, SyncBatch(h.fileId, h.pending, h.Record())), h.fileId), Rest(f))
  {
    hide Shows, Fits, Overlay, StoredChunks, Apply, SyncBatch, Encode, Decode;
    SyncStoresOverlay(kv, h.fileId, h.pending, h.Record());
    DecodeEncodes(FileMetadata(h.size, h.geometry));
  }

  // What a step leaves stored: a sync that succeeded, or failed after reaching
  // the database, leaves the file as the handle had it.
  ghost function StoredAfter(a: Snapshot, op: Op, reply: Reply, b: Snapshot, f: Flat, d: Flat): Flat {
    if op == Sync && (reply == Done || b.kv != a.kv) then Rest(f) else d
  }

  // One step on what is stored, given that a clean handle is a synced one.
  lemma DurableStep(a: Snapshot, op: Op, reply: Reply, b: Snapshot, f: Flat, d: Flat)
    requires Represents(a.kv, a.handle, f) && HandleStep(a.kv, a.handle, op, reply, b.kv, b.handle)
    requires ImageShows(a.Image(), d) && (a.handle.Clean() ==> d == Rest(f))
    ensures Allows(a.handle.flags, f, op, reply)
    ensures ImageShows(b.Image(), StoredAfter(a, op, reply, b, f, d))
    ensures b.handle.Clean() ==> StoredAfter(a, op, reply, b, f, d) == Rest(Next(a.handle.flags, f, op, reply))
    ensures op == Sync ==> reply == Done || reply.Faulted?
  {
    hide Shows, Fits, Overlay, StoredChunks, Apply, SyncBatch, ImageShows, Represents;
    HandleRefinesFlat(a.kv, a.handle, f, op, reply, b.kv, b.handle);
    StepKeepsIdentity(a, Own(op, reply), b) by { RepresentsValid(a.kv, a.handle, f); }
    if op == Sync && !a.handle.Clean() {
      SyncedImage(a.kv, a.handle, f);
    } else if op != Sync && b.handle.Clean() {
      CleanStep(a, op, reply, b, f);
    }
  }

  // A step that leaves the handle clean, other than a sync, found it clean and
  // changed at most the cursor.
  lemma CleanStep(a: Snapshot, op: Op, reply: Reply, b: Snapshot, f: Flat)
    requires Represents(a.kv, a.handle, f) && HandleStep(a.kv, a.handle, op, reply, b.kv, b.handle)
    requires op != Sync && b.handle.Clean() && Allows(a.handle.flags, f, op, reply)
    ensures a.handle.Clean() && Rest(Next(a.handle.flags, f, op, reply)) == Rest(f)
  {
    hide Shows, Fits, Overlay, StoredChunks, Split, Splice, Padded, ShownBytes, TruncatePending;
    match op
    case PWrite(data, offset) =>
      if reply.Faulted? { FaultStages(a.kv, a.handle, data, offset, reply, b.handle); }
    case Write(data) =>
      var offset := if a.handle.flags.append then a.handle.size else a.handle.position;
      if reply.Faulted? { FaultStages(a.kv, a.handle, data, offset, reply, b.handle.(position := a.handle.position)); }
    case Truncate(size) => if size == f.size { PaddedEnough(f.tape, size); }
    case _ =>
  }

  // A failed write that staged no byte staged nothing, and one that staged any
  // leaves the handle unsynced.
  lemma FaultStages(kv: Kv, h: Handle, data: bytes, offset: u64, reply: Reply, h': Handle)
    requires h.geometry.Valid() && PWriteStep(kv, h, data, offset, reply, h') && reply.Faulted?
    ensures if reply.staged == 0 then h' == h else h'.pending != map[]
  {
    hide Split, Staged, Overlay, StoredChunks;
    var slices := Split(h.geometry, |data|, offset);
    var stored := StoredChunks(kv, h.fileId);
    var n: nat :| FailsAt(h, data, offset, n) && reply == Faulted(Covered(slices, n))
      && h' == h.(pending := Staged(h.geometry, stored, h.pending, data, offset, n));
    if n == 0 {
      StagedNone(h.geometry, stored, h.pending, data, offset);
    } else {
      SplitTiles(h.geometry, |data|, offset);
      SliceInChunk(h.geometry, offset, slices, 0, |data|, n - 1);
      StagedStep(h.geometry, stored, h.pending, data, offset, n - 1);
      assert slices[n - 1].chunkIdx in h'.pending;
    }
  }

  // At every point of every run, the database alone is the file as it was at
  // one sync, never a mix of two.
  lemma {:induction false} CrashConsistent(states: seq<Snapshot>, events: seq<Event>, f: Flat) returns (d: Flat)
    requires IsRun(states, events)
    requires Represents(states[0].kv, states[0].handle, f) && ImageShows(states[0].Image(), Rest(f))
    ensures f.Valid() && MayHold(states[0].handle.flags, f, events, d)
    ensures ImageShows(states[|events|].Image(), d)
    ensures var g := Follow(states[0].handle.flags, f, events);
      g.Some? && (states[|events|].handle.Clean() ==> d == Rest(g.value))
    decreases |events|
  {
    hide HandleStep, Represents, ImageShows, MayHold, ImageOf, EventStep;
    RepresentsValid(states[0].kv, states[0].handle, f);
    RunRefinesFlat(states, events, f);
    if events == [] {
      d := Rest(f);
      MayHoldAtFirst(states[0].handle.flags, f);
    } else {
      var n := |events| - 1;
      assert IsRun(states[..n + 1], events[..n]);
      d := CrashConsistent(states[..n + 1], events[..n], f);
      RunRefinesFlat(states[..n + 1], events[..n], f);
      RunKeepsIdentity(states[..n + 1], events[..n]);
      d := CrashStep(states[n], events[n], states[n + 1], f, events[..n], d);
      assert events == events[..n] + [events[n]];
    }
  }

  lemma MayHoldAtFirst(flags: Flags, f: Flat)
    requires f.Valid()
    ensures MayHold(flags, f, [], Rest(f))
  {
  }

  lemma FollowSnoc(flags: Flags, f: Flat, before: seq<Event>, e: Event)
    requires f.Valid() && Follow(flags, f, before).Some?
    ensures var g := Follow(flags, f, before).value;
      Follow(flags, f, before + [e]) ==
        match e
        case Others => Some(g)
        case Own(op, reply) => if Allows(flags, g, op, reply) then Some(Next(flags, g, op, reply)) else None
  {
    hide Allows, Next;
    assert (before + [e])[..|before|] == before;
  }

  lemma MayHoldSnoc(flags: Flags, f: Flat, before: seq<Event>, e: Event, d: Flat)
    requires f.Valid() && Follow(flags, f, before).Some?
    ensures var g := Follow(flags, f, before).value;
      MayHold(flags, f, before + [e], d) <==>
        match e
        case Own(Sync, Done) => d == Rest(g)
        case Own(Sync, Faulted(_)) => MayHold(flags, f, before, d) || d == Rest(g)
        case _ => MayHold(flags, f, before, d)
  {
    hide Follow;
    assert (before + [e])[..|before|] == before;
  }

  lemma CrashStep(a: Snapshot, e: Event, b: Snapshot, f: Flat, before: seq<Event>, d: Flat) returns (d': Flat)
    requires EventStep(a, e, b) && f.Valid()
    requires Follow(a.handle.flags, f, before).Some?
    requires var g := Follow(a.handle.flags, f, before).value;
      Represents(a.kv, a.handle, g) && (a.handle.Clean() ==> d == Rest(g))
    requires MayHold(a.handle.flags, f, before, d) && ImageShows(a.Image(), d)
    ensures MayHold(a.handle.flags, f, before + [e], d') && ImageShows(b.Image(), d')
    ensures var g := Follow(a.handle.flags, f, before + [e]);
      g.Some? && (b.handle.Clean() ==> d' == Rest(g.value))
  {
    hide HandleStep, Represents, ImageShows, Allows, Next, Follow, MayHold;
    FollowSnoc(a.handle.flags, f, before, e);
    StepKeepsIdentity(a, e, b);
    d' := d;
    if e.Own? {
      var g := Follow(a.handle.flags, f, before).value;
      DurableStep(a, e.op, e.reply, b, g, d);
      d' := StoredAfter(a, e.op, e.reply, b, g, d);
    }
    MayHoldSnoc(a.handle.flags, f, before, e, d');
  }

  // Reopening finds exactly what is stored.
  lemma ReopenExact(kv: Kv, client: Client, fileId: u64, flags: Flags, d: Flat)
    requires ImageShows(ImageOf(kv, fileId), d)
    requires flags.Validate().Success? && (client.ReadOnly? ==> flags.read && !flags.write)
    ensures var reopened := OpenHandle(client, fileId, Decode(ImageOf(kv, fileId).record.value).value, flags);
      && reopened.Success?
      && reopened.value.Clean()
      && Represents(kv, reopened.value, d.(position := if flags.append then d.size else 0))
  {
    hide Shows, Fits, Overlay, StoredChunks, Decode;
    OverlayEmpty(StoredChunks(kv, fileId));
  }

  // After a failed sync another one gets there, whichever state the first left.
  lemma RetrySucceeds(a: Snapshot, b: Snapshot, c: Snapshot, reply: Reply, f: Flat, d: Flat)
    requires Represents(a.kv, a.handle, f) && ImageShows(a.Image(), d) && (a.handle.Clean() ==> d == Rest(f))
    requires HandleStep(a.kv, a.handle, Sync, reply, b.kv, b.handle) && reply.Faulted?
    requires HandleStep(b.kv, b.handle, Sync, Done, c.kv, c.handle)
    ensures ImageShows(b.Image(), d) || ImageShows(b.Image(), Rest(f))
    ensures ImageShows(c.Image(), Rest(f)) && Represents(c.kv, c.handle, f) && c.handle.Clean()
  {
    hide Shows, Fits, Overlay, StoredChunks, Apply, SyncBatch, ImageShows;
    DurableStep(a, Sync, reply, b, f, d);
    HandleRefinesFlat(a.kv, a.handle, f, Sync, reply, b.kv, b.handle);
    DurableStep(b, Sync, Done, c, f, StoredAfter(a, Sync, reply, b, f, d));
    HandleRefinesFlat(b.kv, b.handle, f, Sync, Done, c.kv, c.handle);
  }
}
