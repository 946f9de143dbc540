# A verified model of the SlateDB-backed file system

The repository stores DuckDB's files in SlateDB, an ordered key/value store. This
project models that file system in Dafny and proves that the whole stack, with
store faults at any point, behaves as a map from paths to byte strings with open
handles on them. Paths below are relative to the repository.

The stack, from the bottom up:

| module | what it is |
|---|---|
| `Bytes`, `Keys` | byte strings and their order; the key encodings, scans over a store that mixes all key families, the chunk index and file id codecs |
| `KvStore` | the database as one map from byte strings to byte strings; reads, batches and commits may fail, and a failed batch may have been applied |
| `Geometry`, `Tapes`, `Chunks`, `Coalesce` | cutting a file into a short chunk 0 and full chunks; the overlay of staged changes over stored chunks; reads, writes and truncations on it |
| `Metadata`, `Images` | the per-file record in its wire form; what a database holds of one file; the batch of a sync |
| `ChunkManager` | the class over all that, with its in-place `pending` map and buffer |
| `FlatFile` | the specification of a handle: one byte string with a size and a cursor |
| `FileFlags`, `FileHandle`, `FileRuns` | the handle as a step relation, as a class that takes only such steps, and as a refinement of the flat file over all runs; crashes, reopening and retried syncs |
| `WriteFaults`, `ReadGaps` | exactly what a failed write may leave behind; exactly which reads go out of range |
| `Catalog`, `DatabaseMetadata`, `CatalogEffects` | the catalog transactions as functions, as the class that carries them out key by key, and what each does to names, ids and files |
| `PlainFs` | the specification of the file system: a map from paths to files, and open handles; no ids, keys or chunks |
| `FileSystem`, `FileSystemRuns` | catalog, handles and store together, and the refinement of the plain file system over all runs |
| `FileCalls` | the calls of one database as the code carries them out, transaction first and handle after, each proved to be a step of that system |
| `AppendRuns` | append handles, and a run of one |
| `FileIds`, `Garbage`, `HoleFreeRuns` | over all runs: ids handed out once, what is stored without a named file, and files that stay without holes |
| `Routing`, `Clients`, `ClientCalls` | which SlateDB a path belongs to; opening readers and writers lazily, as a state machine over all interleavings and as the object with its methods |
| `RunningStats` | running mean and variance of latencies |

How the statements fit together:

* A handle is a value (`FileHandle.Handle`), and `HandleStep` says what one call may
  answer and do, faults included. The class methods prove they take only such steps;
  `HandleRefinesFlat` and `RunRefinesFlat` prove that every such step, and every run,
  is one of the flat file. A run may mix the handle's own calls with anything at all
  that leaves its file alone.
* `FileSystemRuns.ReachableRefines` starts from an empty database and covers any
  sequence of opens, removals, moves, calls of any number of handles, dropped handles
  and crashes, each with any fault. Handles stay attached to the file they opened
  through moves; a handle whose file was removed or replaced is detached, and nothing
  it does reaches any path.
* `FileCalls` joins the two: an open, removal, move or existence check on any state
  that refines the plain file system does what the plain file system says, and the
  handle it returns, like every open handle, meets what its methods ask for
  (`OpenFile`, `OpenHandleIsValid`, `HandleCallDoes`).
* Faults are counted: the store and the object store count their failed calls, and
  every method reports a fault exactly when that count grew during the call. Without
  one it answers exactly what the specification says (`FileSystemRuns.AnswerExact`),
  and every request has such an answer (`FaultFreeRequest`).
* The flat file is a tape and a size. The tape may be longer than the size, which is
  how the model states what a failed write leaves past the end of the file instead
  of excluding failed writes. `PlainRuns`, `NothingPastEnd` and `PlainReplay` are the
  statements for runs without such a write.

Two things are asked of the callers. A file has at most one writable handle at a time
(the guard `NoWriter` on opens for writing): two of them have independent overlays.
And a database is changed through this program only, so that its keys are well formed.

## What the code does not keep

Each of these is proved as an exact condition, with a concrete run where it fails.

* Growing a file is documented to show zeros (rust/src/file_handle.rs:298), and a
  short chunk to contribute only the bytes it has (rust/src/chunk_manager.rs:333-334).
  But copying an empty part of a chunk still needs its start to lie inside the chunk
  (rust/src/chunk_manager.rs:341), so a read that starts past the end of a short
  chunk, and not right at it, panics instead of reading zeros. The contract of
  `ChunkManager.Read` is the exact condition of the code, and `ReadDeliversIff` what
  it means for the bytes a caller gets; `GapFreeIff` gives it for a whole file, and
  `GapWitness` is a run that panics. Files written without holes never do:
  `HoleFreeRuns` proves it over whole runs of the file system, through syncs, crashes
  and reopening. The model reports the panic as the error `SliceOutOfRange`; it
  changes nothing but the caller's buffer.
* A failed `pwrite` may have staged part of its data without moving the size
  (rust/src/file_handle.rs:217-221). What is staged is always a prefix ending at a
  slice boundary. It is nothing at all exactly under the condition of
  `WriteFaults.WriteAtomicIff`. It can reach past the end of the file, where growing
  the file reveals it, exactly under the condition of `WriteSpillsIff`;
  `SpillWitness` is such a run.
* Companion files are meant to share the SlateDB of their database
  (rust/src/fs.rs:27-28). They do exactly when the database is not itself named like
  a companion: `Routing.CompanionsShareIff`, `CompanionApartWitness`.
* Every stored record and chunk is meant to belong to a file with a name. A sync
  through a handle whose file was removed or replaced is harmless to every path, but
  leaves a record and chunks nobody can reach, for good. A request can leave such
  garbage exactly when it is a sync of a detached handle with something to write
  (`Garbage.GarbageIff`), and a whole run leaves it exactly when such a sync reached
  the database (`GarbageRunIff`); `GarbageWitness` is a run that does.

## Two answers worth knowing

* Moving a path onto itself succeeds even when no such file exists
  (rust/src/database_metadata.rs:76-78): `FileSystemRuns.MoveRefusals` says exactly
  which moves are refused.
* At the end of the file `read` answers 0 before it looks at the read flag, while
  `pread` checks the flag first: `FileHandle.EndBeforeAccess`.

## Model

| member | source | states |
|---|---|---|
| Keys.ChunkKeyOrder | rust/src/keys.rs:29-34 | the keys of one file sort as their chunk indices do, both ways |
| Keys.ChunkKeyOrderAcrossFiles | rust/src/keys.rs:29-34 | keys of different files sort strictly by file id, whatever the chunks |
| Keys.FamiliesDisjoint | rust/src/keys.rs:5-21 | no chunk, metadata, path or counter key is a key of another family, for all ids and paths, and only chunk keys start with the chunk prefix; the counter key extends the metadata key of file 0 and is still not one |
| Keys.PrefixScanExact | rust/src/keys.rs:36-39 | in a store mixing all families a prefix scan meets a key if and only if it is a chunk of that file |
| Keys.RangeScanExact | rust/src/chunk_manager.rs:271-281 | in a store mixing all families a range scan between two chunks of a file meets a key if and only if it is a chunk of that file with an index in the range |
| Keys.ParseChunkIdxInverts | rust/src/chunk_manager.rs:361-373 | parsing a chunk key, with its UTF-8 check, last path segment and radix-16 parser, gives back the index for every file id and index |
| Keys.DecodeFileIdExact | rust/src/database_metadata.rs:197-208 | a stored value decodes to an id if and only if it is that id's eight big-endian bytes and the id is not 0 |
| Keys.KeyLayout | rust/src/keys.rs:29-44 | the keys byte by byte: family letter, sixteen lower-case digits most significant first, slash; and a file id as eight bytes, most significant first |
| KvStore.Collect | rust/src/chunk_store.rs:66-71 | a scan that succeeds returns each selected pair once, in ascending key order, and nothing else |
| KvStore.Store.Get | rust/src/chunk_store.rs:52-54 | a lookup that succeeds answers what is stored; it may fail at any time, and every failure is counted |
| KvStore.Store.ScanInclusive | rust/src/chunk_store.rs:56-72 | exactly the pairs from first to last inclusive, ascending |
| KvStore.Store.KeysWithPrefix | rust/src/chunk_store.rs:74-81 | exactly the keys under the prefix, without repeats, ascending |
| KvStore.ApplyTwice | rust/src/file_handle.rs:267-269 | a batch written again after a failed flush leaves the database as one write did |
| Geometry.LocateSound | rust/src/chunk_manager.rs:188-213 | every file position has a chunk and an in-capacity offset that name it back, and the chunk index cannot overflow |
| Geometry.LocateUnique | rust/src/chunk_manager.rs:188-213 | every in-capacity chunk and offset is the location of exactly its position: with LocateSound a bijection |
| Geometry.ChunkBoundaries | rust/src/chunk_manager.rs:188-213 | chunk 0 is exactly what lies below the base offset, when there is one, and full chunks start at the base offset plus every multiple of the chunk size |
| Geometry.StartMonotone | rust/src/chunk_manager.rs:188-191 | chunks do not overlap and are laid out in index order, the short chunk 0 included |
| Geometry.SplitTiles | rust/src/chunk_manager.rs:192-224 | the slices of a range cover it in order without gap or overlap, in strictly consecutive chunks, each inside its chunk at the right offset |
| Geometry.TilingUnique | rust/src/chunk_manager.rs:192-224 | nothing else tiles the range: the tiling property determines the slices |
| Geometry.SliceOwns | rust/src/chunk_manager.rs:203-219 | a position is located inside a slice if and only if the buffer range of the slice names it, at the matching offset |
| Coalesce.CoalesceChunkIndices | rust/src/chunk_manager.rs:344-359 | the runs flatten back to exactly the indices, and no two adjacent runs could be one |
| Coalesce.MaximalUnique | rust/src/chunk_manager.rs:344-359 | the maximal runs of an index list are unique: no other grouping has both properties |
| Coalesce.FlattenContains | rust/src/chunk_manager.rs:344-359 | an index is asked for if and only if one of the runs spans it |
| Chunks.OverlayIdempotent | rust/src/chunk_manager.rs:172-182 | staged changes laid over a store that already holds them show the same chunks |
| Chunks.WriteSliceByte | rust/src/chunk_manager.rs:117-124 | writing a slice into its chunk changes exactly the file bytes the slice names, for every position |
| Chunks.StageSlicesShows | rust/src/chunk_manager.rs:106-128 | after any number of slices of a write the file is the old one with exactly the covered prefix of the data spliced in, zeros in any gap, and every chunk within its capacity and the end |
| Tapes.WholeChunkExact | rust/src/chunk_manager.rs:110-113 | overwriting a whole chunk from fresh zeros equals read-modify-write if and only if the old chunk does not exceed its capacity |
| Chunks.StageWithinCapacity | rust/src/chunk_manager.rs:106-128 | staging a slice keeps the capacity invariant the whole-chunk path relies on |
| Chunks.TwoPassRead | rust/src/chunk_manager.rs:77-103 | copying the staged chunks and then only the fetched ones leaves at every buffer byte what a lookup through the overlay gives, and nothing past the range |
| Chunks.StartsPastIff | rust/src/chunk_manager.rs:335-342 | only the first slice of a range can start past the end of its chunk, and does if and only if the range starts in a gap |
| Chunks.TruncateIsCut | rust/src/chunk_manager.rs:131-170 | although staged entries past the end are dropped, what is shown after a truncation is exactly what was shown before, cut at the new size |
| Chunks.CutShows | rust/src/chunk_manager.rs:131-170 | a cut shows the first bytes of the file and zeros for ever after, and no chunk reaches past the new end |
| Chunks.GrowShows | rust/src/file_handle.rs:298-302 | growing needs no chunk work: the same chunks show the file extended by zeros |
| Metadata.ValidatedGeometry | rust/src/file_metadata.rs:35-58 | a record is accepted if and only if its base offset is below its chunk size, and the chunk size then is not zero |
| Metadata.DecodeEncodes | rust/src/file_metadata.rs:27-33 | every record decodes from its encoding, zero fields omitted and varints of every width included |
| Metadata.RecordExamples | rust/src/file_metadata.rs:27-29 | the wire form of two records byte by byte: fields 1, 3 and 4, each left out when 0 |
| Images.SyncStoresOverlay | rust/src/file_handle.rs:258-268 | the batch of a sync leaves in the database exactly the chunks the overlay showed, and the record |
| Images.SyncFrame | rust/src/file_handle.rs:258-268 | and no other key, of another file, a path or the counter, changes |
| ChunkManager.CopyChunkInto | rust/src/chunk_manager.rs:333-342 | the selected bytes a chunk has are copied and no others touched; out of range if and only if the slice starts past the end of the chunk |
| ChunkManager.SplitIntoChunks | rust/src/chunk_manager.rs:192-224 | the loop terminates without overflow for every validated geometry and range within 64 bits, and its slices tile the range |
| ChunkManager.ChunkManager.ChunkContents | rust/src/chunk_manager.rs:227-239 | the chunk as the overlay shows it; only an unstaged chunk can fail |
| ChunkManager.ChunkManager.ReadChunkGroupFromStore | rust/src/chunk_manager.rs:258-288 | by point lookup or by scan, exactly the stored chunks of the group under their own indices |
| ChunkManager.ChunkManager.ReadChunksFromStore | rust/src/chunk_manager.rs:241-256 | exactly the stored ones of the chunks asked for, through coalesced scans; fails if and only if a scan or lookup failed |
| ChunkManager.ChunkManager.CollectPersistedChunkIndices | rust/src/chunk_manager.rs:290-304 | exactly the stored indices of this file from the given one on |
| ChunkManager.ChunkManager.Read | rust/src/chunk_manager.rs:76-103 | every byte of the buffer is the byte the overlay shows, zeros where there is none, the buffer past the range untouched; reports a store fault if and only if a store call failed, which takes a chunk that is not staged, and is out of range if and only if it starts in a gap |
| ChunkManager.ChunkManager.Write | rust/src/chunk_manager.rs:105-128 | stages all slices, or exactly those before the one whose fetch failed, and keeps every chunk within capacity; fails if and only if a store call failed |
| ChunkManager.ChunkManager.WriteOneSlice | rust/src/chunk_manager.rs:107-125 | one turn of the loop splices the slice into the chunk as shown, by the fast path or not; a failed fetch changes nothing |
| ChunkManager.ChunkManager.ChunkToOverwrite | rust/src/chunk_manager.rs:110-115 | fresh zeros and fetched bytes give the same chunk once the slice is written |
| ChunkManager.ChunkManager.Truncate | rust/src/chunk_manager.rs:130-170 | all or nothing: a fault at either store read, and nothing else, leaves the staged changes as they were, otherwise they are those that TruncateIsCut is about |
| ChunkManager.ChunkManager.AddPendingToBatch | rust/src/chunk_manager.rs:172-181 | the batch gains one put or delete for each staged chunk and nothing else |
| FlatFile.PlainContents | rust/src/file_handle.rs:15-55 | on a plain file the operations are the textbook ones: splice with zero fill, cut or zero-extend, append at the end, a failed write a prefix |
| FlatFile.PlainUntilSpill | rust/src/file_handle.rs:206-224 | a step keeps a file plain if and only if it is not a failed write that reached past the end |
| FileFlags.AcceptedFlags | rust/src/flags.rs:76-93 | flags are accepted if and only if they ask for some access, create or append only with write access, and truncate only what they may create; refused ones have one error |
| FileFlags.OfferedFlagsAccepted | rust/src/flags.rs:21-74 | every combination the program offers, append included, is accepted |
| FileHandle.FileHandle.Open | rust/src/file_handle.rs:127-156 | a handle starts clean with the record's size and geometry, an append handle at the end, or is refused for its flags, client or record |
| FileHandle.FileHandle.PRead | rust/src/file_handle.rs:191-204 | a step of the handle, delivering at most the bytes up to the end of the file and leaving the rest of the buffer alone; reports a fault if and only if a store call failed |
| FileHandle.FileHandle.PWrite | rust/src/file_handle.rs:206-224 | a step of the handle: staged whole with the size and dirty flag moved, or, if and only if a store call failed, cut short with neither moved, or refused |
| FileHandle.FileHandle.Read | rust/src/file_handle.rs:226-238 | a step of the handle: the cursor moves by what was delivered, and end of file comes before the access check |
| FileHandle.FileHandle.Write | rust/src/file_handle.rs:240-251 | a step of the handle: append handles write at the end, and the cursor moves only on success |
| FileHandle.FileHandle.Truncate | rust/src/file_handle.rs:291-306 | a step of the handle: size and staged chunks change together or not at all |
| FileHandle.FileHandle.Sync | rust/src/file_handle.rs:253-273 | a step of the handle: one batch with record and chunks, staged state kept until both write and flush succeed; fails with a fault if and only if one of them failed, and otherwise everything written is flushed |
| FileHandle.FileHandle.Close | rust/src/file_handle.rs:312-314 | a sync, with the same promises |
| FileHandle.ReadRefines | rust/src/file_handle.rs:191-204 | the bytes shown are exactly the in-range bytes of the flat file |
| FileHandle.GapRefines | rust/src/chunk_manager.rs:335-342 | a read that is out of range starts between two zero bytes of the file |
| FileHandle.PWriteRefines | rust/src/file_handle.rs:206-224 | a write, whole or cut short at any slice, is the flat splice or a shorter prefix of it |
| FileHandle.TruncateRefines | rust/src/file_handle.rs:291-306 | a truncation, failed or not, is the flat cut or zero extension |
| FileHandle.SyncRefines | rust/src/file_handle.rs:253-273 | a sync, failed before or after it reached the database, changes no byte the handle shows |
| FileHandle.HandleRefinesFlat | rust/src/file_handle.rs:189-315 | every call of a handle, with any fault, is one the flat file allows and leaves the handle representing the flat file's next state |
| FileHandle.FaultFreeStep | rust/src/file_handle.rs:189-315 | every call of a handle has an answer that reports no fault |
| FileHandle.StepKeepsCapacity | rust/src/chunk_manager.rs:106-170 | no call of a handle, with any fault, shows a chunk past its capacity, attached to a path or not |
| FileHandle.EndBeforeAccess | rust/src/file_handle.rs:226-238 | without read access a sequential read answers 0 if and only if nothing is left to read and is refused otherwise, where a positional one is always refused |
| FileHandle.SyncKeepsValid | rust/src/file_handle.rs:258-271 | after the batch the overlay view is unchanged, with the staged state kept or dropped, and the keys stay well formed |
| FileRuns.RunRefinesFlat | rust/src/file_handle.rs:189-315 | over every run, mixed with anything that leaves the file alone, the handle is the flat file |
| FileRuns.PlainRuns | rust/src/file_handle.rs:189-315 | a plain file stays plain over every run whose failed writes stay inside the file |
| FileRuns.NothingPastEnd | rust/src/file_handle.rs:298-305 | in those runs every chunk shown ends within its capacity and within the size, and every position from the size on shows zero |
| FileRuns.DurableStep | rust/src/file_handle.rs:253-273 | what one step leaves stored: the last synced file, or the present one once a sync reached the database; a clean handle is a synced one |
| FileRuns.CrashConsistent | rust/src/file_handle.rs:258-271 | at every point of every run the database alone is the file as it was at one sync that completed or at a failed sync after it, never a mix |
| FileRuns.ReopenExact | rust/src/file_handle.rs:127-156 | reopening finds exactly the stored file: size, bytes and a fresh cursor |
| FileRuns.RetrySucceeds | rust/src/file_handle.rs:268-272 | a failed sync leaves the old or the new file, and a later sync that succeeds stores the new one either way |
| WriteFaults.FailsOnlyAtEnds | rust/src/chunk_manager.rs:106-128 | a write can only fail at its first or its last slice, since any other fills its chunk |
| WriteFaults.WriteAtomicIff | rust/src/chunk_manager.rs:106-128 | a write is all or nothing under every fault if and only if its last slice needs no fetch or is its first |
| WriteFaults.WriteSpillsIff | rust/src/file_handle.rs:217-221 | a failed write can leave bytes past the end if and only if its last slice needs a fetch and starts past the end |
| WriteFaults.SpillWitness | rust/src/file_handle.rs:291-306 | a failed write to an empty file whose data appears when the file is grown |
| WriteFaults.BlockIsOneChunk | rust/src/file_metadata.rs:8-13 | with the default geometry the header of a database is chunk 0 and each of its blocks fills exactly one chunk |
| WriteFaults.BlockWritesNeverFail | rust/src/chunk_manager.rs:110-115 | so writing a block never needs the store |
| ReadGaps.ReadDeliversIff | rust/src/chunk_manager.rs:335-342 | for the flat bytes: a read inside the file can deliver exactly its in-range bytes if and only if it does not start in a gap; that the code panics exactly there is the contract of ChunkManager.Read |
| ReadGaps.GapFreeIff | rust/src/chunk_manager.rs:335-342 | a file has no position in a gap if and only if no chunk lacks more than one byte of the room it has within the file |
| ReadGaps.StepKeepsDense | rust/src/file_handle.rs:189-315 | a write from inside the file or its end, a shrinking truncation and every other call keep a file without holes and are never out of range |
| ReadGaps.DenseRunsStayInRange | rust/src/file_handle.rs:189-315 | over every run of such calls, with any faults, no read is out of range |
| HoleFreeRuns.OpenedDense | rust/src/file_handle.rs:127-156 | a handle opened on a stored file without holes has none |
| HoleFreeRuns.SyncedDense | rust/src/file_handle.rs:253-273 | a sync of a file without holes stores one without holes |
| HoleFreeRuns.StepKeepsDenseSys | rust/src/fs.rs:187-278 | every request on the whole stack, with any fault, keeps all files without holes and stays in range, as long as handles in charge of a path write inside their file or at its end and do not grow it |
| HoleFreeRuns.HoleFreeRunsStayInRange | rust/src/fs.rs:187-278 | so over every run of such requests, through syncs, drops, crashes, reopening, moves and truncation on open, no read by a handle in charge of a path is out of range |
| HoleFreeRuns.ReachableReadsInRange | rust/src/fs.rs:187-278 | in particular from an empty database, hence for every newly created file |
| ReadGaps.GapWitness | rust/src/chunk_manager.rs:335-342 | three bytes written, the file grown to 8: a read from offset 3 is in range, from offset 4 it panics without any fault |
| DatabaseMetadata.DatabaseMetadata.FileExists | rust/src/database_metadata.rs:26-33 | existence is the path mapping alone; a fault is reported if and only if the lookup failed |
| DatabaseMetadata.DatabaseMetadata.OpenFile | rust/src/database_metadata.rs:35-40 | the id and record of the path, or the exact error for a missing path, mapping, record or encoding; a fault is reported if and only if a lookup failed |
| DatabaseMetadata.DatabaseMetadata.DeleteChunks | rust/src/database_metadata.rs:63-66 | the transaction gains a delete of exactly the file's chunk keys |
| DatabaseMetadata.DatabaseMetadata.EmptyFile | rust/src/database_metadata.rs:128-139 | one commit deletes exactly the scanned chunks and puts a fresh record |
| DatabaseMetadata.DatabaseMetadata.CreateFile | rust/src/database_metadata.rs:149-163 | one commit puts the path, the record and the counter, or the counter refuses |
| DatabaseMetadata.DatabaseMetadata.RemoveFile | rust/src/database_metadata.rs:45-69 | the loop over scanned keys commits exactly the whole removal; a refusal changes nothing, a failed commit leaves the old or the new database, and a fault is reported if and only if a store call failed |
| DatabaseMetadata.DatabaseMetadata.MoveFile | rust/src/database_metadata.rs:71-112 | likewise for a move, replacing the target's file when it is another one |
| DatabaseMetadata.DatabaseMetadata.PrepareFileForOpen | rust/src/database_metadata.rs:114-164 | likewise for create and truncate on open, with the id and record returned |
| Catalog.OpenOutcome | rust/src/database_metadata.rs:35-40 | on any database, well formed or not, opening is granted if and only if the path holds the id of a file whose record decodes, and which error it is otherwise |
| Catalog.RemoveOutcome | rust/src/database_metadata.rs:45-61 | on any database removal is granted if and only if the path holds eight bytes of an id other than 0, and which error it is otherwise |
| Catalog.MoveOutcome | rust/src/database_metadata.rs:72-96 | on any database a move is granted if and only if the paths are the same or the source holds an id and the target holds one or is not there, and which error it is otherwise |
| Catalog.PrepareOutcome | rust/src/database_metadata.rs:115-157 | on any database opening for writing is granted if and only if the path holds a readable file, or is not there, may be created and an id with a successor is left, and which error it is otherwise |
| CatalogEffects.RemoveEffect | rust/src/database_metadata.rs:45-69 | exactly that path loses its name, its file loses record and chunks, every other name, file and the counter stay |
| CatalogEffects.MoveEffect | rust/src/database_metadata.rs:71-112 | the target names the source's file untouched, the source names none, a replaced file is gone, all else stays |
| CatalogEffects.MoveOntoAlias | rust/src/database_metadata.rs:93-111 | were two paths to name one file, moving one onto the other would keep the file whole |
| CatalogEffects.TruncateEffect | rust/src/database_metadata.rs:128-139 | that file is empty with the default geometry whatever it had, no name and no other file changes |
| CatalogEffects.CreateEffect | rust/src/database_metadata.rs:149-163 | the path names a new empty file under the counter's id, the counter moves by one, all else stays |
| CatalogEffects.CreateGrantedIff | rust/src/database_metadata.rs:149-163 | on a consistent catalog a missing path can be created if and only if the counter has a successor, and then gets the counter as its id |
| CatalogEffects.RemoveConsistent | rust/src/database_metadata.rs:45-69 | removal keeps the catalog consistent: distinct ids in range of the counter, a valid record for each, nothing stored from the counter on |
| CatalogEffects.MoveConsistent | rust/src/database_metadata.rs:71-112 | moving keeps it consistent |
| CatalogEffects.TruncateConsistent | rust/src/database_metadata.rs:128-139 | truncating on open keeps it consistent |
| CatalogEffects.CreateConsistent | rust/src/database_metadata.rs:149-163 | creating keeps it consistent |
| PlainFs.ContentsNext | rust/src/database_metadata.rs:42-164 | on the map from paths to bytes: create adds an empty file, truncate-on-open empties one path, remove drops one, move gives the target the source's bytes, a sync publishes one handle's bytes, and nothing else changes anything |
| PlainFs.OthersNext | rust/src/fs.rs:187-278 | what each request does to the other handles: those on a removed or replaced path are detached, those on a moved one follow it, readers of a path step back when a writer opens it, and no other is touched |
| PlainFs.OpenedNext | rust/src/fs.rs:200-247 | an opened handle speaks for its path, from the start of its file or, to append, from its end, unless it only reads beside a writer |
| PlainFs.PlainKept | rust/src/file_handle.rs:206-224 | every file stays its plain contents as long as no failed write reaches past an end |
| FileSystem.RemoveRefines | rust/src/database_metadata.rs:45-69 | removal is removal from the map; handles on the path are detached, all others keep their files |
| FileSystem.MoveRefines | rust/src/database_metadata.rs:71-112 | move is a rename in the map; the source's handles follow it, the target's are detached |
| FileSystem.OpenWriteRefines | rust/src/fs.rs:200-215 | opening for writing creates, empties or finds the path and nothing else, with every refusal and fault |
| FileSystem.OpenReadRefines | rust/src/fs.rs:217-247 | opening for reading changes nothing and yields the stored file |
| FileSystem.AttachedIo | rust/src/file_handle.rs:189-315 | a handle's call moves its own flat file, a sync publishes it under its path, and no other path or handle changes |
| FileSystem.SyncEffect | rust/src/file_handle.rs:253-273 | a sync keeps the catalog consistent, every name, the counter and every other file |
| FileSystem.DetachedIo | rust/src/file_handle.rs:253-273 | no call through a handle whose file was removed or replaced, late syncs included, changes any path's contents, size or existence |
| FileSystemRuns.StepRefines | rust/src/fs.rs:187-278 | every request on the whole stack, with any fault, is one the plain file system allows and takes it to the state that refines the next one |
| FileSystemRuns.RunRefinesPlainFs | rust/src/fs.rs:187-278 | over every run of opens, removals, moves, handle calls, drops and crashes the stack is the plain file system |
| FileSystemRuns.ReachableRefines | rust/src/fs.rs:187-278 | in particular from an empty database |
| FileSystemRuns.PlainReplay | rust/src/fs.rs:187-278 | in runs whose failed writes stay inside their files every path is a plain byte string, and what the database holds for it can be read as exactly those bytes and no others |
| FileSystemRuns.MoveRefusals | rust/src/database_metadata.rs:72-96 | a move is refused if and only if a path is empty or the source is missing and not the target, and with which error; onto itself it changes nothing |
| FileSystemRuns.AnswerExact | rust/src/fs.rs:187-278 | every answer that reports no fault is exactly the one the plain file system gives: which opens, removals and moves are granted, and with which error the others are refused; creating is refused only once the ids are exhausted |
| FileSystemRuns.FaultFreeRequest | rust/src/fs.rs:187-278 | every request in every refining state has a step that reports no fault |
| AppendRuns.AppendsAtEnd | rust/src/file_handle.rs:240-251 | a write of an append handle adds its data to the end wherever the cursor is, and leaves the cursor there |
| AppendRuns.AppendRun | rust/src/flags.rs:65-74 | a run: open for appending, write, move the cursor back, write again; the file holds both in order |
| FileSystem.HandlesSound | rust/src/file_handle.rs:127-156 | every open handle of a state that refines the plain file system, detached ones included, has valid geometry, well-formed keys below it and, if it writes, chunks within capacity |
| FileCalls.OpenFile | rust/src/fs.rs:187-247 | the code of an open does what the plain file system says and returns a valid handle object; refused for its flags or an empty path exactly when the five flags or the path say so, and, when no store call fails, granted exactly when the file is there or may be created while ids are left |
| FileCalls.OpenWriteHandle | rust/src/fs.rs:200-215 | preparing the catalog and then building the handle is one open of the system; a lost commit or a refusal is answered as such |
| FileCalls.OpenReadHandle | rust/src/fs.rs:217-247 | likewise for reading, through either client |
| FileCalls.FileExists | rust/src/fs.rs:249-260 | on an open database the answer is whether the plain file system has the path, unless the lookup failed |
| FileCalls.RemoveFile | rust/src/fs.rs:262-266 | the code of a removal does what the plain file system says, and reports a fault if and only if a store call failed |
| FileCalls.MoveFile | rust/src/fs.rs:268-278 | the code of a move inside one database does what the plain file system says, and reports a fault if and only if a store call failed |
| FileCalls.OpenHandleIsValid | rust/src/file_handle.rs:86-95 | every open handle object of a reachable state meets what its methods ask for |
| FileCalls.HandleCallDoes | rust/src/file_handle.rs:189-315 | what the methods of a handle object promise of one call is a step of the system that does what the plain file system says |
| FileCalls.SyncFile | rust/src/file_handle.rs:253-273 | the code of a sync of a handle in charge of a path succeeds if and only if no store call failed, and then the path holds the file as the handle has it |
| FileIds.StepEvolves | rust/src/database_metadata.rs:42-164 | no step lowers the id counter, gives a file that has no name one, or clears away what is stored of it |
| FileIds.RunEvolves | rust/src/database_metadata.rs:42-164 | nor does any stretch of any run |
| FileIds.CreatedIdIsFresh | rust/src/database_metadata.rs:149-163 | a created file gets the counter as its id: above the id of every open handle, nothing stored under it, no path naming it |
| FileIds.IdsNeverReused | rust/src/database_metadata.rs:149-160 | of any two files created in a run the later has the larger id, whatever was removed, moved, lost or crashed in between |
| FileIds.ReachableIdsNeverReused | rust/src/database_metadata.rs:149-160 | in particular in every run from an empty database |
| FileIds.UnnamedStaysUnnamed | rust/src/database_metadata.rs:45-112 | a file that lost its last name has none at any later point of the run, so no late sync of it can reach a path |
| Garbage.GarbageIff | rust/src/file_handle.rs:253-273 | some answer to a request leaves a record or chunk without a named file if and only if it is a sync of a detached handle with something to write through a writing client |
| Garbage.GarbageStep | rust/src/database_metadata.rs:42-164 | no open, removal or move ever leaves any, and a call of a handle only as GarbageIff says |
| Garbage.GarbageStays | rust/src/database_metadata.rs:42-164 | what was left is never cleared away |
| Garbage.GarbageRunIff | rust/src/database_metadata.rs:42-164 | at the end of a run there is garbage if and only if some such sync of it reached the database |
| Garbage.NoGarbageRuns | rust/src/database_metadata.rs:42-164 | from an empty database and without such syncs, at every reachable state every stored record and chunk belongs to a named file and fits the geometry and size of its record, also when truncation on open swapped the geometry |
| Garbage.GarbageWitness | rust/src/database_metadata.rs:45-69 | create a file, write a byte, remove it, sync: the record and the chunk stay without a name |
| Routing.SuffixesExclusive | rust/src/fs.rs:27-29 | no path ends with two of the companion suffixes |
| Routing.OrderDoesNotMatter | rust/src/fs.rs:454-466 | the group of a path does not depend on the order in which the suffixes are tried |
| Routing.GroupExact | rust/src/fs.rs:454-466 | the group spelled out with the three suffixes: a path is in group g if and only if it is g with one of them, g neither empty nor ending in a slash, or it is g itself and no such name |
| Routing.CompanionsGrouped | rust/src/fs.rs:454-466 | every companion of every database name belongs to that database |
| Routing.CompanionMovesStay | rust/src/fs.rs:270-275 | a move between companions is never refused as crossing databases |
| Routing.CompanionsShareIff | rust/src/fs.rs:27-29 | companions share the group of their database if and only if it is not named like a companion |
| Routing.CompanionApartWitness | rust/src/fs.rs:454-466 | the log of a database named with a log suffix goes elsewhere |
| Routing.UnescapeInverts | rust/src/fs.rs:380-384 | escaping a group name can be undone, for every name |
| Routing.StoragePathExact | rust/src/fs.rs:378-384 | the storage path byte by byte: root, slash, and the group with percent as %25 and slash as %2F |
| Routing.EscapeHasNoSlash | rust/src/fs.rs:380-384 | an escaped name has no path separator |
| Routing.DatabasesStoredApart | rust/src/fs.rs:378-384 | distinct groups are stored at different paths, neither inside the other |
| Clients.StepKeepsInv | rust/src/fs.rs:284-376 | every step of every call keeps the locks, what each call in flight knows, and that clients are what was opened |
| Clients.RunKeepsInv | rust/src/fs.rs:284-376 | so every interleaving of any number of calls on any groups keeps it |
| Clients.AtMostOneWriter | rust/src/fs.rs:350-376 | in any interleaving a database's writer is opened at most once |
| Clients.SuccessServedByWriter | rust/src/fs.rs:328-348 | a call that succeeds once its database has a writer is served by that writer |
| Clients.OnlyWritesOpenWriters | rust/src/fs.rs:328-376 | reads and existence checks never open a writer |
| Clients.OnlyCreatesCreate | rust/src/fs.rs:350-376 | no call that does not create brings a database into existence, faults included |
| Clients.ClosedOpensNothing | rust/src/fs.rs:284-309 | after close nothing is ever opened again |
| Clients.CloseCloses | rust/src/fs.rs:284-309 | in any interleaving closing leaves the file system closed with no client, and nothing is opened from then on |
| Clients.ClosedRefusesCalls | rust/src/fs.rs:331-356 | every call begun after a close is refused as an invalid argument |
| Clients.OnlyClosedRefuses | rust/src/fs.rs:331-356 | and before a close none is |
| Clients.CallsOfDatabase | rust/src/fs.rs:331-358 | a call on a companion of a database, or on the database file unless that is named like a companion itself, asks for that database |
| Clients.WriterOfDatabase | rust/src/fs.rs:353-376 | so the writer it opens is that database's |
| Clients.CompanionsServed | rust/src/fs.rs:328-376 | and in any interleaving every later call on any file of the database that succeeds, reading or writing, is given that same writer |
| Clients.NotFoundMeansAbsent | rust/src/fs.rs:342-371 | a file is reported missing at this level only when its database does not exist and no client of it is open |
| Clients.AbsentIffNotFound | rust/src/fs.rs:342-371 | a call that looks whether its database exists, without a fault, reports the file missing if and only if it does not |
| Clients.LockIsolates | rust/src/fs.rs:311-318 | while a call holds its group's lock no other call's step touches its client |
| ClientCalls.SoloKeepsInv | rust/src/fs.rs:328-376 | a call with nothing else going on is a run of the state machine and releases its lock |
| ClientCalls.SlateDbFileSystem.ReadClient | rust/src/fs.rs:331-348 | a closed file system refuses; otherwise, when no opening fails, the client of the path's database group is reused, or a reader is opened on it, or the file is missing because the database is; no other group changes; and the call is the state machine's |
| ClientCalls.SlateDbFileSystem.WriteDb | rust/src/fs.rs:353-376 | likewise: when no opening fails the group's writer is reused or opened, except that a call that does not create finds a missing database missing |
| ClientCalls.SlateDbFileSystem.OpenReaderOf | rust/src/fs.rs:342-347 | the group's client gains a reader, or the file is missing because its database was never written |
| ClientCalls.SlateDbFileSystem.MoveClient | rust/src/fs.rs:270-277 | a move between files of different databases is refused with nothing opened or changed; otherwise it is carried out by the writer of the one database of both paths |
| ClientCalls.SlateDbFileSystem.ExistenceClient | rust/src/fs.rs:250-260 | an existence check looks in no database if and only if the path's database does not exist and has no client, instead of failing |
| ClientCalls.SlateDbFileSystem.Close | rust/src/fs.rs:284-309 | the file system is closed and has no client; it is the machine's close step |
| RunningStats.Recentre | rust/src/io_metrics.rs:37-40 | how the sum of squared deviations changes with its centre |
| RunningStats.UpdateExact | rust/src/io_metrics.rs:33-41 | one update takes the exact mean and two-pass deviation sum of any samples to those with one more sample |
| RunningStats.RunningStats.Record | rust/src/io_metrics.rs:33-41 | after any sequence of records the state is the count, total, mean and two-pass deviation sum of exactly those samples |
| RunningStats.RunningStats.Snapshot | rust/src/io_metrics.rs:43-55 | the reported mean and variance are the two-pass ones, and the clamp at zero never changes them |
| RunningStats.DeviationsNonNegative | rust/src/io_metrics.rs:47 | the deviation sum is never negative |
| RunningStats.OrderDoesNotMatter | rust/src/io_metrics.rs:33-41 | the same samples in any order give the same sum and deviations, hence the same mean and variance |

## Left out

- SlateDB itself (log-structured storage, manifests, fencing, isolation, compaction, caches), OpenDAL and object stores: the database is one atomic map that may fail.
- Concurrent transactions: a catalog transaction runs from begin to commit with no other write in between, so conflicts at commit appear only as failed commits.
- Sync: that a batch is flushed is recorded (`Store.flushed`), but a crash goes back to what was applied, see the next line.
- Buffered writes and crashes: a batch is durable once it is applied; that an unflushed batch may be lost later is the same to a reader as a batch not applied, but the model lets the failed sync decide it at once.
- Several databases at once: the refinement is of one database; that paths go to the right one, and that moves stay inside one, is proved in `Routing`. The calls in `FileCalls` start from an open database; which database and client a call gets is in `Clients` and `ClientCalls`.
- Readers over a `DbReader` that advances under an open handle: a reader opened beside or before a writer of the same path is a detached handle, about which nothing is promised except that it cannot do harm.
- DetachedIo: says nothing about what a detached handle reads, only that it changes no path.
- HandleRefinesFlat: as in every refinement built on it, the flat file allows an out-of-range answer to any read that starts between two zeros; exactly when it happens is in `HandleStep` and `ReadDeliversIff`, since it depends on chunk lengths.
- RunRefinesFlat: inherits that permission of the flat file.
- RunRefinesPlainFs: inherits it too; `HoleFreeRunsStayInRange` says when it is not used.
- DenseRunsStayInRange: goes one way, since a file with a hole is out of range only if somebody reads from inside the hole; the exact condition per read and per file is in `ReadDeliversIff` and `GapFreeIff`.
- HoleFreeRunsStayInRange: goes one way for the same reason, and says nothing of detached handles.
- CopyChunkInto: the panic is an error result here; how the C interface catches it (rust/src/ffi.rs:189) is not modelled.
- DecodeEncodes: unknown fields and other wire types are rejected by the model's decoder where prost skips some of them; the program never writes them.
- ReadChunksFromStore: the groups are fetched one after another, not concurrently; they are reads of one store, so only which fault is reported first could differ.
- Truncate: memory and `usize` limits are those of a 64-bit machine; running out of memory is not modelled.
- Timestamps (`modified_at_ms`), error messages and sources, Debug output and source locations.
- `scan_read_ahead_bytes` and the scan options: they do not change what a scan returns.
- `FaultyChunkStore`: its one-shot faults are among the faults any store call may have here.
- Failures of `transaction.put` and `transaction.delete`: they end the call before its commit, like a failed read.
- `db_cache_id` and `stable_hash`: uniqueness rests on a 64-bit hash.
- RunningStats: rounding of floating-point numbers, the square root of the standard deviation and the 64-bit width of the counters.
- The C ABI, the C++ adapter, table functions, settings, S3 configuration, the OpenDAL metrics layer, scripts and build files: plumbing or one-branch code.
- Errors of closing a database: `Close` drops every client whatever SlateDB answers, as the code does, and does not report the first error.
