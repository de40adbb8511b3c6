# Block cache and slot tables: a verified model

This project models two C libraries of the PUPS/P3 tree and proves what they do, for every input, run and
interleaving the statements range over.

**The block cache** (`pupscore.src/cachelib.c`). A cache is a mapped file cut into `n_blocks` equal blocks,
each holding `n_objects` packed objects. Beside the mapping lie per-block tables (flags, tags, lifetimes,
hubness, binding), a table of object pointers per block, and a counter of used blocks. Calls create, load,
delete, clear, retag, move, compact, resize and merge caches, write a mapinfo file describing one, and create
it again from that file.

**The slot tables** (`pupscore.src/cantorlib.c`). Growable pointer tables with NULL holes and a live count,
and the union, intersection, difference and copies built on them.

The model follows the code as written, also where the code departs from what its comments or names say. Where
a desired property then fails, the project proves exactly when it holds. The main findings:

- Compaction is a stable in-place compaction of the bytes, but it copies a block *and* swaps its pointer row.
  If the call does not also change the size, live blocks are read right through their pointers exactly when no
  used block lies between the first hole and the number of used blocks.
- The used counter counts objects added to a named block, not blocks, and not at all what a load into any block
  adds. Under any schedule it differs from the number of used blocks by exactly the sum of nine named causes.
- Shrinking trusts that counter. After loads into any block, compaction of a new cache keeps only the first n
  modulo 8192 of them. A counter above the number of blocks, as two objects in a block leave it, makes
  compaction *grow* the cache, with whatever flags the heap holds. Compaction loses nothing exactly when the
  live blocks fit the size picked and no block gained is flagged used.
- A size change reallocates lifetimes at half their width. The writer reads the low half of each, so from then on
  the mapinfo file can be written exactly when the last change left one block.
- Lifetimes are written with 4 bytes and read with 8. A fresh mapinfo file can be read back only if the cache
  has no blocks; over a longer old file it reads back if 4 more bytes a block follow.
- `cache_restore_block` restores nothing unless some flag bit besides the used bit is set.
- `cache_lock_block` compares the kind of lock asked for with `RDLOCK`, which `utils.h` defines as 4, the value
  of `BLOCK_WRLOCK`. So it takes the read lock for a caller that asks to write, and the write lock for one that
  asks to read. The mutex hides this from all calls but tag statistics, which can then read the block at the
  same time.
- Compaction swaps the block locks themselves, and a growing cache does not initialise its new ones. The mutex
  hides the first from all calls but tag statistics, which hold a block lock without it: beside a compaction a
  listing can come to stand at a block that another thread writes, and to leave a lock that is never granted
  again. The second can hold up a thread that runs alone. Exactly when is proved for both.
- A load into any block of a full cache reads past the pointer table. The search precedes the locking, so two
  such loads at once can pick the same block; both count exactly when one search passes the first free block
  after the other load has marked it.
- Merges can deadlock exactly when some of them form a ring; `cache_get_object_size` never gives the mutex back.
- Intersections and differences scan from the wrong index. The difference of nodes without repeats is right
  exactly when every common object sits at the same index in both. For node 2 = {x} and node 3 = {z, x} the
  union has three members, the difference two and the intersection one, which do not add up; the project
  says exactly when it is, and that full scans always would.
- A table that has grown holds uninitialised slots until it is full again; every set operation or copy reads
  them.

## How it is built

A call is modelled twice. On values, a function gives the outcome: `Done`, `Exit` (it calls `pups_error`, whose
default action leaves the process) or `Fault` (it touches memory it does not own, which C leaves undefined).
In place, a method of a class does what the C function does, loop by loop, and is proved to compute that
function of the old state. Lemmas then state what the functions mean.

| file | contents |
|---|---|
| `Machine.dfy` | integer widths, outcomes, facts about products and slices |
| `Slab.dfy`, `Calls.dfy` | a cache as a value; every call on it; runs of calls |
| `Addressing.dfy` | reading through a pointer against reading by position |
| `Cache.dfy` | class `Cache`: the calls in place |
| `Compaction.dfy`, `Indexed.dfy`, `Shrinking.dfy`, `CompactReads.dfy` | compaction: bytes, pointers, size, the whole call |
| `Counting.dfy` | counting and listing used flags |
| `Resizing.dfy`, `Merging.dfy`, `Tagging.dfy` | resize, merge, clear and retag |
| `Combined.dfy`, `Losses.dfy` | calls that work on what others leave; from creation to a loss |
| `Accounting.dfy`, `Simulation.dfy`, `Converse.dfy` | the used counter and the caller's view, over runs |
| `Layout.dfy` | `cache_create`: offsets and sizes in 64-bit arithmetic |
| `Words.dfy`, `Mapinfo.dfy`, `MapinfoFile.dfy` | the mapinfo format, and the loops that write and read it |
| `Persist.dfy`, `Recording.dfy` | a cache written and created again; when it can be written |
| `LockArrays.dfy`, `Locks.dfy`, `Discipline.dfy` | arrays of block locks and how they are rearranged; what each call locks, and the rules it keeps |
| `Exclusion.dfy`, `Waiting.dfy`, `Rings.dfy`, `Deadlocks.dfy` | mutual exclusion and progress under any schedule; merges that wait in a ring |
| `Orphans.dfy`, `Beside.dfy`, `Grown.dfy` | locks carried away by compaction, and locks found in the heap |
| `Books.dfy`, `SharedBook.dfy` | the counter, assignment by assignment, under any schedule |
| `Sections.dfy`, `SingleRuns.dfy`, `Programs.dfy` | the assignments, and the whole program, of a call against the call on values |
| `Sharing.dfy`, `Searches.dfy`, `Lapses.dfy` | the swapped kinds of block lock, loads that search at once, mutexes given up never or too early |
| `SlotTables.dfy`, `SlotTableClass.dfy` | slot tables as values and in place |
| `SetAlgebra.dfy`, `Conservation.dfy`, `SetResults.dfy` | set operations, their laws together, copies; as values and in place |

In the model a cache maps a shared file: `arena` is the mapped part, `beyond` the rest of the file, which no
call truncates. The base address of a new mapping and the heap content that `realloc` exposes are parameters,
so every theorem holds whatever they are. The checksum is an arbitrary function of the bytes.

## Model

| member | source | states |
|---|---|---|
| Compaction.CompactionIsStable | pupscore.src/cachelib.c:5427-5456 | after the walk exactly the first slots are used, slot k holds the bytes and tag of the k-th used block of the original order, and all bytes above are untouched |
| Compaction.WalkProgress | pupscore.src/cachelib.c:5427-5456 | the invariant of the walk before each block: hole index, move count, flags, tags, pointer rows and bytes in terms of the used blocks passed so far |
| Compaction.WalkFrame | pupscore.src/cachelib.c:5293-5334 | the walk changes nothing but bytes, pointers, tags and flags, and only permutes the pointer rows |
| Compaction.WalkTags | pupscore.src/cachelib.c:5313-5315 | and permutes the tags |
| Compaction.MovesCounted | pupscore.src/cachelib.c:5427-5456 | the number returned is the number of used blocks above the first hole |
| Compaction.BlockOfCopy | pupscore.src/cachelib.c:5343-5376 | copying a block into a hole changes the bytes of that block alone |
| Indexed.IndexedRead | pupscore.src/cachelib.c:5293-5376 | which original block every compacted block is read as through its pointer, since bytes and pointer rows both move |
| Indexed.IndexViewExact | pupscore.src/cachelib.c:5427-5456 | reading through the pointers after the walk is right for all live blocks if and only if no used block lies between the first hole and the used count |
| CompactReads.CompactReadsExact | pupscore.src/cachelib.c:5384-5490 | the same for the whole call, for any counter: right if and only if the new size holds all live blocks, and the size changed or the flags were so |
| CompactReads.CompactSoundExact | pupscore.src/cachelib.c:5384-5490 | the cache is sound afterwards if and only if the size changed or nothing had to move, and no block gained carries a stray flag bit |
| CompactReads.CompactionScrambles | pupscore.src/cachelib.c:5384-5490 | a three-block cache whose first live block reads as another one after compaction |
| Shrinking.ShrinkChoice | pupscore.src/cachelib.c:5463-5481 | the size asked for is congruent to the old one and less than a quantum above the counter, in wrapping 32-bit arithmetic; plain arithmetic, and at most the old size, when the counter is |
| Shrinking.ShrinkUnique | pupscore.src/cachelib.c:5463-5481 | no other size has these properties |
| Shrinking.GrowthExact | pupscore.src/cachelib.c:5463-5481 | a counter above the size makes compaction ask for a larger cache, by which number of quanta, if and only if that many blocks fit 32 bits; otherwise for what is left of the old size modulo a quantum |
| Shrinking.CompactOutcome | pupscore.src/cachelib.c:5384-5490 | whatever the counter says the call returns; below both sizes the used blocks are packed in order, as many as the new size holds; blocks above the old size carry the flags the heap held |
| Shrinking.CompactCount | pupscore.src/cachelib.c:5384-5490 | how many blocks are used afterwards: those that fit and those that appear |
| Shrinking.CompactLosesNothing | pupscore.src/cachelib.c:5463-5481 | the live blocks are the same as before if and only if they fit the size picked and no block that a growing cache gains is flagged used; under a right counter always |
| Losses.LoadsThenCompact | pupscore.src/cachelib.c:4250-4310 | from creation on: any number of loads into any block fill one block after the other and leave the counter at 0, and compaction of the shared cache then keeps the first n modulo 8192 of them, or all if that is 0 |
| Losses.CompactLosesLoadedBlocks | pupscore.src/cachelib.c:5463-5481 | so of four blocks loaded into a new cache of 8193 three are lost |
| Shrinking.CompactIdempotent | pupscore.src/cachelib.c:5384-5490 | a second compaction moves nothing, returns 0 and leaves the whole state if and only if the first exposed no used flag, or filled the old size and exposed them without a gap; so always unless the cache has grown |
| Resizing.ResizeContents | pupscore.src/cachelib.c:5578-5682 | blocks below both sizes keep bytes, flags and tags; new blocks carry what the heap held; every pointer is right for the new base |
| Resizing.NewBytes | pupscore.src/cachelib.c:5590-5605 | bytes past the old size are those the file had there, or 0 past its end; the file never gets shorter |
| Resizing.OtherPointers | pupscore.src/cachelib.c:5652-5663 | pointers past the last object stay as they were, or as the heap had them |
| Resizing.ResizeLifetimes | pupscore.src/cachelib.c:5618-5622 | of the lifetimes 4 bytes a block are kept: the old words first, then what the heap held |
| Resizing.ResizeRoundTrip | pupscore.src/cachelib.c:5578-5682 | to another size and back restores all bytes, also of blocks that were cut off, but flags and tags only below the smaller size |
| Merging.MergeContents | pupscore.src/cachelib.c:4624-4684 | cache 1 keeps its blocks, those of cache 2 follow, and all pointers are right |
| Merging.MergeLoads | pupscore.src/cachelib.c:4656-4670 | the copying loop returns if and only if every pointer of cache 2 leads to a block of its mapping, and copies what they lead to, right or wrong |
| Merging.MergeIsConcatenation | pupscore.src/cachelib.c:4624-4684 | the live blocks are those of cache 1 and then those of cache 2 under the new tag, and the counters add |
| Merging.MergeSelfIsCopy | pupscore.src/cachelib.c:4633-4684 | merging a cache with itself, although it then copies from what it is writing, does what merging it with a copy of itself would do |
| Merging.SelfReturns | pupscore.src/cachelib.c:4656-4670 | with whatever pointers, the loop over one cache returns if and only if it stays in the mapping and never copies onto an overlapping range |
| Merging.MergeWraps | pupscore.src/cachelib.c:4624-4684 | when the block counts add up past 2^32: an error if nothing would be left, otherwise cache 1 is cut down to the wrapped count and nothing is copied |
| Combined.MergeThenCompact | pupscore.src/cachelib.c:4656-4684 | compacting after a merge leaves that same sequence packed in the first blocks |
| Combined.MergeIntoCleared | pupscore.src/cachelib.c:4656-4670 | merging into a cleared cache writes through uninitialised pointers: it returns if and only if each of them happens to lead into the mapping |
| Combined.MergeIntoClearedBytes | pupscore.src/cachelib.c:4656-4670 | each byte of the mapping is then that of the last block of cache 2 whose stray pointer covers it, or what it was |
| Combined.AnyBlockExact | pupscore.src/cachelib.c:4250-4310 | a load into any block takes the least free block and changes that slot alone, but not the counter; it returns if and only if a block is free |
| Tagging.ClearExact | pupscore.src/cachelib.c:4526-4551 | exactly the used blocks with the tag lose their used flag |
| Tagging.RetagExact | pupscore.src/cachelib.c:4869-4896 | exactly the blocks with the old tag, used or not, get the new one |
| Tagging.RetagCounts | pupscore.src/cachelib.c:4869-4896 | the number returned is how many blocks had the tag; a second call finds none |
| Tagging.RetagThenClear | pupscore.src/cachelib.c:4526-4551 | retagging a to b and clearing b frees exactly the used blocks tagged a or b, returns their number, lowers a right counter by it, and leaves all else |
| Tagging.RetagAfterWalk | pupscore.src/cachelib.c:4869-4896 | retagging after compaction's walk changes as many blocks as before it |
| Tagging.ClearCall | pupscore.src/cachelib.c:4526-4558 | the whole of `cache_clear`: flags, counter, answer, and no object of any block can be read afterwards, whatever the tag |
| Accounting.AccountingStep | pupscore.src/cachelib.c:3775-5692 | which calls keep the counter equal to the number of used flags: an if-and-only-if for every call |
| Accounting.AccountingRun | pupscore.src/cachelib.c:4133-5692 | over every run of such calls the counter stays right |
| Simulation.SoundRead | pupscore.src/cachelib.c:1968-2052 | in a sound cache every object read through its pointer is the one in its slot |
| Simulation.StepFollows | pupscore.src/cachelib.c:4133-5692 | each proper call touches only its own memory, does to the slots what the caller expects, and keeps the cache sound |
| Converse.StepExact | pupscore.src/cachelib.c:4133-5692 | no other call does: an if-and-only-if for every call, as the caller can check before it |
| Converse.LeavesExact | pupscore.src/cachelib.c:3910-5692 | which arguments make a call leave the process: an if-and-only-if for every call |
| Simulation.RunFollows | pupscore.src/cachelib.c:4133-5692 | so does every run of proper calls |
| Converse.RunExact | pupscore.src/cachelib.c:4133-5692 | a run is free of faults and goes as the caller expects if and only if all its calls are proper |
| Simulation.MergeFollowsExact | pupscore.src/cachelib.c:4656-4684 | a merge into a sound cache lays the blocks of cache 2 after its own if and only if the first pointers of cache 2 lead to its blocks and no stray flag bit is set |
| Simulation.CompactFollows | pupscore.src/cachelib.c:5384-5490 | compaction of a sound cache keeps the first live slots in order and uses no others below the old size |
| Simulation.RestoreNeverRestores | pupscore.src/cachelib.c:4471-4477 | restoring a block of a sound cache changes nothing and returns FALSE |
| Simulation.RestoreUndoesDelete | pupscore.src/cachelib.c:4405-4477 | deleting and restoring a used block gives back the cache if and only if another flag bit is set and the counter was not 0 |
| Simulation.DeleteAnswers | pupscore.src/cachelib.c:4385-4420 | the answer of a delete is TRUE if and only if the block was used, of which there is then one less; else nothing changes; a second delete answers FALSE |
| Layout.LayoutExact | pupscore.src/cachelib.c:889-976 | all objects of all blocks lie inside the mapping and apart from each other if and only if the cache size fits 64 bits |
| Layout.CreateExact | pupscore.src/cachelib.c:741-1040 | for any arguments which of its three answers `cache_create` gives: created, left, or faulted |
| Layout.CreateSound | pupscore.src/cachelib.c:880-1067 | with arguments that do not overflow a cache is created: sound, its counter right, its slots free with tag 0, its file unchanged, the fields as asked for, and every pointer, offset and size at its place in the layout |
| Layout.CreatedRun | pupscore.src/cachelib.c:672-1078 | every run of proper calls from a created cache is free of faults and does what the caller expects |
| Converse.CreatedRunExact | pupscore.src/cachelib.c:672-1078 | and no other run is |
| Words.UnpackPack | pupscore.src/cachelib.c:3090-3136 | words that fit their width come back as written |
| Words.TakeWordsEnough | pupscore.src/utilib.c:9481-9496 | a run of reads ends in an error if and only if the bytes run out |
| Mapinfo.IntendedRoundTrip | pupscore.src/cachelib.c:2988-3136 | with 8 bytes a lifetime, reading what was written gives the record and leaves exactly what followed it |
| Mapinfo.TooManyObjects | pupscore.src/cachelib.c:3570-3575 | a record of more than 256 objects is never read: the file ends after 256 descriptions at the latest, which is an error, or the next one overruns the table |
| Mapinfo.ReadBackExact | pupscore.src/cachelib.c:3486-3652 | as written: what is read back, field by field, from the record and any bytes after it, and when the read exits |
| Mapinfo.RoundTripExact | pupscore.src/cachelib.c:3486-3652 | as written, the record comes back unchanged if and only if the stated coincidences hold |
| Mapinfo.FreshFileUnreadable | pupscore.src/cachelib.c:3112-3119 | a file just created cannot be read back, unless the cache has no blocks |
| Mapinfo.OverwriteReadable | pupscore.src/cachelib.c:2916-2986 | written over an old file it can be read if and only if the old one was longer by 4 bytes a block |
| Mapinfo.LifetimesSurvive | pupscore.src/cachelib.c:3621-3628 | with hubness 0 the lifetimes survive if and only if all but the first are 0 and that one fits 32 bits |
| MapinfoFile.WriteMapinfo | pupscore.src/cachelib.c:2988-3136 | the writes in order leave the file as the encoding says, over whatever was there |
| MapinfoFile.ReadMapinfo | pupscore.src/cachelib.c:3486-3652 | the reads in order give the decoded record, or exit |
| MapinfoFile.File.WriteWords | pupscore.src/cachelib.c:3080-3136 | the writing loops put each word in turn |
| MapinfoFile.File.ReadWords | pupscore.src/cachelib.c:3577-3652 | the reading loops take each word in turn and exit on a short read |
| Persist.DecodeFits | pupscore.src/cachelib.c:3486-3652 | whatever bytes are read, every field of the record fits its type and every table its count |
| Persist.PersistRestore | pupscore.src/cachelib.c:1019-1067 | a sound cache whose arrays reach as far as the writer reads, written, read back and created again at any base, has the same blocks, flags, tags, counter and object reads; the read succeeds if and only if 4 bytes a block follow the record; the checksum accepts it |
| Persist.PersistRestoreIntended | pupscore.src/cachelib.c:1019-1067 | with 8 bytes a lifetime this always works and keeps the words of the lifetimes, hubness and binding too |
| Persist.RestoreUnchanged | pupscore.src/cachelib.c:463-490 | over unchanged bytes no checksum function rejects the cache |
| Persist.RestoreExact | pupscore.src/cachelib.c:463-490 | for any record that fits, exactly when creating from it leaves, faults, refuses a corrupt cache, or makes one, and which |
| Persist.DamageExact | pupscore.src/cachelib.c:466-480 | over other bytes of the same length a recorded cache is refused if and only if a check is asked for and the two checksums are not 0 and differ |
| Persist.RecordExact | pupscore.src/cachelib.c:3040-3080 | the record gives the size of the mapping and the names, and does not depend on where the cache is mapped |
| Persist.CreatedRecordable | pupscore.src/cachelib.c:935-976 | a created cache can be recorded, and its blocks live for ever |
| Persist.UnreadableExact | pupscore.src/cachelib.c:3486-3652 | a file that cannot be read is not restored from, and when that is a fault |
| Persist.TextOfField | pupscore.src/cachelib.c:3486-3652 | a name field stands for the text before its first NUL |
| Recording.RecordableRun | pupscore.src/cachelib.c:5619-5623 | after a run that changed the size the mapinfo file can be written without reading past a table if and only if the last change left one block; after any other run if and only if it could before |
| LockArrays.PlacesExact | pupscore.src/cachelib.c:5293-5334 | compaction leaves the entry of a block, lock included, where it was if and only if the block lies before the first hole, or is free and lies past the used ones |
| LockArrays.PlacesOfEntries | pupscore.src/cachelib.c:5293-5334 | after the walk every entry, pointer row, tag and all flag bits but the used bit, is that of one block, by one rearrangement for all; locks go the same way |
| Exclusion.RunSafe | pupscore.src/cachelib.c:1993-2040 | under every schedule of disciplined threads each mutex has one owner, whatever becomes of the block locks |
| Discipline.FitsExact | pupscore.src/cachelib.c:3775-5692 | a call takes block locks only under the mutex, or bare and gives them back at once, changes nothing without the mutex, rearranges nothing while it holds a block, and ends holding nothing, if and only if it is not `cache_get_object_size` or made for a caller who holds the mutex |
| Exclusion.CallsSafe | pupscore.src/cachelib.c:2367-2382 | any number of threads running any lists of such calls: each mutex has one owner; and if no cache is both listed by tag statistics and compacted, resized or merged into, each block has one writer or only readers |
| Rings.CallsProgress | pupscore.src/cachelib.c:4602-4605 | if besides every lock taken is known to have been unlocked at first, then some thread can go on or leaves the process with an error, unless the merges among the calls form a ring |
| Rings.RankedNoRing | pupscore.src/cachelib.c:4602-4605 | merges in one order of the caches form none |
| Orphans.OrphanedExact | pupscore.src/cachelib.c:5329-5333 | packing a cache carries the lock of a thread that lists its tags to another block if and only if it displaces the block the thread stands at; and only then the thread stands there without a lock |
| Orphans.OrphanStarves | pupscore.src/cachelib.c:5329-5333 | a lock carried away so is never granted for writing again |
| Beside.ClashExact | pupscore.src/cachelib.c:5329-5333 | one thread lists a cache, another compacts it and deletes block p: they can both be at the block, one reading, one writing, if and only if compaction displaces p and leaves the cache a block p |
| Beside.DeadlockExact | pupscore.src/cachelib.c:5329-5333 | they can deadlock exactly then, when new locks show as unlocked |
| Grown.GrownExact | pupscore.src/cachelib.c:5619-5681 | a thread that resizes a cache and deletes a block of it ever returns if and only if the block is there and, if new, the heap happened to hold an unlocked lock in its place |
| Grown.GrowthLocks | pupscore.src/cachelib.c:5622-5622 | a merge, a resize and the end of a compaction keep the old locks and put what the heap held behind them |
| Sharing.AloneExact | pupscore.src/cachelib.c:2367-2382 | while the array of locks records who holds what, a thread that holds a block under the mutex has it alone if and only if it holds the write lock or no thread listing tags stands at that block |
| Sharing.AloneInRun | pupscore.src/cachelib.c:2367-2382 | and it records that in every run in which listed and rearranged caches are kept apart |
| Sharing.LockBlockExact | pupscore.src/cachelib.c:3840-3855 | beside a thread that lists the tags of a cache, a thread in `cache_lock_block` can share the block if and only if it asked for the write lock and the block is one of those listed |
| Sharing.Shared | pupscore.src/cachelib.c:3848-3851 | the schedule in which a thread that asked for the write lock and one that lists the tags hold the block together |
| Sharing.AccessExact | pupscore.src/cachelib.c:2018-2040 | likewise for `cache_access_object`, if and only if it asked to read |
| Sharing.AssignsAlone | pupscore.src/cachelib.c:4385-4420 | while listed and rearranged caches are kept apart, a thread about to delete, restore, load, find or retag a block holds its write lock and has it alone |
| Deadlocks.MergesExact | pupscore.src/cachelib.c:4602-4605 | any number of threads, each with any list of merges, can deadlock if and only if merges of different threads form a ring, each merging the cache the next one merges into |
| Lapses.EndedHoldingStarves | pupscore.src/cachelib.c:2197-2217 | once a thread has ended holding a mutex no schedule ever lets another lock that cache |
| Lapses.ObjectSizeStarves | pupscore.src/cachelib.c:2197-2217 | as happens after `cache_get_object_size` |
| Lapses.NoRace | pupscore.src/cachelib.c:4217-4232 | disciplined threads are never about to assign to one cache at the same time |
| Lapses.LoadDropsCallersMutex | pupscore.src/cachelib.c:4217-4232 | a load made for a caller that holds the mutex gives it away: a schedule after which the caller and another thread are both about to assign |
| Books.ApplyLaw | pupscore.src/cachelib.c:3775-5692 | every assignment a call makes keeps the counter equal to the number of used flags plus what the ledger of its causes says |
| Books.JoinedLaw | pupscore.src/cachelib.c:4656-4684 | so does a merge, whose ledger is the sum of both |
| SharedBook.CounterExact | pupscore.src/cachelib.c:3775-5692 | any number of threads, any calls, any schedule: whenever a mutex is free that counter is exactly the number of used flags plus the drift of the ledger, and so right if and only if the entries cancel out |
| SharedBook.CounterRight | pupscore.src/cachelib.c:4213-4420 | it is right whenever the mutex is free if the calls are deletes, clears, retags, listings, accesses, locks, compactions, merges and named loads and each load finds its block free |
| SharedBook.CounterRightExact | pupscore.src/cachelib.c:4213-4420 | without compactions and merges it is then too high by exactly the number of loads that found their block in use, while fewer loads are made than it has room for; so right if and only if there was none |
| Searches.TwoLoadsExact | pupscore.src/cachelib.c:4250-4310 | two loads into any block, each searching first, raise the number of used blocks by two if and only if one search passes the first free block after the other load has marked it; else by one |
| Searches.LoadLost | pupscore.src/cachelib.c:4250-4310 | a schedule from two loads not yet begun in which one is lost |
| Sections.DeleteSection | pupscore.src/cachelib.c:4385-4420 | the assignments made under the locks add up to the delete on values, and the ledger records a delete under counter 0 |
| Sections.RestoreSection | pupscore.src/cachelib.c:4471-4477 | likewise for restoring a block; the ledger records restoring a used one |
| Sections.SetUsedSection | pupscore.src/cachelib.c:3910-3960 | likewise for `cache_block_set_used`; the ledger records marking a used block and freeing a free one |
| Sections.PartSection | pupscore.src/cachelib.c:4213-4232 | likewise for adding an object to a named block that is not loaded: counted, but not marked |
| Sections.LoadAnySection | pupscore.src/cachelib.c:4250-4310 | likewise for a load into any block when nobody changed the flags after its search: marked, but not counted |
| Sections.LoadSection | pupscore.src/cachelib.c:4213-4232 | likewise for a load into a named block that returns; the ledger records one into a used block |
| Sections.ClearSection | pupscore.src/cachelib.c:4526-4551 | likewise for the clearing loop |
| Sections.RetagSection | pupscore.src/cachelib.c:4864-4901 | likewise for the retagging loop |
| Sections.ResizeSection | pupscore.src/cachelib.c:5578-5682 | likewise for resizing |
| Sections.CompactSection | pupscore.src/cachelib.c:5427-5481 | likewise for the walk and the resize of compaction |
| Sections.MergeSection | pupscore.src/cachelib.c:4656-4684 | likewise for a merge of like caches |
| Programs.ProgramExact | pupscore.src/cachelib.c:3775-5692 | any call that a thread runs alone to its end, with all its locks and loops: its cache's flags, tags and counter are those of the call on values, and all other caches are unchanged |
| Caches.Cache.AddObject | pupscore.src/cachelib.c:578-640 | registers an object size; a size of 0 leaves the process, and an object after the 256th overruns the table, since the check lets it pass |
| Caches.Cache.LayOut | pupscore.src/cachelib.c:889-892 | the offset loop fills the table with prefix sums, the word before the sizes counting as 0 |
| Caches.Cache.Create | pupscore.src/cachelib.c:672-1078 | the entry becomes the created cache, exits or faults, as the function on values says |
| Caches.Cache.RestoreFile | pupscore.src/cachelib.c:3486-3652 | from the bytes of a mapinfo file and the mapped file, likewise |
| Caches.Cache.Restore | pupscore.src/cachelib.c:463-490 | the part of it after the record has been read |
| Caches.Cache.AddBlock | pupscore.src/cachelib.c:4135-4357 | the new state and result are those of the function on values |
| Caches.Cache.DeleteBlock | pupscore.src/cachelib.c:4367-4423 | likewise |
| Caches.Cache.RestoreBlock | pupscore.src/cachelib.c:4433-4487 | likewise |
| Caches.Cache.SetUsed | pupscore.src/cachelib.c:3910-3960 | likewise |
| Caches.Cache.Clear | pupscore.src/cachelib.c:4526-4558 | likewise, for the loop |
| Caches.Cache.ChangeTag | pupscore.src/cachelib.c:4869-4896 | likewise, for the loop |
| Caches.MemCopy | pupscore.src/cachelib.c:5363-5363 | the bytes arrive, given that hole and block do not overlap |
| Caches.Cache.MoveBlock | pupscore.src/cachelib.c:5343-5376 | bytes copied, entries swapped, used bits moved; the copy never overlaps |
| Caches.Cache.FillHoles | pupscore.src/cachelib.c:5427-5456 | the loop ends in the state of the walk on values |
| Caches.Cache.Compact | pupscore.src/cachelib.c:5384-5490 | walk and resize give the state and count of the function on values |
| Caches.Cache.MapBlocks | pupscore.src/cachelib.c:1059-1067 | the two loops set every object pointer of every block and no other entry |
| Caches.Cache.Resize | pupscore.src/cachelib.c:5499-5692 | the new state is that of the function on values, for the heap content exposed |
| Caches.Cache.Merge | pupscore.src/cachelib.c:4576-4695 | likewise, for two different caches, with cache 2 unchanged |
| Caches.Cache.MergeSelf | pupscore.src/cachelib.c:4576-4695 | likewise, for a cache merged with itself |
| SlotTables.AddSafe | pupscore.src/cantorlib.c:527-580 | an add never faults, never overwrites a live entry, changes the live entries by exactly that one, and keeps the table valid |
| SlotTables.AddPlace | pupscore.src/cantorlib.c:527-580 | the entry goes into the first hole among the first cnt slots, or behind them, in a table 64 slots larger if it was full; a missing entry is refused |
| SlotTables.AddFaults | pupscore.src/cantorlib.c:527-580 | with any table: exactly when adding goes wrong |
| SlotTables.Pigeonhole | pupscore.src/cantorlib.c:566-580 | if the first count slots are live no other slot is |
| SlotTables.RemoveExact | pupscore.src/cantorlib.c:919-947 | removing empties the first slot with the tag; without one it changes nothing, or faults if and only if the table holds junk |
| SlotTables.RunSafe | pupscore.src/cantorlib.c:760-955 | over every run no entry is lost or overwritten, the count is right, and faults come only from removing absent tags |
| SlotTables.EmptyRunSafe | pupscore.src/cantorlib.c:527-580 | so from a table without slots on |
| SlotTables.ObjectIndexExact | pupscore.src/cantorlib.c:764-880 | the index returned is the slot's unless the table grew |
| SlotTableClass.SlotTable.Add | pupscore.src/cantorlib.c:474-590 | the table changes in place as the function on values says |
| SlotTableClass.SlotTable.Remove | pupscore.src/cantorlib.c:902-955 | likewise |
| SetAlgebra.UnionExact | pupscore.src/cantorlib.c:4148-4156 | the union lists all live entries of both nodes in order, or reads junk |
| SetAlgebra.UnionIsSetExact | pupscore.src/cantorlib.c:4148-4156 | each entry once if and only if neither node repeats one and they share none |
| SetAlgebra.IntersectionExact | pupscore.src/cantorlib.c:4030-4043 | only common entries, and all of them if and only if each sits in node 3 at its index in node 2 or later |
| SetAlgebra.DifferenceReturns | pupscore.src/cantorlib.c:4271-4285 | the second loop stays in the table if and only if node 2 is not larger or has nothing live within node 3's size |
| SetAlgebra.JunkExact | pupscore.src/cantorlib.c:4005-4295 | for any two nodes: the intersection reads junk if and only if a round meets it; the difference returns if and only if neither node holds junk and the second loop stays in the table |
| SetAlgebra.DifferenceExact | pupscore.src/cantorlib.c:4257-4285 | for nodes without repeats: the symmetric difference if and only if common entries sit at equal indices |
| Conservation.ConservationExact | pupscore.src/cantorlib.c:4030-4285 | for nodes without repeats the union counts every entry of the difference once and of the intersection twice if and only if the second loop of the difference stays in its tables and leaves out just the entries of node 3 that node 2 holds at the same index or before |
| Conservation.ConservationFails | pupscore.src/cantorlib.c:4271-4285 | two nodes for which it fails, and two for which it holds although common entries are not aligned |
| Conservation.AlignedConserves | pupscore.src/cantorlib.c:4030-4285 | aligned common entries suffice |
| Conservation.FullScanLaws | pupscore.src/cantorlib.c:4005-4295 | with inner scans over the whole of the other table, whatever the holes: the common entries, the symmetric difference, and conservation |
| Conservation.IntersectionIsFull | pupscore.src/cantorlib.c:4030-4043 | the intersection as written is that of full scans, in order, if and only if every common entry sits in node 3 at its index in node 2 or later |
| Conservation.DifferenceIsFull | pupscore.src/cantorlib.c:4257-4285 | the difference as written is that of full scans if and only if it stays in its tables and common entries sit at equal indices |
| SetResults.ResultExact | pupscore.src/cantorlib.c:760-880 | a result is a valid table of its entries in order, and can be an operand if and only if it has at most 64 entries or fills its table |
| SetResults.UnionOfUnions | pupscore.src/cantorlib.c:4148-4156 | the union of two unions, and exactly when it is defined |
| SetResults.CopyExact | pupscore.src/cantorlib.c:2137-2175 | of the object table alone: copying it squeezes out the holes and leaves a table safe to add to; that succeeds if and only if the original has no junk, and the copy has none itself if and only if the original was full |
| SetResults.ObjectUnion | pupscore.src/cantorlib.c:4123-4166 | the loops fill the node with the union, or fault |
| SetResults.ObjectIntersection | pupscore.src/cantorlib.c:4005-4053 | the loops fill the node with the intersection as scanned |
| SetResults.ObjectDifference | pupscore.src/cantorlib.c:4232-4295 | the loops fill the node with the difference as scanned |
| SetResults.CopyObjects | pupscore.src/cantorlib.c:2117-2175 | the copying loop gives the copy on values |

## Left out

- Private (copy-on-write) mappings: resize and merge are stated for shared mappings, whose bytes live in the file.
- 64-bit wrap-around in `cache_resize`: the product of block count and block size is taken to fit, as a cache that exists guarantees up to its own size.
- Creating a cache over an entry in use, and adding objects after creation.
- Mapping a file shorter than the cache is a fault at once, rather than at the first access past its end.
- The byte order of words in a mapinfo file is taken as little-endian; the path and name fields are parameters.
- Exclusion.CallsSafe: the walk of compaction is one act there, so a search or listing without the mutex sees it done or not begun; clearing, retagging, listing and searching go block by block and read the number of blocks anew each time.
- Unlocking a block lock that one does not hold is undefined in C; in the lock model it changes nothing. Where it happens, after a compaction beside a listing, what is proved to go wrong has gone wrong before.
- A call that names a block out of range leaves the process; in the lock model its thread stops there, holding the mutex, and `Rings.CallsProgress` counts it as going on. Resizing to 0 blocks and merging unlike caches, which leave the process too, change nothing there, and a merge whose block counts pass 2^32 - 1 is followed by `Merging.MergeWraps` alone.
- Searches.TwoLoadsExact: needs two free blocks; a search that finds none goes on past the table, and its thread then does nothing defined.
- SharedBook.CounterExact: merges are of like caches, and of calls made for a caller that holds the locks already only a load and a delete appear, in `Lapses.LoadDropsCallersMutex`.
- `cache_reset_blocklocks`.
- A block lock released by a load that never took it, as with `BLOCK_LOADED` alone.
- File locks, `msync`, homeostatic protection, archives, statistics printing and name handling.
- The tag histogram, which never records a tag, and plain getters and setters.
- Converse.StepExact: a merge into a cache whose object table has been cleared is described byte by byte in `Combined.MergeIntoClearedBytes`, not by a condition on the call.
- SetResults.CopyExact: copying a node also reallocates its link table, and for a node without links to no bytes, for which the reallocation function returns nothing defined; link tables are not modelled.
- Clearing a node or list frees its members; the destination of a set operation or copy starts cleared and shares nothing with the operands.
- `cantor_clear_nodelist` leaves a dangling table pointer, so reuse of a cleared node list is not modelled; nor are link tables, persistent heaps, pointer probes and HTML output.
- The mutexes of nodes: `cantor_copy_nodelist` locks twice where it means to unlock.
