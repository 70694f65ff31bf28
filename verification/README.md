# Verification of safe-bump's arenas

safe-bump hands out handles (`Idx`: a stamp and a slot), blocks and checkpoints for values in an
arena, and promises that a handle never reads a value it was not issued for: not after a rollback,
a reset or a drain, not when a destructor panicked half way through one, not in another arena, and
not while other threads allocate. This project models the mechanism behind that promise and proves it.

Run `dafny verify dfyconfig.toml` with Dafny 4.11.

## How it is laid out

| file | what it holds |
|---|---|
| `Stamps.dfy` | the process-wide stamp allocator: global counter, one pool per thread, any interleaving |
| `History.dfy` | the reference: one stamp per slot, the list of commits that re-stamped slots, the live items; what a handle and a checkpoint mean; when they stay true |
| `Segments.dfy` | the compressed index (`Identity`, `SharedIdentity`) proved to stand for the flat history |
| `Arena.dfy`, `Blocks.dfy`, `Iter.dfy` | the single-thread arena, blocks and indexed iteration |
| `Past.dfy` | where a drop loop stops; what has left an arena and by which loop; what became of the values each handle and checkpoint was issued for |
| `World.dfy` | runs: any number of arenas on one stamp source, any operations, any destructors panicking |
| `Refinement.dfy` | every operation of the index-level arenas is the operation of such a run |
| `ChunkedStorage.dfy` | the doubling chunks proved to be one flat write-once array |
| `SharedArena.dfy` | the concurrent arena while it is held exclusively, and an uncontended allocation |
| `Protocol.dfy` | the concurrent phase as a transition system, one atomic access a step, any number of threads, with its inductive invariant |
| `Guarantees.dfy`, `Conservation.dfy` | what every run of the protocol guarantees; where every input and every stamp is at any moment; what each exclusive operation does |
| `Calls.dfy`, `Progress.dfy` | what each call was asked for and what it ends with; why waiting always ends under some schedule, and with what |

The pieces meet in `History`. `ArenaView` is what can be observed of an arena; an `Event` is one change
of it (an identity is assigned, a value is pushed, a commit cuts the arena back). The classes `Arena`
and `SharedArena` state each operation as an event on their view, `Worlds` runs events on many arenas,
`Refinement.Perform` shows that an operation of real `Arena`s on one stamp source is a step of such a run,
and `Guarantees.StepRefinesHistory` shows that every atomic step of the concurrent protocol is one
event or none. So the facts about handles and checkpoints are proved once, on events. A cut is the
commit together with the drop loop: `Cut(len, keep, stamp)` stops with `keep` items left, and `keep`
is where the loop stops: at `len`, or behind the first value whose destructor panics
(`Pasts.LoopStopsAt`). Every operation that drops is given the slots whose destructors do.

Generations are numbered by commit. Stamp values are never compared for order: they come from
per-thread pools and an arena can move between threads.

## Where the code and its comments differ

The comment at `src/segments.rs:236-242` says that the archive table only ever grows on a commit whose
new length lies past the segment it archives. Of the entries that can still own a slot this is true
(`Segments.LiveEntriesAfterCommit`). Of the table as stored it is not: after a first commit at 5, a
commit at 2 makes the table longer (`Segments.StoredTableGrowsWhileReachingBack`, for any two such
lengths), and `Segments.StoredTableGrows` says exactly when a commit does. The model follows the code.

`CheckpointError::DivergedPrefix` is described as "discarded and later replaced"
(`src/checkpoint.rs:125-129`). That is false of the code: after two values, a checkpoint behind the
first, and a reset that a destructor cut short after dropping the second, the checkpoint is refused
with `DivergedPrefix` while its one value is live in its slot
(`Worlds.DivergedPrefixOfAnIntactPrefix`). The description is right exactly when some drop loop since
the checkpoint went below its length, and when none did, the whole prefix is still there:
`Worlds.DivergedPrefixExact`, and `Conservation.DivergedPrefixExact` for the concurrent arena.

## Model

| member | source | states |
|---|---|---|
| Stamps.DrawIsFresh | src/stamp.rs:63-87 | a draw never repeats an issued value, never overflows the range it was given, and fails exactly when the pool is empty and the 64-bit counter cannot move by 256 |
| Stamps.RunIsSound | src/stamp.rs:14-21 | in every interleaving of draws and thread exits the unused parts of the pools are disjoint from each other and from everything issued |
| Stamps.StampsAreUnique | src/stamp.rs:25-32 | the list of stamps handed out in any run has no repetition, no zero and nothing beyond 64 bits |
| Stamps.UnusedValuesAreLost | src/stamp.rs:14-17 | what a thread had reserved and not used when it ended is never handed out, to any thread, whatever happens next |
| Stamps.StampSpace.ReserveRaw | src/stamp.rs:76-87 | the counter moves by the length, or the space is exhausted and it stays |
| Stamps.StampSpace.Fresh | src/stamp.rs:63-74 | returns a value never issued, for this thread's pool; on exhaustion nothing changes |
| History.OwnerExact | src/segments.rs:20-26 | a slot keeps its stamp exactly as long as no commit has its boundary at or below the slot |
| History.OwnerAfterCommit | src/segments.rs:199-206 | a commit re-stamps exactly the slots at or above its length |
| History.WellFormedKept | src/segments.rs:71-83 | every event keeps stamps distinct and the current segment's start within the length |
| History.IssueKept | src/segments.rs:47-57 | no event, interrupted cleanup included, makes a handle name another value |
| History.HandleExact | src/arena.rs:265-288 | a handle validates exactly until a commit reaches its slot, then names its own value, and the test that looks at the current stamp first decides the same as `stamp_of(slot) == stamp` |
| History.ForeignHandle | src/segments.rs:20-26 | a stamp the arena never held is rejected by both tests |
| History.CaptureKept | src/checkpoint.rs:5-10 | no event makes an issued checkpoint vouch for a prefix it was not taken of |
| History.CheckpointExact | src/arena.rs:374-400 | an own checkpoint is accepted exactly when no commit went below its length, and then its whole prefix is intact; each error has its exact cause |
| History.AcceptedStays | src/arena.rs:364-367 | an accepted checkpoint stays accepted through pushes and through cuts at its length or above |
| History.RetryFinishes | src/arena.rs:198-201 | after an interrupted rollback, and allocations since, the same checkpoint is accepted again and finishing leaves exactly its prefix |
| Segments.PartitionPoint | src/segments.rs:192-197 | the index separating the entries that start below a bound from the rest |
| Segments.ArchiveLookup | src/segments.rs:58-70 | truncating and pushing overrides exactly the slots from the new start on; compaction loses no answer |
| Segments.ArchivedTableOwnsAll | src/segments.rs:206-222 | after archiving, the table alone gives every slot its owner |
| Segments.FailedCommitRepresents | src/segments.rs:206-224 | if no stamp can be drawn after the table was pushed, the index still stands for the same history |
| Segments.RetriedCommit | src/segments.rs:199-224 | the commit after a failed one leaves the very index it would have left without the failure: the duplicate boundary is gone |
| Segments.CommitRepresents | src/segments.rs:206-261 | a commit makes the index stand for the history with that commit added, through all four ways of finding the cached stamp |
| Segments.LiveEntriesAfterCommit | src/segments.rs:236-242 | entries that can own a slot grow by at most one, and only past the old start; repeated commits at one length keep at most one entry beyond them |
| Segments.StoredTableGrows | src/segments.rs:216-222 | the stored table grows exactly when a segment is archived and no superseded entry is dropped |
| Segments.StoredTableGrowsWhileReachingBack | src/segments.rs:236-242 | a new identity committed once, at any length, stores a longer table after any second commit at or below that length |
| Segments.Identity.constructor | src/segments.rs:132-142 | birth and current start as one stamp with no history |
| Segments.Identity.StampOf | src/segments.rs:159-172 | equals the owner in the flat history, for every slot |
| Segments.Identity.StampOfCold | src/segments.rs:192-197 | equals the owner for every slot below the current segment |
| Segments.Identity.MatchesArchived | src/segments.rs:181-183 | the slot lies below the current segment and the stamp owns it |
| Segments.Identity.ArchiveSegment | src/segments.rs:215-222 | only the table changes, to the archived one; what the index stands for does not |
| Segments.Identity.Commit | src/segments.rs:206-261 | the history gains this commit with the one stamp drawn, never issued to any arena; fewer entries than commits are kept; fails exactly when the stamps are exhausted, and then only the table may differ |
| Segments.SharedIdentity.constructor | src/segments.rs:296-307 | unassigned, with no history |
| Segments.SharedIdentity.Assign | src/segments.rs:346-365 | without a competitor, birth and current become one fresh stamp |
| Segments.SharedIdentity.Current | src/segments.rs:324-327 | the current stamp, nothing drawn; on the first call the one fresh stamp assigned |
| Segments.SharedIdentity.Birth | src/segments.rs:316-319 | the permanent identity, nothing drawn; on the first call the one fresh stamp assigned |
| Segments.SharedIdentity.StampOf | src/segments.rs:369-379 | the owner in the flat history for every slot, without drawing; asked while unassigned it assigns an identity that then owns the slot |
| Segments.SharedIdentity.StampOfCold | src/segments.rs:399-407 | the owner for every slot below the current segment, without drawing; while unassigned it assigns through `birth()` |
| Segments.SharedIdentity.Matches | src/segments.rs:387-395 | the stamp is the raw current one, or owns the slot below the current segment |
| Segments.SharedIdentity.Commit | src/segments.rs:412-446 | as for `Identity`; while unassigned nothing changes and no stamp is drawn |
| Arenas.Arena.constructor | src/arena.rs:41-47 | empty, no identity, mirror zero |
| Arenas.Arena.ViewIsWellFormed | src/arena.rs:22-29 | the mirror equals the current stamp, and the view meets every assumption of the handle and checkpoint facts |
| Arenas.Arena.AssignIdentity | src/arena.rs:62-69 | assigns an identity with the one fresh stamp drawn, exactly once |
| Arenas.Arena.CurrentStamp | src/arena.rs:89-92 | the raw current stamp of the view, assigning the identity first if need be |
| Arenas.Arena.Alloc | src/arena.rs:95-100 | one push; the handle is the one that names the new slot now |
| Arenas.Arena.AllocBlock | src/arena.rs:112-123 | the values are appended in order, each offset derives the handle of its slot; an empty input changes nothing |
| Arenas.Arena.TakeCheckpoint | src/arena.rs:170-175 | a snapshot of the whole current prefix |
| Arenas.Arena.ValidateCheckpoint | src/arena.rs:374-400 | the same verdict and error as validation on the flat view |
| Arenas.Arena.DropSuffix | src/arena.rs:212-218 | drops strictly from the highest slot down to the target; reports a panic exactly when the last value dropped is one whose destructor panics, none dropped before it does, and only then stops early |
| Arenas.Arena.TryRollback | src/arena.rs:202-220 | refused exactly with validation's error and then unchanged; otherwise one enabled cut at the checkpoint's length, under the one stamp drawn and never issued to any arena before; every value above that length is dropped unless a destructor panics, and `DestructorPanicked` exactly then |
| Arenas.Arena.Reset | src/arena.rs:244-253 | one enabled cut at zero under the one stamp drawn and never issued before, or nothing if no identity exists; every value is dropped unless a destructor panics |
| Arenas.Arena.Drain | src/arena.rs:319-326 | hands out the live sequence in allocation order and leaves the arena empty under a new segment, whose stamp is the one drawn and never issued before |
| Arenas.Arena.IsValid | src/arena.rs:268-288 | the reordered test on the flat view, for every handle whatsoever |
| Arenas.Arena.TryGet | src/arena.rs:293-296 | the slot's value exactly for a valid handle |
| Arenas.Arena.TrySet | src/arena.rs:302-307 | mutable access for exactly the valid handles, touching one slot only |
| Blocks.Block.DerivesExactlyItsHandles | src/block.rs:56-90 | `contains` holds exactly for the handles `get` derives; offsets and handles correspond one to one; `first` and `last` are the ends |
| Blocks.BlockIndices.Next | src/block.rs:147-154 | yields the next handle from the front, none exactly when the ends met |
| Blocks.BlockIndices.NextBack | src/block.rs:163-169 | yields the next handle from the back, none exactly when the ends met |
| Blocks.BlockIndices.ExhaustedYieldsAll | src/block.rs:138-170 | after any interleaving the handles taken from both ends are the block's, each once |
| Iter.IterIndexed.Next | src/iter.rs:27-36 | yields each value in slot order with the handle of its slot's owner |
| Pasts.LoopStopsAt | src/arena.rs:212-218 | a loop that runs down to its target past no panicking destructor, and stops behind the first one that panics, ends in one place only; with no panic it drops everything from the target up |
| Pasts.TracedKept | src/arena.rs:202-253 | additions and drop loops, wherever they stop, keep every handle and checkpoint traced to its values: still in place, or dropped or drained |
| Pasts.CaptureTraced | src/checkpoint.rs:125-129 | what a traced checkpoint says of each value of its prefix, and what `DivergedPrefix` means for it |
| Pasts.PastConserves | src/arena.rs:212-218 | a drop loop stopped anywhere and a drain move values and lose or repeat none |
| Worlds.InvInEveryRun | src/arena.rs:94-326 | every sequence of operations on any arenas keeps the invariant: stamps apart, all handles and checkpoints truthful, values conserved |
| Worlds.NoAba | src/arena.rs:94-123 | in every run, a handle validates in an arena exactly when that arena issued it and no commit reached its slot since, and names exactly its own allocation |
| Worlds.CheckpointsAreExact | src/arena.rs:351-400 | in every run, a checkpoint is accepted exactly by its own arena with no commit below its length since, its prefix then being intact; the three errors exactly otherwise |
| Worlds.EachValueOnce | src/arena.rs:202-253 | in every run, each allocation is live, dropped or drained, once and in one place |
| Worlds.ReMintedHandle | src/iter.rs:27-36 | iteration gives a live slot a valid handle, equal to an issued one unless a commit reached the slot in between |
| Worlds.DivergedPrefixExact | src/checkpoint.rs:125-129 | in every run, each captured value is in its slot exactly when no drop loop since went down to it, otherwise gone and in no slot; `DivergedPrefix` means "discarded and replaced" exactly when a loop went below the checkpoint's length |
| Worlds.DivergedPrefixOfAnIntactPrefix | src/arena.rs:244-253 | a run that ends with `DivergedPrefix` for a checkpoint whose prefix is all live |
| Worlds.ValidatedBatchNeverFails | src/arena.rs:364-367 | validating a batch of checkpoints first means no rollback of it can be refused, wherever the earlier drop loops stopped |
| Refinement.Alloc | src/arena.rs:95-100 | the real allocation is the world's, stamp source included, and its handle is the one on record |
| Refinement.AllocBlock | src/arena.rs:112-123 | the same for a block: each offset's handle is on record for its value |
| Refinement.TakeCheckpoint | src/arena.rs:170-175 | the real checkpoint is the world's, recorded with the prefix it was taken of |
| Refinement.Rollback | src/arena.rs:202-220 | a rollback to a checkpoint of any arena is the world's: it stops at the same place, and what it dropped is on record in order |
| Refinement.Reset | src/arena.rs:244-253 | the same for a reset |
| Refinement.Drain | src/arena.rs:319-326 | the real drain is the world's and its values are on record in order |
| Refinement.Iterate | src/iter.rs:27-36 | iteration to its end yields the world's handle of every live value in slot order |
| Refinement.Perform | src/arena.rs:94-326 | any operation on any of several real arenas on one stamp source leaves all of them matching the world after that very operation |
| Refinement.PerformAll | src/arena.rs:94-326 | real arenas on a new stamp source, taken through any sequence of operations, match the run of that sequence |
| Refinement.NoAba | src/arena.rs:265-296 | real arenas that match a run validate a handle exactly when they issued it and no commit reached its slot, and then read its own value |
| Chunks.HighestBit | src/chunked_storage.rs:98-98 | the position of the highest set bit |
| Chunks.SplitIndex | src/chunked_storage.rs:94-101 | every index but the largest has a place in range from which the index is recovered |
| Chunks.SplitIsBijective | src/chunked_storage.rs:82-101 | splitting is a bijection between representable indices and places |
| Chunks.ChunkedStorage.constructor | src/chunked_storage.rs:20-24 | stands for the empty map |
| Chunks.ChunkedStorage.EnsureChunk | src/chunked_storage.rs:104-107 | allocating a chunk changes the content of no slot |
| Chunks.ChunkedStorage.Set | src/chunked_storage.rs:30-34 | writes one free slot, or reports it occupied; every other slot keeps its content |
| Chunks.ChunkedStorage.Get | src/chunked_storage.rs:42-59 | reads the slot of the flat map |
| Chunks.ChunkedStorage.Take | src/chunked_storage.rs:74-79 | empties one slot and returns what it held; every other slot keeps its content |
| SharedArenas.SharedArena.TakeLast | src/shared_arena.rs:161-168 | one turn of a take loop leaves the counters equal and exactly the published slots occupied; `take` finds a value |
| SharedArenas.SharedArena.DropSuffix | src/shared_arena.rs:160-169 | takes and drops strictly from the highest slot down to the target, always settled; reports a panic exactly when the last value dropped is one whose destructor panics, and only then stops early |
| SharedArenas.SharedArena.CutBack | src/shared_arena.rs:158-170 | one enabled cut under the one stamp drawn and never issued to any arena before, dropping down to the target unless a destructor panics; nothing while unassigned or when no stamp is left |
| SharedArenas.SharedArena.TryRollback | src/shared_arena.rs:156-171 | refused exactly with validation's error and then unchanged; otherwise one enabled cut at the checkpoint's length, under a stamp never issued before, dropping everything above it unless a destructor panics |
| SharedArenas.SharedArena.Reset | src/shared_arena.rs:193-205 | one enabled cut at zero, under a stamp never issued before, dropping everything unless a destructor panics |
| SharedArenas.SharedArena.TakeAll | src/shared_arena.rs:284-292 | takes every value, last slot first |
| SharedArenas.SharedArena.Drain | src/shared_arena.rs:280-295 | hands out the live sequence in allocation order and leaves the arena empty, under a stamp never issued before |
| SharedArenas.SharedArena.ReserveRange | src/shared_arena.rs:297-304 | a whole range at the reserved mark, or a refusal that changes nothing |
| SharedArenas.SharedArena.AdvancePublished | src/shared_arena.rs:306-323 | publishes up to the last slot when all are filled |
| SharedArenas.SharedArena.Alloc | src/shared_arena.rs:51-58 | uncontended, also over slots freed by a cut: one push, with the handle of the new slot; a first allocation draws the one stamp it uses, never issued before; refused only when stamps or slots are exhausted, and then unchanged |
| SharedArenas.SharedArena.AllocBlock | src/shared_arena.rs:81-102 | uncontended: all values appended in order, each offset's handle naming its slot; an empty input changes nothing; refused only when stamps or slots are exhausted |
| SharedArenas.SharedArena.TakeCheckpoint | src/shared_arena.rs:130-134 | beside no allocation: a snapshot of the published prefix, its identity assigned first if need be |
| SharedArenas.SharedArena.ValidateCheckpoint | src/shared_arena.rs:359-380 | the same verdict and error as validation on the flat view |
| SharedArenas.SharedArena.IsValid | src/shared_arena.rs:216-218 | the reordered test on the flat view, for every handle |
| Protocol.InvInEveryRun | src/shared_arena.rs:51-102 | the invariant holds after any interleaving of any number of threads, exclusive operations and draws elsewhere |
| Protocol.CasWinKeepsInv | src/segments.rs:346-354 | installing the one winning stamp keeps the invariant |
| Protocol.ReserveKeepsInv | src/shared_arena.rs:297-304 | a reserved range is above everything filled and apart from every other range; when it is granted is in Calls.AllocResult |
| Protocol.ReservedSlotIsFree | src/shared_arena.rs:53-55 | the slot about to be filled is free and representable, so the occupied assertion cannot fail |
| Protocol.PublishKeepsInv | src/shared_arena.rs:316-321 | an exchange that succeeds publishes one filled slot, and is one push of the history |
| Protocol.ReturnedHandles | src/shared_arena.rs:56-57 | a returned handle names the slot that holds the call's input, under the slot's owner |
| Protocol.Quiescent | src/shared_arena.rs:14-16 | whenever no allocation is between reservation and return, whatever else runs, the counters agree and exactly the published slots are occupied |
| Protocol.ExclusiveKeepsInv | src/shared_arena.rs:156-205 | an exclusive commit and drop loop, wherever it stops, keeps the invariant |
| Protocol.DrainKeepsInv | src/shared_arena.rs:280-295 | so does a drain; what becomes of the values is in Conservation.ExclusiveIsExact |
| Guarantees.SlotHasOneCall | src/shared_arena.rs:297-323 | a reserved, unpublished slot belongs to exactly one call, and is empty exactly while that call has yet to fill it |
| Guarantees.PublicationIsSafe | src/shared_arena.rs:51-102 | in every run: published at most reserved, only filled slots published, only reserved slots filled, ranges disjoint and covering |
| Guarantees.StaleCasIsSafe | src/shared_arena.rs:306-322 | an exchange made on an old load publishes nothing, or the next slot and only a filled one; one that fails spuriously changes nothing; either way the thread loads again |
| Guarantees.IndicesAreRepresentable | src/chunked_storage.rs:94-97 | neither filling nor checking ever asks for slot `usize::MAX` |
| Guarantees.TokensInEveryRun | src/shared_arena.rs:81-98 | in every run a call's inputs lie only in its range, and no input is in two slots |
| Guarantees.HandlesAreExact | src/shared_arena.rs:207-218 | in every run a handle validates on the raw current stamp exactly until a cut reaches its slot, and its slot then holds its own input |
| Guarantees.CheckpointsAreExact | src/shared_arena.rs:359-380 | in every run a checkpoint, even one taken during allocation, validates exactly until a cut goes below its length, its prefix then being intact; `BeyondCurrent` and `DivergedPrefix` exactly otherwise, and never `ForeignArena` |
| Guarantees.ForeignCapabilitiesAreRejected | src/shared_arena.rs:359-362 | in every run, a stamp drawn by another arena or lost in the race for the identity validates no handle and no checkpoint |
| Guarantees.StepRefinesHistory | src/shared_arena.rs:297-323 | every atomic step is one enabled event of the sequential history or not observable |
| Guarantees.AcceptedUnderConcurrency | src/shared_arena.rs:344-354 | no step of a sharing thread makes an accepted checkpoint fail |
| Guarantees.SettledBetweenAllocations | src/shared_arena.rs:251-263 | in every run, whenever no allocation is between reservation and return, after any cut, counters and storage agree; birth and current are assigned together |
| Guarantees.IdentityIsAgreed | src/segments.rs:309-327 | one exchange wins; birth and current agree until the first commit; every call in flight, every handle and both stamps of every checkpoint have that stamp; a loser's or another arena's stamp is in none |
| Guarantees.BirthIsPermanent | src/segments.rs:309-316 | once assigned, the birth stamp is the same after whatever happens next |
| Conservation.LedgerInEveryRun | src/shared_arena.rs:51-295 | the invariant behind the rows below: every place of every input, what each call has written, what each record was issued for |
| Conservation.AccountedAfterExclusive | src/shared_arena.rs:156-295 | a rollback or reset stopped anywhere, and a drain, lose and repeat no input |
| Conservation.EachInputOnce | src/shared_arena.rs:51-295 | in every run each input ever written is in one slot, dropped once or drained once, and in only one of these; written are exactly the filled ones of the calls in flight, and all of each returned call |
| Conservation.ExclusiveIsExact | src/shared_arena.rs:156-295 | in every run a rollback to an accepted checkpoint and a reset commit at their target and drop from the last slot down, stopping only behind a destructor that panics; a drain hands every value back in allocation order and drops none; a refused one changes nothing |
| Conservation.EachStampOnce | src/segments.rs:309-356 | in every run every stamp drawn in the process is in exactly one place: the arena's own, about to be offered, or never to be the arena's |
| Conservation.DrawnElsewhereIsForeign | src/segments.rs:20-26 | another arena's draw issues one stamp, new to the process, that this arena does not own |
| Conservation.DivergedPrefixExact | src/checkpoint.rs:125-129 | in every run of the concurrent arena, what became of each captured value, and when `DivergedPrefix` means "discarded and replaced" |
| Calls.AskedInEveryRun | src/shared_arena.rs:81-89 | in every run each call carries, and has returned with, exactly as many values as the action that began it gave |
| Calls.AllocResult | src/shared_arena.rs:51-102 | in every run an allocation ends exactly when its last slot is published or the stamps or slots are exhausted; published, it has delivered every value it was asked for, in order, a valid handle for each and no other; refused, nothing was allocated |
| Calls.OthersLeaveItAlone | src/shared_arena.rs:51-102 | nothing but its own steps moves a thread or ends its call |
| Calls.CheckpointResult | src/shared_arena.rs:130-134 | in every run a checkpoint that ends otherwise than by stamp exhaustion records a prefix at least as long as what was published when it began, at most what is published now, with its tail |
| Calls.IterationYields | src/shared_arena.rs:474-485 | iterating to a published position mints a valid handle of that slot for the value it holds |
| Progress.NoStepLosesGround | src/shared_arena.rs:306-323 | no step but a reservation increases the unfilled or the unpublished slots; filling and publishing each lower one |
| Progress.WaitingIsJustified | src/shared_arena.rs:306-315 | a thread waits only for an empty slot at or below its own last one, which another call is about to fill |
| Progress.DeliveredStays | src/shared_arena.rs:81-102 | what a returned call delivered, its slots, inputs and valid handles, survives every later step of a sharing thread |
| Progress.CompletionIsReachable | src/shared_arena.rs:306-323 | from every reachable state a finite schedule of the threads in flight completes all their calls and publishes everything reserved; every call that held a range has delivered, and if stamps and slots are left for the calls in flight, every one of them has delivered all it was asked for |
| Progress.CheckpointAlone | src/shared_arena.rs:130-134 | in any state of any run a checkpoint taken while nothing else moves captures all that is published |

## Left out

- Weak memory: each atomic load, exchange and store is one sequentially consistent step; `Stamp::fresh` and `fetch_update` are one step each, and so are `is_valid` and `validate_checkpoint`, which read several variables.
- Out-of-memory, vector capacity overflow and chunk allocation failure: `Vec`, `Box` and `OnceLock` are taken at their contracts. Arenas.Arena.AllocBlock, Refinement.AllocBlock, Refinement.Perform and Refinement.PerformAll therefore require the resulting length to fit a word.
- Real unwinding and destructors: an operation is given the slots whose destructors panic during it; what a destructor does besides is not modelled. Input iterators of `alloc_block` are already collected sequences, so reentrant allocation appears as separate calls.
- Refinement.Perform: values are the numbers of their allocations, so writing through a handle is not an operation of a run; Arenas.Arena.TrySet states it alone. The concurrent arena's operations state the same facts, stamp source included, in their own contracts; its runs are those of Protocol.
- Protocol.InvInEveryRun: an exclusive operation is one step, as no other call can run beside it; the immutable part of the identity appears as the flat history that Segments.SharedIdentity is proved to stand for.
- Segments.SharedIdentity.Assign: run alone, without the spin loop; the race and the loop are steps of Protocol.
- Chunks.ChunkedStorage.Set: the panic on the one unrepresentable index is a precondition; Guarantees.IndicesAreRepresentable shows it is never reached.
- Progress.CompletionIsReachable: the room it asks for is enough, not exactly what is needed: a reservation of 256 stamps for each thread that may still draw on an empty pool; no fairness of a real scheduler is claimed, as the code claims none.
- `rollback`, `get` and indexing, which only turn a refusal into a panic; `IterIndexedMut`, which steps as `IterIndexed` does; the value iterators and the forwarding traits.
- Capacity, `reserve`, `shrink_to_fit`, layout, cost, ordering and formatting of handles and checkpoints.
- The benchmarks.
