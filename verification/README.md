# Verification of the EnchuDB storage structures

EnchuDB is an embedded database engine. Its storage structures keep mutable state behind simple promises: a
log that can be stopped at any moment, a slot allocator that never reuses what the disk still names, an index
that always agrees with its column. This project models those structures in Dafny, in the form the engine has
them, and proves the promises. All paths below are those of the engine's repository.

| files | what they model |
|---|---|
| `ChangeLogLayout`, `ChangeLogRecovery`, `ChangeLogChunk`, `ChangeLogSteps`, `ChangeLog` | the circular, numbered, crash-safe change log |
| `LeafTiling`, `LeafStore` | the leaf slot allocator with its two indexes, batches and rebuild at open |
| `LeafDurable` | delayed reuse of leaf slots across power loss, as a transition system |
| `LeafSeqlock` | reading a leaf slot while it is reused, as a transition system |
| `EidSorting`, `BucketReads`, `HimoIndex`, `HimoStore` | the inverted index of a column: sorting, reads, buckets, writes |
| `BucketSnapshot` | the lock-free three-stage read of a bucket, as a transition system |
| `LazyBuild` | building the index beside running writers and barriers, as a transition system |
| `PublishGate` | content before the cells that point at it, as a transition system |
| `EidTranslator`, `EidmapLog` | the identity map, its file and its log |
| `EntitySet`, `EntityBits` | handing out eids from many threads, and counting live ones |
| `Ordering`, `Wrappers` | least elements, ascending listings, small shared types |

## How the model is set up

Objects that the engine updates in place are classes with a `Valid()` predicate, and each method states the
new state. Specifications live on values (the words of an area, the buckets as a map), so that the
facts about them are lemmas. What happens between threads is a transition system: `Enabled` and `Do` give the
atomic steps, `Run` is any sequence of them from a start state, and the theorems quantify over every run and
every state in it. Memory is sequentially consistent. That calls end is stated without a scheduler: there is always
a step to be made, and every step of a call brings it nearer to its end.

- Change log. The data area is counted in 8-byte words. Checksums are ideal: an entry or a header is whole or
  it is not valid. The caller gives each number the same record every time, so `stream` is a function from
  numbers to records. Between flushes any subset of the words written may be on disk; `images` lists what
  the disk may hold after every single write and every flush, so a statement about all images is one about
  stopping at any moment.
- Leaf store. One word is one 32-bit word (offset shift 2): size at +0, length at +1, generation at +2. A
  ghost map of slots in use is what the free list is judged against.
- Column and index. A cell holds 0 or value + 1. Buckets live in the dense array only; which values are dense
  is not modelled. Whether the lock of a value is free when a read wants to compact is a parameter.
- Log of the identity map. Bytes are numbers below 256 and the two checksums are arbitrary functions.

## What the code does that its comments do not say

- `rebuild_free_list` (crates/enchudb-engine/src/leaf_store.rs:887-897) accepts a live slot of 8 bytes whose size
  word has the generation flag. Its generation word is the size word of the next slot, and `mark_unreadable`
  (crates/enchudb-engine/src/leaf_store.rs:716-726) overwrites it. `RebuiltAndHarmful` gives words and offsets for which
  this happens; `HarmsWhen` says for every store and every batch exactly when it does, and `FreeSlot`, `FreeRetired` and
  `DurableEnd` carry that if-and-only-if. Slots made by `Insert` have 12 bytes at least and are not concerned.
- `free` and `durable_end` do not mark a freed slot of the older 8-byte form; the promise that freed offsets
  are unreadable is stated for slots with a generation word of their own.
- Write-outs test for dirty marks without the flush lock, while `flush_dirty` takes the marks before it writes and holds
  the lock so that what was marked before is on disk when it returns (crates/enchudb-engine/src/segment_map.rs:942-961).
  Nothing in `write_out_body` or `body_msync` keeps two write-outs apart. This matters in two places.
  `flush_parallel` (crates/enchudb-engine/src/segments.rs:516-520) passes over content that another write-out has taken
  and not yet written, and the column goes to disk before it (`PublishGate.FlushInFlight`). The loop over the remaining
  columns (crates/enchudb-engine/src/engine.rs:21064-21077) passes over a column that another write-out has in flight, so
  that `durable_end` frees slots which cells on disk still name (`LeafDurable.PassedInFlight`).
- A write-out that fails between taking a column's mark and flushing the content does not put the mark back
  (crates/enchudb-engine/src/engine.rs:21050-21056); another write-out under way then writes the column without a flush
  (`PublishGate.MarkForgotten`). No mark may be lost while another write-out is past its first flush, nor while its flush
  is under way, since the content segments are flushed one by one.
- `allocate_tracked` steps the counter and loads the cap in two operations, and puts the counter back in a third
  (crates/enchudb-engine/src/entity_set.rs:194-208). `grow` may fall between any two of them, and then the same eid can be
  handed out twice, also when no thread has gone over yet (`GrownBetween`); `WhenGrowIsSafe` says exactly when it may come.
- `declare_marks(false)` may come between a reader's load of `marks_on` and its snapshot
  (crates/enchudb-engine/src/lockfree_cylinder.rs:1163-1165). Departures are not marked from then on, `exact` stays set, and
  the reader can return an entity twice (`MarksGivenUpMidRead`).
- After such a growth a call can be refused although the eid that was added is free (`OneLeftOver`).
- `live_count` may drop below zero for a moment (`BelowZero`), which reads as a large number in 32 bits; `CountIs` says
  exactly when, and `QuietCount` is about moments with no call under way.

## Model

| member | source | states |
|---|---|---|
| `ChangeLogLayout.FreeAtIsRoom` | crates/enchudb-engine/src/change_log.rs:629-643 | The room test, with its three cases for tail before, after and at the head, answers exactly whether the next entry stays within one lap of the tail on the endless line the log writes along. |
| `ChangeLogLayout.Between` | crates/enchudb-engine/src/change_log.rs:58-60 | Entry `k` lies between head `k` and head `k + 1` and never straddles the end of the area; where it goes depends on the sizes before it only. |
| `ChangeLogLayout.EntryFresh` | crates/enchudb-engine/src/change_log.rs:383-408 | The words of a later entry, and the gap before it, are on no part of the line an earlier kept range covers. |
| `ChangeLogLayout.WholeIsEntry` | crates/enchudb-engine/src/change_log.rs:559-585 | An entry whose words are all in place passes the header and checksum test and reads as its own header. |
| `ChangeLogLayout.EntryIsWhole` | crates/enchudb-engine/src/change_log.rs:559-585 | Conversely, whatever passes the test in an area where every word is at home is a whole entry at its own place. |
| `ChangeLogRecovery.SupportedGoesOn` | crates/enchudb-engine/src/change_log.rs:271-307 | The pick-up loop goes on from a header over every entry the header supports, at that entry's place, even past the header's own last number. |
| `ChangeLogRecovery.GoesOnSupported` | crates/enchudb-engine/src/change_log.rs:271-307 | Conversely, whatever the loop picks up is whole, in place and within one lap of the tail. |
| `ChangeLogRecovery.PickUpReaches` | crates/enchudb-engine/src/change_log.rs:271-307 | Opening finds an intact range that reaches at least the supported numbers and starts where the header says. |
| `ChangeLogRecovery.SupportsFrame` | crates/enchudb-engine/src/change_log.rs:375-473 | Words outside those a header needs may hold anything that is at home: what opening finds stays at least as much. |
| `ChangeLogRecovery.ImageSafe` | crates/enchudb-engine/src/change_log.rs:375-473 | If every header that may be on disk supports `n` and the words it needs are settled, every mixture of old and new words a stop can leave recovers at least the numbers before `n`. |
| `ChangeLogChunk.Advance` | crates/enchudb-engine/src/change_log.rs:334-358 | A chunk of at most a quarter of the area moves the head by less than twice its size, gaps included. |
| `ChangeLogChunk.ChunkFits` | crates/enchudb-engine/src/change_log.rs:334-358 | So a chunk as `append_from` cuts them stays within one lap of where it starts, which makes the 'chunk larger than the log' error unreachable. |
| `ChangeLogChunk.ChunkApart` | crates/enchudb-engine/src/change_log.rs:648-676 | Two entries of one chunk share no word, and writing one does not disturb the wrap marker before another. |
| `ChangeLogSteps.DroppedAtHeld` | crates/enchudb-engine/src/change_log.rs:588-597 | In a kept range the entry to drop is recognised without reading its body, with its own header and end. |
| `ChangeLogSteps.DropOldest` | crates/enchudb-engine/src/change_log.rs:599-626 | Exactly the oldest number goes, and if it is watched it is reported with the stamp it was stored with; nothing goes when nothing old is left; a damaged entry takes the whole old range with it, and exactly the watched numbers of that range are reported, in order, without a stamp. |
| `ChangeLogChunk.LostExactly` | crates/enchudb-engine/src/change_log.rs:599-626 | What is reported lost over any range: in rising order, once each, exactly the watched numbers that were stored, with their own stamps. |
| `ChangeLogSteps.UnreadExactly` | crates/enchudb-engine/src/change_log.rs:612-620 | What is reported of a range that cannot be read: in rising order, once each, exactly the watched numbers, without a stamp. |
| `ChangeLogSteps.MakeRoom` | crates/enchudb-engine/src/change_log.rs:387-403 | Old entries are dropped until the next one has room, only those that stood in its way, and `lost` lists exactly the watched numbers among them. |
| `ChangeLogSteps.PlanChunk` | crates/enchudb-engine/src/change_log.rs:383-408 | The plan puts every entry of the chunk at its place, keeps what it does not drop readable, and always finds room. |
| `ChangeLogSteps.ChunkIn` | crates/enchudb-engine/src/change_log.rs:409-459 | Once a chunk is in the data, the shrunk header on disk and the new cursor both reach its end. |
| `ChangeLogSteps.ShrunkSupports` | crates/enchudb-engine/src/change_log.rs:409-422 | The shrunk header written first supports all it keeps and leaves room for the chunk. |
| `ChangeLogStore.ChangeLog.Open` | crates/enchudb-engine/src/change_log.rs:271-307 | Opening a file a stop left behind gives a valid log whose range is the one `restore` computes. |
| `ChangeLogStore.ChangeLog.AppendChunk` | crates/enchudb-engine/src/change_log.rs:375-473 | The three flushed phases: afterwards the log is valid and reaches the end of the chunk, only entries that had to go are gone, and stopping at any write or flush on the way keeps every number before it. |
| `ChangeLogStore.ChangeLog.SkipOne` | crates/enchudb-engine/src/change_log.rs:361-372 | A record too large for the log uses up its number: the range becomes empty after it, everything watched is reported, and stopping on the way is safe. |
| `ChangeLogStore.ChangeLog.AppendFrom` | crates/enchudb-engine/src/change_log.rs:334-358 | An append of any length: valid afterwards, `next` advanced by all records, the last record remembered, drops only where the area or an oversized record forced them; what it adds to `lost` names, in rising order, exactly the watched numbers dropped that were stored, with their stamps; stopping at any write or flush is safe. |
| `ChangeLogStore.ChangeLog.ChunkEnd` | crates/enchudb-engine/src/change_log.rs:345-354 | A chunk is the longest run of records that fit the log and together take at most a quarter of the area, or a single record. |
| `ChangeLogStore.ChangeLog.AtRestSafe` | crates/enchudb-engine/src/change_log.rs:271-307 | Between appends, whatever is on disk recovers every number of the log. |
| `ChangeLogStore.ChangeLog.UpdateMarks` | crates/enchudb-engine/src/change_log.rs:460-471 | The sparse marks stay inside the range, name the places of their entries, and, once made, are there for every 64th number. |
| `ChangeLogStore.ChangeLog.Locate` | crates/enchudb-engine/src/change_log.rs:517-545 | A number in the range is found at its place, by the marks or by walking from the tail, with the same answer, after a walk over fewer than 64 entries. |
| `ChangeLogSteps.WalkMarks` | crates/enchudb-engine/src/change_log.rs:523-535 | Walking from the tail marks every 64th number at its place, and no other place. |
| `ChangeLogStore.ChangeLog.Read` | crates/enchudb-engine/src/change_log.rs:476-509 | A position in `[first, next]` reads the stored records in order, at least one if there is one, no more once the byte limit is reached; any other position is Truncated with the bound on its side. |
| `ChangeLogStore.NewFileOpens` | crates/enchudb-engine/src/change_log.rs:246-268 | A new file opens as an empty log. |
| `ChangeLogStore.OpenAfterStop` | crates/enchudb-engine/src/change_log.rs:216-307 | Reopening whatever an image leaves gives a valid log that keeps every number the image promises. |
| `LeafTiling.CanonicalIsUnique` | crates/enchudb-engine/src/leaf_store.rs:656-783 | For given slots there is only one free list whose holes are the maximal gaps under a high-water mark at the end of the last slot; so every way of keeping or rebuilding it agrees. |
| `LeafTiling.FreeKeeps` | crates/enchudb-engine/src/leaf_store.rs:729-760 | Freeing a block keeps the list canonical: its run of free words becomes one hole, or gives its words back at the top. |
| `LeafTiling.TakeKeeps` | crates/enchudb-engine/src/leaf_store.rs:659-692 | Taking a hole, or the first part of one, keeps the list canonical. |
| `LeafTiling.GrowKeeps` | crates/enchudb-engine/src/leaf_store.rs:659-692 | Putting a slot above the high-water mark keeps the list canonical. |
| `LeafTiling.SkipKeeps` | crates/enchudb-engine/src/leaf_store.rs:864-904 | A gap followed by a live slot keeps a list under construction canonical. |
| `LeafStores.LeafStore.constructor` | crates/enchudb-engine/src/leaf_store.rs:277-300 | A new region has no slots, no holes, and a canonical list. |
| `LeafStores.LeafStore.HolesInsert` | crates/enchudb-engine/src/leaf_store.rs:167-172 | Both indexes of the free list keep the same holes, also when a hole is replaced. |
| `LeafStores.LeafStore.HolesRemove` | crates/enchudb-engine/src/leaf_store.rs:174-178 | Both indexes lose the same hole, and its size is returned; without one there, nothing changes. |
| `LeafStores.LeafStore.Before` | crates/enchudb-engine/src/leaf_store.rs:185-187 | The last hole that starts before an offset, or none. |
| `LeafStores.LeafStore.BestFit` | crates/enchudb-engine/src/leaf_store.rs:190-192 | The smallest hole that is large enough, the lowest of those; none only if every hole is too small. |
| `LeafStores.LeafStore.InsertHole` | crates/enchudb-engine/src/leaf_store.rs:729-760 | Coalescing on both sides and the retreat of the high-water mark keep the list canonical, touch no word of a slot, and make no unreadable header readable. |
| `LeafStores.LeafStore.Alloc` | crates/enchudb-engine/src/leaf_store.rs:659-692 | Best fit with a split when the rest can be a hole, else above the mark; refused only when nothing fits; the list stays canonical and no slot or unreadable header changes. |
| `LeafStores.LeafStore.Insert` | crates/enchudb-engine/src/leaf_store.rs:591-654 | The payload reads back at the new slot, which was in no slot before, under a generation two above the last one given; no other slot changes; refused exactly when no hole and no room above fits; freed slots stay unreadable until a slot is put over them. |
| `LeafStores.LeafStore.WriteSlot` | crates/enchudb-engine/src/leaf_store.rs:624-645 | The stores of an insert, in order: size, odd generation, length, payload, even generation; no word outside the slot changes. |
| `LeafStores.LeafStore.FreeSlot` | crates/enchudb-engine/src/leaf_store.rs:695-710 | The slot is gone from the canonical list. The words of the other slots are as they were, and the store valid with the freed offset unreadable, if and only if the slot is not one of 8 bytes with the generation flag right before another slot. |
| `LeafStores.LeafStore.Retire` | crates/enchudb-engine/src/leaf_store.rs:790-799 | The slot waits at the present epoch; the bytes waiting are their sum. |
| `LeafStores.LeafStore.DurableBegin` | crates/enchudb-engine/src/leaf_store.rs:802-807 | The token is the present epoch, and later retirements are after it. |
| `LeafStores.LeafStore.RunsOf` | crates/enchudb-engine/src/leaf_store.rs:765-775 | Slots in offset order are joined into runs that cover exactly them. |
| `LeafStores.LeafStore.FreeRetired` | crates/enchudb-engine/src/leaf_store.rs:765-783 | Freeing a batch frees exactly its slots and keeps the list canonical; the other slots are as they were if and only if no mark falls on one of them (`Harms`); freed slots with a generation of their own end unreadable, and what was unreadable stays so. |
| `LeafStores.LeafStore.FreeEach` | crates/enchudb-engine/src/leaf_store.rs:705-783 | Freeing the same slots one by one, in any order in which a slot whose mark would fall on the next one comes after it, ends with the same slots as the batch and a canonical list, hence by CanonicalIsUnique the same list. |
| `LeafStores.LeafStore.DurableEnd` | crates/enchudb-engine/src/leaf_store.rs:812-823 | Exactly the slots retired at the token or before are freed, the rest stays queued in order with the right byte count; the other slots are as they were, and the store valid with the freed offsets unreadable, if and only if no mark of the batch falls on a slot left. |
| `LeafStores.HarmsWhen` | crates/enchudb-engine/src/leaf_store.rs:716-726 | For every tiled store with headers and every set of its slots: marking and freeing them leaves every word of the others as it was if and only if no marked slot of 8 bytes is right before one of the others; a mark may itself give the next slot of the set the flag, so chains of 8-byte slots count as one. |
| `LeafStores.OneHarms` | crates/enchudb-engine/src/leaf_store.rs:716-726 | For one slot: it has the generation flag and 8 bytes, and a slot starts right after it. |
| `LeafStores.OneMore` | crates/enchudb-engine/src/leaf_store.rs:765-775 | Marking in offset order marks exactly the slots that have the generation flag or get it from the mark before. |
| `LeafStores.LeafStore.RebuildFreeList` | crates/enchudb-engine/src/leaf_store.rs:864-904 | For any header words and any live offsets, in any order and repeated: the kept slots are exactly those that can be trusted, the others are returned as broken, kept slots and holes tile the region up to the new mark, and no word of a kept slot changes. On a store kept up step by step, from the offsets of all its slots, each of which can be trusted, it gives the same list under the same mark. |
| `LeafStores.LeafStore.FlushRun` | crates/enchudb-engine/src/leaf_store.rs:969-982 | A gap becomes a hole, or the mark retreats to it; nothing outside the gap changes. |
| `LeafStores.RebuildTrusts` | crates/enchudb-engine/src/leaf_store.rs:853-904 | Rebuilding from some of the slots in use takes each of them, but for those of 8 bytes with the generation flag before an odd word, and exactly those. |
| `LeafStores.RebuiltAndHarmful` | crates/enchudb-engine/src/leaf_store.rs:887-897 | There are header words and live offsets for which the rebuild takes a slot of 8 bytes with the generation flag, and freeing it overwrites the size word of the live slot after it. |
| `LeafStores.RebuildAgrees` | crates/enchudb-engine/src/leaf_store.rs:853-904 | The list kept up step by step, once everything but the live slots was freed, is the list rebuilt from the live slots, under the same high-water mark. |
| `LeafStores.UnreadableIsRetry` | crates/enchudb-engine/src/leaf_store.rs:462-541 | A header with the generation flag and an odd generation is never read as a payload. |
| `LeafStores.HoleHeaderHarmless` | crates/enchudb-engine/src/leaf_store.rs:383-400 | Writing a hole's header changes no slot and leaves every unreadable header in free space unreadable, also for holes too small for a generation. |
| `LeafDurable.StepInv` | crates/enchudb-engine/src/leaf_store.rs:133-152 | Every step of writers, overlapping write-outs, the operating system and power loss keeps: each slot held has one place, and one only; a slot named on disk is in that cell or waiting; what memory and disk differ in is marked, in flight or just being written; a write-out has seen to every cell of the columns it is done with. |
| `LeafDurable.EndInv` | crates/enchudb-engine/src/leaf_store.rs:812-823 | Freeing what a finished write-out may free keeps that, with other write-outs under way, if no cell it passed over in flight still names one of those slots on disk. |
| `LeafDurable.NamedOnDiskIsHeld` | crates/enchudb-engine/src/leaf_store.rs:785-823 | Over every run, with overlapping and failing write-outs and power losses: no slot that a cell on disk names is ever in the free list, if and only if no write-out ends while a cell it passed over in flight names on disk a slot that write-out frees. |
| `LeafDurable.WaitingIsEnough` | crates/enchudb-engine/src/engine.rs:21064-21077 | Over every run in which no write-out passes over a column that another one has in flight: no slot that a cell on disk names is in the free list or handed to another insert. |
| `LeafDurable.PassedInFlight` | crates/enchudb-engine/src/engine.rs:21064-21077 | Passing over such a column, as the test for dirty marks lets a write-out do, frees a slot that a cell on disk still names. |
| `LeafDurable.WhenPassingIsSafe` | crates/enchudb-engine/src/engine.rs:21064-21077 | The promise holds in every run that keeps to a rule if and only if the rule forbids to pass over a column in flight. |
| `LeafDurable.WhenReuseIsSafe` | crates/enchudb-engine/src/engine.rs:20946-20972 | The promise holds in every run with one write-out at a time, and not in every run with overlapping ones. |
| `LeafDurable.SettlesDown` | crates/enchudb-engine/src/leaf_store.rs:802-823 | Nothing is held for ever: from every state of a run that kept the promise, without new work or mishap, the writers and write-outs under way come to their ends, and one more write-out puts every cell on disk and frees every slot but those the cells name. |
| `LeafDurable.PowerLossKeepsDisk` | crates/enchudb-engine/src/leaf_store.rs:133-143 | Over every run that kept the promise: a power loss leaves the cells the disk has, and holds just the slots they name, all of which were held. |
| `LeafDurable.FailedFlushGivesBack` | crates/enchudb-engine/src/segment_map.rs:942-961 | Over every run: a flush that fails gives back the marks it took and has not put on disk, and its write-out does not end well. |
| `LeafSeqlock.GenMoves` | crates/enchudb-engine/src/leaf_store.rs:591-654 | A generation that is over at an offset never comes back there. |
| `LeafSeqlock.StoreHeader` | crates/enchudb-engine/src/leaf_store.rs:624-645 | Each store of an insert, in its order, keeps the header unreadable until the payload is complete. |
| `LeafSeqlock.NoTornValue` | crates/enchudb-engine/src/leaf_store.rs:462-541 | Over every interleaving of loads and stores through any number of frees and reuses: what a reader returns is the whole value of the one insert its generation names, and the old slot form is never taken. |
| `LeafSeqlock.ReadsCurrent` | crates/enchudb-engine/src/leaf_store.rs:462-541 | Over every run: a read that ends well returns what the slot holds at that moment. |
| `LeafSeqlock.Undisturbed` | crates/enchudb-engine/src/leaf_store.rs:462-541 | Over every run: while the slot it began on stays, a reader is never sent away, whatever is written elsewhere, and is after each load where that many loads of this slot take it. |
| `LeafSeqlock.NeverStuck` | crates/enchudb-engine/src/leaf_store.rs:462-541 | It always has its next load to make, and after five loads and one for each word it returns the value of the slot it began on. |
| `LeafSeqlock.InsertEnds` | crates/enchudb-engine/src/leaf_store.rs:591-654 | Over every run: an insert gets a generation two above the last, takes four stores and one for each word, and then the slot is there with the value. |
| `LeafSeqlock.FreedIsNotRead` | crates/enchudb-engine/src/leaf_store.rs:695-726 | Over every run: a read that ends after a slot was freed does not return its value, however the place is reused. |
| `LeafSeqlock.AnythingBetween` | crates/enchudb-engine/src/leaf_store.rs:383-400 | These promises hold whatever others leave at the place: while it is free its header may be any two odd words and the rest anything at all. |
| `LeafSeqlock.ReadsInside` | crates/enchudb-engine/src/leaf_store.rs:491-506 | Over every run, torn reads included: a reader copies no more than the slot whose size it saw can hold, and nothing past the end of the region. |
| `LeafSeqlock.StoresAgree` | crates/enchudb-engine/src/leaf_store.rs:624-645 | Each store of an insert in this transition system is the store that writing a slot makes at that point. |
| `EidSorting.SortedPrefixLen` | crates/enchudb-engine/src/append_bucket.rs:172-182 | The length of the longest ascending head, found 256 at a time. |
| `EidSorting.SortAppended` | crates/enchudb-engine/src/append_bucket.rs:189-208 | A sorted permutation, in place, leaving the ascending head where it is until the merge. |
| `EidSorting.MergeBack` | crates/enchudb-engine/src/append_bucket.rs:196-208 | The backward merge never overwrites an element it still has to read, and gives a sorted permutation. |
| `EidSorting.SortEids` | crates/enchudb-engine/src/append_bucket.rs:217-252 | A sorted permutation for every sequence, by comparison or by radix. |
| `EidSorting.RadixSort` | crates/enchudb-engine/src/append_bucket.rs:228-252 | Dealing by each digit in turn sorts, for any digit width up to 11 bits that covers the spread of the values. |
| `EidSorting.DealPass` | crates/enchudb-engine/src/append_bucket.rs:233-250 | One counting pass is the stable distribution by that digit. |
| `EidSorting.WidthFits` | crates/enchudb-engine/src/append_bucket.rs:223-229 | The data-dependent digit width is at most 11 bits and the passes cover every bit. |
| `EidSorting.BelowLowOrder` | crates/enchudb-engine/src/append_bucket.rs:228-252 | A stable pass on a list in order below one digit gives a list in order up to and including that digit. |
| `EidSorting.SortedOnce` | crates/enchudb-engine/src/append_bucket.rs:162-166 | Sorting and dropping repeats gives the strictly ascending members. |
| `BucketReads.CopyUnmarked` | crates/enchudb-engine/src/append_bucket.rs:134-156 | Copies exactly the entries without a mark, in order, whole blocks at a time where no mark is set. |
| `BucketReads.GallopGe` | crates/enchudb-engine/src/himo_store.rs:265-274 | The first place at or after the start that is not below the target, for every ascending list. |
| `BucketReads.PushLiveOnce` | crates/enchudb-engine/src/himo_store.rs:210-241 | For any bucket contents and any column: each entity that holds the value now is added once, those of the ascending head in order, then the others in order. |
| `HimoIndex.StaleSound` | crates/enchudb-engine/src/append_bucket.rs:298-304 | Noting a stale entry keeps what the bucket says true of the column after the cell is written, with or without marks. |
| `HimoIndex.PushSound` | crates/enchudb-engine/src/append_bucket.rs:351-398 | Pushing an entry keeps it true, also when the backing grows, and keeps the stale share bounded. |
| `HimoIndex.CompactSound` | crates/enchudb-engine/src/append_bucket.rs:411-445 | A compacted bucket holds exactly the holders, unmarked, with nothing stale. |
| `HimoIndex.MoveKeeps` | crates/enchudb-engine/src/himo_store.rs:781-841 | Moving a cell from one value to another or to none keeps the whole index true of the column, and every bucket but the old one small. |
| `HimoIndex.CompactKeeps` | crates/enchudb-engine/src/himo_store.rs:976-984 | Compacting one bucket keeps the whole index true, with the remembered places rewritten. |
| `HimoIndex.MarkedAnswers` | crates/enchudb-engine/src/append_bucket.rs:508-517 | When all stale entries are marked, the unmarked ones are the holders, each once. |
| `HimoIndex.RawLength` | crates/enchudb-engine/src/himo_store.rs:155-159 | A bucket is shorter than its live entries plus 64, or than twice its live entries. |
| `HimoStores.AppendBucket.Push` | crates/enchudb-engine/src/append_bucket.rs:351-398 | Whatever column and value the bucket was right for, with or without marks, it is right for the column in which that entity gains the value, also when the backing grows. |
| `HimoStores.AppendBucket.NoteStale` | crates/enchudb-engine/src/append_bucket.rs:298-304 | Whatever column and value the bucket was right for, it is right for the column in which the entity at that place loses the value, and the count returned is that of the holders left. |
| `HimoStores.AppendBucket.Compact` | crates/enchudb-engine/src/append_bucket.rs:411-445 | The new contents are the strictly ascending entries the column still holds at the value. |
| `HimoIndex.RereadsAre` | crates/enchudb-engine/src/append_bucket.rs:330-338 | Over every sequence of pushes, departures, compactions and verifying reads: what a read returns is the number of reads right before it with no write among them. |
| `HimoIndex.RoomBound` | crates/enchudb-engine/src/append_bucket.rs:351-445 | Over every sequence of pushes, departures, compactions and reads of a new bucket: the entries fit, and no more than twice their number is set aside, but for the room it began with. |
| `HimoStores.AppendBucket.Read` | crates/enchudb-engine/src/append_bucket.rs:508-517 | All entries, or the unmarked ones when every stale one is marked; verification is asked for exactly when stale entries may be among those returned. |
| `HimoStores.HimoStore.MoveCell` | crates/enchudb-engine/src/himo_store.rs:781-841 | Stale, store, push, compact: the store stays valid, so the index true of the column and every bucket small. |
| `HimoStores.HimoStore.MaybeCompact` | crates/enchudb-engine/src/himo_store.rs:976-984 | A bucket is compacted to exactly its holders if and only if it has 64 entries at least and half of them or more are stale; otherwise nothing changes. Afterwards every bucket has fewer than 64 stale entries or fewer stale than live ones. |
| `HimoStores.HimoStore.Set` | crates/enchudb-engine/src/himo_store.rs:751-871 | The cell gets the value, refused only when it does not fit the column or the disk has no room for the cell; index and counters stay true, whether there is an index or not. |
| `HimoStores.HimoStore.Remove` | crates/enchudb-engine/src/himo_store.rs:908-970 | The cell is emptied, if there is one; index and counters stay true. |
| `HimoStores.HimoStore.Restore` | crates/enchudb-engine/src/himo_store.rs:1148-1184 | The cell gets back its content, a value or none, unless the disk has no room for it; index and counters stay true. |
| `HimoStores.HimoStore.EnsureBuilt` | crates/enchudb-engine/src/himo_store.rs:682-714 | The index is built from the column on first use, true of it and with no stale entry; places are remembered, for as many entities as the column may have, exactly if marks were declared. |
| `HimoStores.HimoStore.Scan` | crates/enchudb-engine/src/himo_store.rs:1474-1487 | The holders of a value, each once, ascending, straight from the column. |
| `HimoStores.HimoStore.CompactIfReread` | crates/enchudb-engine/src/himo_store.rs:997-1007 | Compacts if and only if the lock is free, the bucket has 64 entries at least, and this is the second read in a row without a write for a bucket of 1024 entries or more, the third for a shorter one; then the bucket lists exactly the holders, ascending, and no other bucket changes; otherwise only the read is noted. |
| `HimoStores.HimoStore.Pull` | crates/enchudb-engine/src/himo_store.rs:1193-1217 | The holders of a value, each once: the same set as Scan, in every reachable state and along every path of the read. |
| `HimoStores.HimoStore.PullRangeUnordered` | crates/enchudb-engine/src/himo_store.rs:1296-1331 | The entities whose value lies in the range, each once, whichever way each bucket is read. |
| `HimoStores.HimoStore.SliceLen` | crates/enchudb-engine/src/himo_store.rs:1387-1396 | The count a bucket keeps is the number of holders. |
| `HimoStores.HimoStore.PresentCount` | crates/enchudb-engine/src/himo_store.rs:1055-1073 | The striped counters, with the base counted once for a column from a file, give the number of cells with a value. |
| `HimoStores.HimoStore.DeclareMarks` | crates/enchudb-engine/src/himo_store.rs:662-669 | Asking for marks takes effect at the next build only, giving them up at once; reads stay right. |
| `BucketSnapshot.StepInv` | crates/enchudb-engine/src/append_bucket.rs:351-484 | Every atomic step of the writer, of compaction and of a reader, and giving up marks, keeps the invariant of the three-stage read. |
| `BucketSnapshot.CleanReadIsSound` | crates/enchudb-engine/src/append_bucket.rs:545-555 | Over every run: a read that needs no verification returns entries that all held the value at the moment the flag was read, none twice; and that moment lies inside the read. |
| `BucketSnapshot.MarkedReadIsSound` | crates/enchudb-engine/src/append_bucket.rs:468-517 | Over every run in which marks are not given up between a reader's question whether they are in use and its look whether they are complete: a read that skips by marks returns entities that all held the value at one moment of that read, none twice. |
| `BucketSnapshot.MarksGivenUpMidRead` | crates/enchudb-engine/src/lockfree_cylinder.rs:1163-1165 | Given up between the two, the reader goes by marks that were not set: there is a run in which it returns an entity twice, without a look at the column. |
| `BucketSnapshot.WhenMarkedReadIsSound` | crates/enchudb-engine/src/lockfree_cylinder.rs:462-471 | Reads that skip by marks are sound in every run if and only if marks are not given up between the two. |
| `BucketSnapshot.CheckedReadIsSound` | crates/enchudb-engine/src/himo_store.rs:210-241 | Over every run: a read that looks at the column, beside running writers, returns entities that each held the value at a moment of that read, none twice. |
| `BucketSnapshot.NothingMissed` | crates/enchudb-engine/src/append_bucket.rs:468-517 | Over every run: an entity that holds the value, with no write of its cell under way, from the start of a read to its end is among what the read returns, along all three ways. |
| `BucketSnapshot.QuietReadTakes` | crates/enchudb-engine/src/append_bucket.rs:468-517 | Over every run: a reader nobody disturbs takes the cheapest way that does: with the flag down it copies all, with the flag up it goes by the marks if they are in use and complete, and looks at the column only if not. |
| `BucketSnapshot.CompactionEnds` | crates/enchudb-engine/src/append_bucket.rs:411-445 | Over every run: compaction that has ended has left what held the value, once each, with no mark and the flag down. |
| `BucketSnapshot.ReadEnds` | crates/enchudb-engine/src/append_bucket.rs:468-517 | Over every run: from the moment it knows the length, a read takes three loads and one for each entry at most, whatever the writer does. |
| `BucketSnapshot.WriteEnds` | crates/enchudb-engine/src/append_bucket.rs:351-484 | Over every run: an operation of the writer ends after two more steps at most, whatever readers do. |
| `BucketSnapshot.NeverWaits` | crates/enchudb-engine/src/append_bucket.rs:351-517 | Over every run: neither the writer nor a reader ever waits for the other. |
| `LazyBuild.StepInv` | crates/enchudb-engine/src/himo_store.rs:682-744 | Every step of gate writers, lock writers, key writers, builders and barriers keeps the gate, the lock and the index consistent. |
| `LazyBuild.IndexIsColumn` | crates/enchudb-engine/src/himo_store.rs:682-893 | Over every run: once there is an index, its entries for a cell nobody is changing are exactly the value of that cell; with no writer under way, for every cell. |
| `LazyBuild.WriteTakesEffect` | crates/enchudb-engine/src/himo_store.rs:751-970 | No write is lost: over every run, when a writer that was told to give a cell a content ends, by the gate, by the write lock or with the keys, the cell has that content. |
| `LazyBuild.CellKept` | crates/enchudb-engine/src/himo_store.rs:751-970 | No step changes a cell that nobody has under way. |
| `LazyBuild.IndexIsLastBegun` | crates/enchudb-engine/src/himo_store.rs:682-970 | Over every run: a cell nobody is writing has the content last begun for it, and the index, once there is one, has exactly that value for it. |
| `LazyBuild.BuildMakesIndex` | crates/enchudb-engine/src/himo_store.rs:682-714 | Over every run: a build that has given the lock back leaves an index. |
| `LazyBuild.IndexedWriterSkipsLock` | crates/enchudb-engine/src/himo_store.rs:751-779 | Over every run: a writer that begins when there is an index never goes to the gate or waits for the write lock. |
| `LazyBuild.BarrierStopsWriters` | crates/enchudb-engine/src/himo_store.rs:887-900 | Over every run: while a barrier is held, no writer is where it could write, and no step changes a cell. |
| `LazyBuild.BarrierWasHeld` | crates/enchudb-engine/src/himo_store.rs:887-900 | Over every run: a barrier that has given the lock back was held in between. |
| `LazyBuild.GateReopens` | crates/enchudb-engine/src/himo_store.rs:887-906 | Over every run: before there is an index, the gate is closed only while a builder or a barrier needs it so. |
| `LazyBuild.NoDeadlock` | crates/enchudb-engine/src/himo_store.rs:682-970 | Over every run: as long as a writer, a builder or a barrier is under way, one of them can go on; nobody waits for one that waits for it. |
| `LazyBuild.Ends` | crates/enchudb-engine/src/himo_store.rs:682-970 | Over every run: without new calls, those under way end within a number of steps that depends on the state alone, in whatever order they go on. |
| `LazyBuild.ComesToRest` | crates/enchudb-engine/src/himo_store.rs:682-970 | Every run can be brought to a state with no call under way, by steps of the calls that are. |
| `PublishGate.StepInv` | crates/enchudb-engine/src/publish_gate.rs:88-194 | Every step of writers, flushes and write-outs, failing and overlapping ones included, that leaves no flush out while one is in flight and loses no mark while another write-out is past its first flush or has a flush under way, keeps: no writer in a held group, every piece of content on disk, dirty or being flushed, and a mark, an owed flush or a coming first flush for every cell whose content is not on disk. |
| `PublishGate.CellInv` | crates/enchudb-engine/src/engine.rs:21028-21077 | No such step forgets a cell whose content is not on disk: neither taking a mark, nor a flush that fails and gives its dirty marks back, nor a flush left out for lack of dirty marks, nor pages an earlier session left unmarked. |
| `PublishGate.ContentFirst` | crates/enchudb-engine/src/publish_gate.rs:1-18 | Over every run that keeps to those two conditions: no cell on disk points at content that is not on disk, although write-outs may overlap and fail. |
| `PublishGate.ApartIsEnough` | crates/enchudb-engine/src/engine.rs:20946-20972 | Write-outs kept apart keep to both, whatever fails. |
| `PublishGate.DurableIsThere` | crates/enchudb-engine/src/vocabulary.rs:331-340 | Over every such run: what has been called durable, and is therefore written past the gate, is on disk. |
| `PublishGate.HeldIsEmpty` | crates/enchudb-engine/src/publish_gate.rs:124-149 | Over every run, overlapping write-outs included: while a column is held closed, no writer is inside any column of its group. |
| `PublishGate.CellIsLastPut` | crates/enchudb-engine/src/publish_gate.rs:88-111 | Over every run: a cell has what was last written to it, through the gate or past it, whatever is written out meanwhile. |
| `PublishGate.DiskWasCell` | crates/enchudb-engine/src/engine.rs:21028-21077 | Over every run: what the disk has of a cell the cell itself has had before, or the disk had it at the start. |
| `PublishGate.FlushedIsDurable` | crates/enchudb-engine/src/vocabulary.rs:331-340 | Over every careful run: what a flush was to write is durable once it has ended, for good, and on disk. |
| `PublishGate.FailOpens` | crates/enchudb-engine/src/publish_gate.rs:182-194 | Over every run: a write-out that fails while it has shards closed is over, and every closed shard is about to be opened. |
| `PublishGate.DirtyIsNew` | crates/enchudb-engine/src/segment_map.rs:942-961 | Over every run: only content written in this session is ever marked dirty, also after flushes of everything that fail. |
| `PublishGate.ComesToRest` | crates/enchudb-engine/src/publish_gate.rs:88-194 | Every run, careless ones included, can be brought to rest with no new call, no failure and no flush left out: no writer and no write-out waits for ever for another, and no shard stays closed. |
| `PublishGate.NothingDirty` | crates/enchudb-engine/src/segments.rs:513-520 | With no flush in flight, leaving the second flush out for lack of dirty marks is right: all content is on disk. |
| `PublishGate.FlushInFlight` | crates/enchudb-engine/src/segments.rs:513-520 | With one in flight it is not: there is a run after which the disk has a cell and not its content. |
| `PublishGate.MarkForgotten` | crates/enchudb-engine/src/engine.rs:21050-21056 | A mark that a failed write-out took is lost: there is a run in which another write-out, past its first flush, then writes the cell without its content. |
| `PublishGate.WhenContentFirst` | crates/enchudb-engine/src/engine.rs:21003-21078 | Content is before its cells in every run that keeps to given rules if and only if the rules forbid both: to leave a flush out while one is in flight, and to lose a mark while another write-out is past its first flush or has a flush under way. |
| `EidTranslators.MappedIsReverse` | crates/enchudb-engine/src/eid_translator.rs:366-378 | What goes to the file is exactly the reverse pairs. |
| `EidTranslators.ReverseIsInjective` | crates/enchudb-engine/src/eid_translator.rs:150-193 | No two locals answer to the same key. |
| `EidTranslators.EidTranslator.MappedLocal` | crates/enchudb-engine/src/eid_translator.rs:123-129 | The local a key has in the file, none for an alias. |
| `EidTranslators.EidTranslator.Insert` | crates/enchudb-engine/src/eid_translator.rs:150-193 | The local answers to the key, its former key becomes an alias, a local the key left answers to nothing, everything else stays; forward entries stay split into reverse keys and aliases, and every change of the file's content is marked. |
| `EidTranslators.EidTranslator.Alias` | crates/enchudb-engine/src/eid_translator.rs:196-221 | The key leads to the local without changing what the local answers to; the split and the marks stay right. |
| `EidTranslators.EidTranslator.Unalias` | crates/enchudb-engine/src/eid_translator.rs:225-238 | An alias goes, a reverse key stays; the content of the file does not change, so no mark is needed. |
| `EidTranslators.EidTranslator.RemoveLocal` | crates/enchudb-engine/src/eid_translator.rs:332-358 | No key maps to the local any more, exactly the keys that did are returned, the reverse key first, and marked. |
| `EidTranslators.EidTranslator.GetOrInsert` | crates/enchudb-engine/src/eid_translator.rs:276-293 | The local of a key. If there is none and an allocation is given, that local now answers to the key, in the file too, and the key is an alias of none; a reused local has lost every key it had, another one keeps the key it answered to as an alias, and every other local keeps its keys. Nothing changes otherwise. |
| `EidTranslators.EidTranslator.TakeDirty` | crates/enchudb-engine/src/eid_translator.rs:105-110 | The marked keys, each once; every other key has the entry the file already holds. |
| `EidTranslators.EidTranslator.RestoreDirty` | crates/enchudb-engine/src/eid_translator.rs:113-115 | After a failed write the marks cover again all the file lacks. |
| `EidTranslators.Rebuild` | crates/enchudb-engine/src/eid_translator.rs:246-257 | Inserting the pairs of the file and then the aliases, in any order, gives the same forward map, the same reverse map and the same aliases. |
| `EidmapLog.RecordBack` | crates/enchudb-engine/src/eidmap_log.rs:59-71 | A record reads back as its entry and passes its checksum, whatever the checksum function is. |
| `EidmapLog.PushRecord` | crates/enchudb-engine/src/eidmap_log.rs:59-69 | The buffer grows by exactly one record. |
| `EidmapLog.Read` | crates/enchudb-engine/src/eidmap_log.rs:73-93 | Refused exactly when the header is not that of this file; otherwise the entries are those of the records before the first that is cut short or fails its checksum, and the log is torn exactly if anything is left behind them. |
| `EidmapLog.CutLog` | crates/enchudb-engine/src/eidmap_log.rs:73-93 | A log cut at any byte after the header reads as the whole records before the cut, torn exactly when bytes are left over. |
| `EidmapLog.Merge` | crates/enchudb-engine/src/eidmap_log.rs:97-124 | A deletion without a slot is in the result exactly if it is the latest of its key in file and log; a mapping exactly if it is what the last entry of its key gave, and that did not take it away; the mappings come in key order, each key once, then the deletions in key order, each key once. |
| `EidmapLog.HlcOrder` | crates/enchudb-oplog/src/lib.rs:124-157 | Versions are ordered by wall time, then counter, then peer: a total order with the zero version first. |
| `EidmapLog.HeaderTells` | crates/enchudb-engine/src/eidmap_log.rs:49-56 | Two files have the same log header if and only if they have the same length and the same checksum. |
| `EidmapLog.EntriesBack` | crates/enchudb-engine/src/eidmap_log.rs:97-124 | The entries of the file give back both sides they were listed from. |
| `EidmapLog.MergeTwice` | crates/enchudb-engine/src/eidmap_log.rs:97-124 | Merging a log in two parts is merging it at once. |
| `EidmapLog.WriteDirty` | crates/enchudb-engine/src/eid_translator.rs:100-129 | One record per marked key, its local now or gone, brings what the file held to what the map holds now; if the file and its log so far merge to the map as it was, then with these records they merge to the map as it is, so after any number of write-outs. |
| `EidmapLog.LogFollowsMap` | crates/enchudb-engine/src/eidmap_log.rs:97-124 | So the old file merged with the log is the file that would be written now. |
| `EntitySet.StepInv` | crates/enchudb-engine/src/entity_set.rs:194-257 | Every atomic step of allocations (the step of the counter and the load of the cap apart), of frees, and of careful growth keeps: each eid in one place at most and below the mark the counter returns to, the count off by what threads still owe. |
| `EntitySet.NeverTwice` | crates/enchudb-engine/src/entity_set.rs:194-231 | Over every run in which the cap does not grow, or grows carefully: the eid about to be returned has a clear bit and is in no other thread's hands. |
| `EntitySet.FreedBetween` | crates/enchudb-engine/src/entity_set.rs:194-257 | Over every such run: between two times an eid is handed out, a free cleared its bit. |
| `EntitySet.ReturnsItsOwn` | crates/enchudb-engine/src/entity_set.rs:194-231 | Over every such run: the eid a call returns is one whose bit it has set itself, and which was clear before. |
| `EntitySet.FreedIsPushed` | crates/enchudb-engine/src/entity_set.rs:233-257 | Over every run: an eid in use that is freed is out of use at once, and when the call has ended it is on top of the stack, unless the stack was full. |
| `EntitySet.RunAccounted` | crates/enchudb-engine/src/entity_set.rs:194-257 | No eid goes missing: over every such run, each eid below the mark has its bit set, is on the stack, was lost, or is in someone's hands. |
| `EntitySet.WhenLost` | crates/enchudb-engine/src/entity_set.rs:233-257 | Over every run: an eid is lost only by a push onto a full stack. |
| `EntitySet.StackFits` | crates/enchudb-engine/src/entity_set.rs:233-257 | Over every run: the free stack never holds more than it has room for. |
| `EntitySet.NoneLeaks` | crates/enchudb-engine/src/entity_set.rs:194-257 | Over every such run: with room for every eid and no call under way, each number the counter has passed is in use or on the stack, one of the two, but for those lost from the start. |
| `EntitySet.NoneLeft` | crates/enchudb-engine/src/entity_set.rs:194-231 | Over every such run: a call is refused only if the stack is empty and every eid below the mark is in use, lost, or in someone's hands. |
| `EntitySet.RefusedWhenFull` | crates/enchudb-engine/src/entity_set.rs:194-231 | While the cap has not grown, that is every eid below the cap. |
| `EntitySet.Refused` | crates/enchudb-engine/src/entity_set.rs:194-231 | After growth it is every eid but one below the cap the call compared its number with. |
| `EntitySet.OneLeftOver` | crates/enchudb-engine/src/entity_set.rs:152-208 | That one may be left: there is a careful run in which a call is refused although nobody has the eid the growth added. |
| `EntitySet.CallEnds` | crates/enchudb-engine/src/entity_set.rs:194-257 | Over every run: a call ends within six steps of its own thread, whatever the others do. |
| `EntitySet.NeverWaits` | crates/enchudb-engine/src/entity_set.rs:194-257 | Over every such run: each thread can always make its next step. |
| `EntitySet.WhenGrowIsSafe` | crates/enchudb-engine/src/entity_set.rs:152-162 | From every state of such a run: growing the cap leaves every eid in one pair of hands, whatever follows, if and only if it is careful: the numbers that threads have fetched and that become eids are all different and below the mark there will be, and no thread is left that has to put the counter back, or the cap stays one above that mark at most. |
| `EntitySet.CarelessGrowth` | crates/enchudb-engine/src/entity_set.rs:152-162 | For each way not to be careful there is a run after the growth that puts an eid in the hands of two threads. |
| `EntitySet.GrownBetween` | crates/enchudb-engine/src/entity_set.rs:194-208 | That no thread has gone over is not enough: from a full set of any size, growth between a thread's step of the counter and its load of the cap leads to an eid in the hands of two threads. |
| `EntitySet.QuietGrowth` | crates/enchudb-engine/src/entity_set.rs:152-162 | Any growth is careful while no thread is between its step of the counter and putting it back or taking the eid. |
| `EntitySet.CountIs` | crates/enchudb-engine/src/entity_set.rs:233-257 | Over every such run: the live count is the bits set, plus the threads that cleared a bit and have not counted it out, less those that set one and have not counted it; it is below zero exactly when these last outnumber the rest. |
| `EntitySet.BelowZero` | crates/enchudb-engine/src/entity_set.rs:194-257 | There is a run of two threads on an empty set after which it is minus one. |
| `EntitySet.QuietCount` | crates/enchudb-engine/src/entity_set.rs:233-257 | With no call under way, the live count is the number of bits set. |
| `EntityBits.LiveCountIn` | crates/enchudb-engine/src/entity_set.rs:328-360 | Counting whole bytes between two ragged ends gives the number of live eids of the range. |
| `EntityBits.HighestLiveIn` | crates/enchudb-engine/src/entity_set.rs:367-391 | The highest live eid of a range, or none, although empty bytes are skipped. |

## Left out

- ChangeLogStore.ChangeLog.AppendFrom: does not model a write or flush that fails, nor entries damaged on disk; an intact log is kept intact and recovered after a stop, and numbers stay below the wrap marker 2^64 - 1.
- ChangeLogStore.ChangeLog.AppendChunk: does not model a write or flush that fails.
- ChangeLogStore.ChangeLog.SkipOne: does not model a flush that fails.
- ChangeLogStore.ChangeLog.Open: takes files that recover; a damaged header, which opens as an empty log, is not modelled.
- LeafStores.LeafStore.Insert: does not model 32-bit overflow of offsets and sizes or wrap-around of the generation counter; `words.Length` is what can be committed, so that the second test of the room, over words the first one committed, always passes.
- LeafStores.LeafStore.Retire: asks that a slot is retired once, as its callers do.
- LeafStores.LeafStore.FreeSlot: asks that the words it marks are inside the region (`InRange`), where the code panics; so do `FreeRetired` and `DurableEnd`.
- LeafStores.LeafStore.FreeEach: asks that a slot of 8 bytes with the generation flag is freed after the slot right behind it; in the other order its mark overwrites the size by which the second would be freed.
- LeafDurable.NamedOnDiskIsHeld: has a fixed set of columns, and takes a change of a cell and its dirty mark as two steps of one writer.
- LeafSeqlock.NoTornValue: is about slots with a generation; the 8-byte form, which is never written any more, is not read there.
- HimoStores.HimoStore.Pull: covers values held in the dense array; the sparse runs and the growth of the array are left out, and so are walks in value order.
- HimoStores.HimoStore.PullRangeUnordered: covers values held in the dense array.
- HimoStores.HimoStore.SliceLen: covers values held in the dense array.
- BucketSnapshot.CleanReadIsSound: does not model reclamation of old backings; a backing is never reused, as the epoch guard promises.
- LazyBuild.IndexIsColumn: takes the write gate and the value locks by their contracts (an entry is counted before the gate can be seen drained; a barrier holds all keys).
- PublishGate.ContentFirst: has one content segment, written and marked dirty in one step, and takes cells to reach the disk only when their column is written out.
- EntitySet.NeverTwice: leaves out `revive`, `ensure_live` and `allocate_at`, which take an eid their caller names.
- `free_list_bytes` and `install_free_list`: they write the holes with the high-water mark and a checksum at a clean close, and take them back at the next open if all of it still fits.
- `settle_due`, `begin_settle` and `settle_finished`: they decide when a writer starts a write-out of its own for retired slots.
- `compact_now`, `pull_into`, `pull_range`, `count_range` and `unique_count`: they repeat what `Pull`, `PullRangeUnordered` and `SliceLen` show.
- `dedup_eids`: only the sparse runs use it.
- The author index is kept but only its membership is stated; `if_unmapped` is left out.
- mmap, msync, file handling, checksums and hash-addressed stores.
- Memory orderings weaker than sequential consistency.
