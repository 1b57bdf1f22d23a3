# immutable_cache in Dafny

A model of immutable_cache, a shared-memory, add-only key/value cache for PHP, with proofs of what its connected parts
promise:

* **the allocator** (`Tiles`, `Headers`, `FreeList`, `HeaderWrites`, `Segment`, `SegmentRuns`, `Pool`): boundary tags
  and a doubly linked free list in each segment, modelled as a class whose block headers are updated in place, next to
  two ghost sequences: the blocks in address order and the free list;
* **the persist engine** (`Values`, `Traversal`, `Trails`, `Memo`, `Copies`, `Placement`, `Filling`, `Persist`,
  `Outcomes`, `Leads`, `Store`): PHP values as a graph of heap nodes, a counting pass and a copying pass with a memo
  table each, and the way back. `Traversal.Scan` is an independent worklist definition of the traversal; both
  recursive passes are proved to follow it, which is why their tables agree. `Trails` finds what decides how a value
  is stored without any memo table, in the order of the slots, and the walk is proved to find the same.
  `Values.Unfold` is what PHP code can observe of a value down to a depth, and meaning is equality at every depth, so
  that sharing and cycles need no special care;
* **the table** (`Chains`, `Table`, `Ownership`, `Uses`, `Cache`): slots, entry links and counters, refined to a
  finite map; `Cache` joins table, persist engine and allocator, with the invariant that every node in shared memory
  lies in the allocated block of a bound entry. `Uses` says which blocks a value leads into, what giving a block back
  takes away, and that the table's header and slots, like the values handed out, are out of its reach;
* **the lock protocol** (`Protocol`, `Invariants`, `Safety`, `Progress`, `Publishing`, `Runs`, `Calls`, `Reclaiming`,
  `Statistics`, `Endings`): stores, lookups and whole-table walks of any number of threads, interleaved one shared
  access at a time under one global and sixteen fine-grained locks. A stored value is a token here, together with the
  entries whose blocks it leads into. Beside safety it is proved that no block is lost, that every finished lookup is
  counted once, and that calls come to an end;
* **all of it together** (`Refinement`, `Worlds`, `WorldSafety`, `WorldSteps`, `WorldEffects`, `WorldFrees`,
  `WorldRuns`, `WorldBlocks`): an insertion of the interleaved protocol refines the one of the sequential table, and
  the protocol is run with the memory it works on, that is with the nodes of keys and values and the rows of the
  allocator, while processes do what they like with memory of their own; what the allocator has handed out is
  accounted for over whole runs;
* **the iterator** (`Stack`, `Iteration`, `IteratorRuns`, `Totals`): a growable stack refilled a few slots at a time
  from a table that may grow in between.

`Layout` holds the constants of a 64-bit build, `Options` values that may be missing, `Focus` the predicates that keep
invariants folded in proofs, `Sequences` what it means for a sequence to have no repetitions. `dafny verify
dfyconfig.toml` checks everything.

Where the code and TECHNOTES.txt differ the model follows the code: the notes describe a singly linked list of blocks
with one zero-sized block in front and plain first fit, while the code keeps a doubly linked list between two
zero-sized blocks, tags each block with the size of a free predecessor, and looks at three more list nodes for a
better fit. The notes' promise that two free blocks never lie next to each other is proved.

Two things hold only under a condition, which is proved to be exact:

* `nNextFreeElement` of a copied array is one above the largest non-negative integer key if and only if no key is the
  largest integer (`Filling.FilledIsCopy`); at that key it wraps to the smallest integer (`Filling.TopKeyWraps`) and
  counts on from there. It agrees with the field of PHP's own arrays, which stay at the largest integer, if and only
  if there is no such key or the key one below it comes behind its last occurrence (`Filling.SaturatesIff`).
* The iterator's valid() tells whether an item is at hand if and only if next() has not been called beyond the end of
  a chunk; after that it says yes though nothing is at hand (`Iteration.Iterator.IsValid`,
  `Iteration.ValidBeyondEnd`), and current() is outside its assertion.

## Model

| member | source | states |
|---|---|---|
| `Layout.AlignWord` | immutable_cache_sma.h:149-150 | the least multiple of the word size that is not below the argument |
| `Segment.Need` | immutable_cache_sma.c:193-195 | an aligned size that covers the request and the block header, and exceeds them by less than a word |
| `Segment.Segment.constructor` | immutable_cache_sma.c:382-408 | a fresh segment satisfies the invariant: one free block between the two sentinels, and `avail` equal to that block plus one header |
| `Segment.Segment.FindBlock` | immutable_cache_sma.c:148-184 | NULL exactly when no listed block fits; otherwise the smallest fitting block among the first fit and the next three list nodes |
| `Segment.Segment.Choose` | immutable_cache_sma.c:207-211 | NULL exactly when no free block fits; otherwise the best fit, as a block of the row and as a node of the list |
| `Segment.Segment.TakeWhole` | immutable_cache_sma.c:213-219 | the header stores of an unsplit allocation, as one function of the old headers |
| `Segment.Segment.Cut` | immutable_cache_sma.c:220-242 | the header stores of a split, as one function of the old headers |
| `Segment.Segment.HandOut` | immutable_cache_sma.c:213-247 | the block at `cur` becomes allocated: the row grows by one block if and only if the old one has MINBLOCKSIZE + fragment bytes beyond the request, and then a free rest of at least that size follows; otherwise the whole of it is handed out; invariant and `avail` follow |
| `Segment.CutShape` | immutable_cache_sma.c:213-242 | the row of blocks after an allocation, without and with a rest, the other blocks unmoved |
| `Segment.Segment.Allocate` | immutable_cache_sma.c:187-257 | fails if and only if no free block fits the aligned request; otherwise a best fit is handed out, cut exactly under that condition, `n` <= usable < `n` + (W-1) + MINBLOCKSIZE + fragment, word aligned and inside the segment |
| `Segment.Segment.NoFitWithoutBytes` | immutable_cache_sma.c:197-205 | the early `avail` test never rejects a request that some block fits |
| `Segment.Segment.UnlinkBlock` | immutable_cache_sma.c:283-284 | the two stores that take a block off the doubly linked list |
| `Segment.Segment.MergeBack` | immutable_cache_sma.c:280-290 | the released block absorbs the block before it exactly when that one is free (told by `prev_size`) |
| `Segment.Segment.MergeForward` | immutable_cache_sma.c:292-307 | and the block after it exactly when that one is free (told by `fnext`) |
| `Segment.Segment.Release` | immutable_cache_sma.c:309-316 | tag behind the merged block and insertion at the front of the list, as one function of the old headers |
| `Segment.Segment.Deallocate` | immutable_cache_sma.c:261-319 | the block is merged with its free neighbours, the invariant holds again, and `avail` grows by the size released |
| `Segment.Segment.FreeBlocks` | immutable_cache_sma.c:545-567 | the walk of sma_info ends and reports every free block, with its size, exactly once and nothing else |
| `Headers.UnlinkLinked` | immutable_cache_sma.c:283-284 | unlinking a node leaves a well-formed doubly linked list of the other nodes |
| `Headers.PushFrontLinked` | immutable_cache_sma.c:311-316 | a node put behind the first sentinel is linked in both directions |
| `Headers.ReplaceLinked` | immutable_cache_sma.c:234-238 | the rest of a cut block takes its place in the list |
| `HeaderWrites.TakeCorrect` | immutable_cache_sma.c:213-244 | an unsplit allocation keeps sizes, `prev_size` tags and list in step with the row of blocks |
| `HeaderWrites.CutCorrect` | immutable_cache_sma.c:220-244 | so does a split |
| `HeaderWrites.MergePrev` | immutable_cache_sma.c:280-290 | state of list and headers after merging backwards |
| `HeaderWrites.MergeNext` | immutable_cache_sma.c:292-307 | state of list and headers after merging forwards |
| `HeaderWrites.ReleaseCorrect` | immutable_cache_sma.c:280-316 | a release keeps sizes, tags and list in step with the merged row |
| `Tiles.AllocAtWellTiled` | TECHNOTES.txt:121-125 | allocation keeps the blocks covering the segment, each big enough, no two free neighbours |
| `Tiles.FreeAtWellTiled` | TECHNOTES.txt:121-125 | release keeps the same, by merging on both sides |
| `Tiles.FreeUndoesAlloc` | immutable_cache_sma.c:213-316 | handing out a block and taking it straight back restores the row of blocks, cut or not |
| `Tiles.AllocAtBytes` | immutable_cache_sma.c:246-247 | allocation moves exactly the handed-out bytes from free to allocated |
| `Tiles.FreeAtBytes` | immutable_cache_sma.c:275-278 | release moves them back |
| `Tiles.BytesTotal` | immutable_cache_sma.c:383-395 | free and allocated bytes always add up to the span of the segment |
| `SegmentRuns.Run` | immutable_cache_sma.c:187-319 | over any sequence of requests and releases: the invariant, exactly the held blocks allocated, each with the bytes asked for and none overlapping, `avail` = free bytes + one header, and `avail` + allocated bytes constant; every request was served by a free block unless none fitted it, and every release took back the block it meant |
| `SegmentRuns.Take` | immutable_cache_sma.c:187-257 | one request within a run |
| `SegmentRuns.GiveBack` | immutable_cache_sma.c:261-319 | one release within a run |
| `SegmentRuns.AllocateThenFree` | immutable_cache_sma.c:213-316 | allocate then deallocate restores the row of blocks and `avail`, in the split and the unsplit case |
| `SegmentRuns.ServedApart` | immutable_cache_sma.c:187-319 | the bytes of different holders never overlap and lie between the sentinels |
| `Pool.Pool.constructor` | immutable_cache_sma.c:350-412 | all segments start with one empty block |
| `Pool.Pool.TryIn` | immutable_cache_sma.c:447-455 | one segment's answer as an address: NULL exactly when no free block of it fits |
| `Pool.Pool.MallocEx` | immutable_cache_sma.c:435-483 | NULL if and only if no segment has a fitting block; otherwise the segment that served last, or else the first that fits, has made one allocation, cut if and only if two smallest blocks are left beyond the request, and `last` names it |
| `Pool.Pool.Free` | immutable_cache_sma.c:491-518 | the block's segment takes it back; NULL and foreign addresses change nothing |
| `Pool.Pool.ContainsPointer` | immutable_cache_sma.c:616-626 | true exactly for addresses inside some data segment |
| `Housing.ServedUnused` | immutable_cache_sma.c:435-483 | a block just handed out lies in the data segments and meets no node that lies in an allocated block |
| `Housing.ServedUndone` | immutable_cache_sma.c:435-518 | giving the block back restores the rows of all segments |
| `Memo.RotatedInjective` | immutable_cache_persist.c:91-98 | the rotated-pointer key never conflates two pointers |
| `Traversal.AcceptedIsReachable` | immutable_cache_persist.c:131-202 | an accepting traversal visits exactly the nodes reachable without entering shared memory, each once |
| `Traversal.AcceptsIffClean` | immutable_cache_persist.c:157-270 | the traversal accepts if and only if no object, reference, INDIRECT or resource is reachable outside shared memory |
| `Traversal.ScanReaches` | immutable_cache_persist.c:229-270 | whatever ends the traversal is reachable, and is a resource exactly when storing is refused |
| `Trails.ShutDead` | immutable_cache_persist.c:131-144 | a node from which nothing was found can be shut: what a search finds elsewhere does not change |
| `Trails.ScanFirst` | immutable_cache_persist.c:131-270 | the walk with the memo table ends at the same value as a search without one, along every path that enters no node twice |
| `Trails.FindTrail` | immutable_cache_persist.c:172-199 | that value stands at the end of the first trail in the order of the slots, and trails to all others are later |
| `Trails.FirstDecides` | immutable_cache_persist.c:172-270 | and no other value is first in that sense |
| `Trails.VerdictIs` | immutable_cache_persist.c:157-276 | the verdict on an entry: acceptance if and only if nothing reachable stands in the way, otherwise serialization or refusal as the first value in slot order has it |
| `Persist.Context.CalcMemoize` | immutable_cache_persist.c:131-144 | true exactly for pointers counted before; others are entered |
| `Persist.Context.constructor` | immutable_cache_persist.c:109-119 | an empty context: nothing counted, nothing copied, no serialized bytes |
| `Persist.Context.CalcStr` | immutable_cache_persist.c:146-155 | a key string is counted once, and not at all inside shared memory |
| `Persist.Context.CalcHt` | immutable_cache_persist.c:157-202 | array and items follow the traversal, and the size stays the entry plus each visited node once |
| `Persist.Context.CalcSlots` | immutable_cache_persist.c:172-199 | the loop over the slots does so slot after slot |
| `Persist.Context.CalcSlot` | immutable_cache_persist.c:181-198 | holes are skipped, INDIRECT ends the pass with serialization, keys come before values |
| `Persist.Context.CalcSerialize` | immutable_cache_persist.c:204-226 | succeeds exactly when the serializer does, and then adds the string's size |
| `Persist.Context.CalcZval` | immutable_cache_persist.c:229-270 | the recursive pass follows the traversal step by step, terminates on every graph, and sets the serialization flag exactly on objects and references |
| `Persist.Context.CalcNode` | immutable_cache_persist.c:249-254 | a string or array not counted before: its bytes once, then its items in traversal order |
| `Persist.Context.Calc` | immutable_cache_persist.c:272-276 | verdict of the traversal from key and value; on success size = entry + bytes of every distinct node once |
| `Persist.Context.AllocMem` | immutable_cache_persist.c:299-304 | the assertion at line 302: the bump pointer never leaves the block |
| `Persist.Context.GetAllocated` | immutable_cache_persist.c:281-290 | the pointer itself inside shared memory, the copy made before, or NULL |
| `Persist.Context.AddAllocated` | immutable_cache_persist.c:292-297 | the copy is entered under the rotated pointer, when the memo table is on |
| `Persist.Context.CopyCstr` | immutable_cache_persist.c:315-333 | a string node with the same bytes and its hash computed, marked as never to be freed |
| `Persist.Context.GetOrCopyStr` | immutable_cache_persist.c:346-356 | the string's one place in shared memory, in step with the counting pass |
| `Persist.Context.CopySerialize` | immutable_cache_persist.c:466-479 | the serialized bytes of an array or object, with the memo table off, become a string marked apart from strings |
| `Persist.Context.CopyZval` | immutable_cache_persist.c:482-515 | the value with its pointer moved; every node copied on the way is finished |
| `Persist.Context.CopyHt` | immutable_cache_persist.c:380-464 | a finished copy of the array, made after header, memo entry and slot area |
| `Persist.Context.NewTable` | immutable_cache_persist.c:380-423 | header and slot area of the copy, marked as never to be freed; an empty array shares the static slot area and has its layout; hash part and slots of any other lie inside its own bytes |
| `Persist.Context.NewHeader` | immutable_cache_persist.c:381-391 | the header is copied, entered in the memo table and given the immutable flags |
| `Persist.Context.NewSlots` | immutable_cache_persist.c:405-423 | the header fields that the loop starts from, and a slot area that holds hash part and slots: the static one if and only if there are no slots |
| `Persist.Context.CopySlots` | immutable_cache_persist.c:424-461 | all slots moved in place; afterwards next free element and internal pointer are right |
| `Persist.Context.NoteSlot` | immutable_cache_persist.c:428-434 | first live slot and next free element after one more live slot, for both layouts |
| `Persist.Context.CopyKey` | immutable_cache_persist.c:453-457 | a string key is moved; its value is not touched yet |
| `Persist.Context.CopyVal` | immutable_cache_persist.c:436-459 | the value is moved, and with it the slot is done |
| `Persist.Context.CopySlot` | immutable_cache_persist.c:424-460 | one round of the loop, for live slots and holes |
| `Persist.Context.CopyEntryKey` | immutable_cache_persist.c:520-521 | the entry's key comes first and leaves room for exactly the value |
| `Persist.Context.CopyEntryVal` | immutable_cache_persist.c:522 | the value comes last, and with it every node of the traversal has its copy |
| `Persist.Context.Copy` | immutable_cache_persist.c:517-524 | the pass ends exactly at `alloc + size` (the assertion at line 576) with every node of the traversal copied |
| `Filling.BookedLive` | immutable_cache_persist.c:428-457 | one live slot keeps `nNextFreeElement` at what the loop arrives at, wrap included, and the internal pointer at the first live slot |
| `Filling.NextCounts` | immutable_cache_persist.c:432-457 | one integer key: the field stays one above the largest key seen, or, behind the largest integer, one above the largest key behind it |
| `Filling.NextUnique` | immutable_cache_persist.c:417-461 | this characterisation determines the field |
| `Filling.FilledIsCopy` | immutable_cache_persist.c:417-461 | after the last slot the array is a copy; `nNextFreeElement` is one above the largest non-negative key if and only if no key is the largest integer |
| `Filling.SaturatesIff` | immutable_cache_persist.c:455-457 | the field equals that of PHP's own arrays, which stay at the largest integer, if and only if no key is the largest integer or the key one below it comes behind its last occurrence |
| `Filling.TopKeyWraps` | immutable_cache_persist.c:455-457 | with the largest integer as only key the field wraps to the smallest, which is wrong by either rule |
| `Copies.CopyMeansSame` | immutable_cache_persist.c:380-515 | to every depth a moved value unfolds in the new heap as the original does in the old one, sharing and cycles included |
| `Copies.SlotKept` | immutable_cache_persist.c:424-461 | slot for slot a copied array keeps holes, hashes, integer keys and the bytes of string keys, and its number of elements and layout |
| `Copies.UnfoldExtends` | immutable_cache_persist.c:281-290 | values already in shared memory keep their meaning while nodes are added |
| `Placement.RoomFor` | immutable_cache_persist.c:299-304 | there is always room for the nodes still to be visited |
| `Placement.PlaceMore` | immutable_cache_persist.c:292-311 | entering a node keeps the copying state: order, addresses, memo table, unused rest of the block |
| `Outcomes.SideBySide` | immutable_cache_persist.c:299-311 | copies lie one behind the other, behind the entry and inside the block |
| `Outcomes.CopiesApart` | immutable_cache_persist.c:281-311 | distinct nodes get disjoint copies |
| `Outcomes.CopiedIsReachable` | immutable_cache_persist.c:131-202 | the nodes copied are exactly those reachable outside shared memory |
| `Outcomes.CopiedWellFormed` | immutable_cache_persist.c:380-515 | old heap and copies together are well formed, and shared memory points only into shared memory, carries the immutable flags, and has every array's hash part and slots inside the array's own bytes |
| `Leads.UnfoldShared` | immutable_cache_persist.c:281-290 | a value in shared memory means the same whatever becomes of all other memory |
| `Leads.ReachesShared` | immutable_cache_persist.c:281-290 | and leads to the same nodes, all of them there |
| `Leads.CopyEdgesBack` | immutable_cache_persist.c:281-290 | no pointer of a copied node leads to an old node that the original did not lead to |
| `Leads.GraphLeadsBack` | immutable_cache_persist.c:281-290 | the copied graph leads to no old node that the original did not lead to |
| `Store.Count` | immutable_cache_persist.c:531-565 | flags, first pass, and the second pass with serialization decide as the plan says |
| `Store.PlanIs` | immutable_cache_persist.c:531-565 | the plan in terms of what lies in the value: refused if and only if it is a resource, or one comes first in an array, or the serializer gives no bytes; serialized if and only if it is an object, or an array under a configured serializer or with an object or reference first; copied if and only if nothing stands in the way |
| `Store.OneKind` | immutable_cache_persist.c:247-268 | with resources only an array is refused, with objects or references only it is serialized |
| `Store.Claim` | immutable_cache_persist.c:567-571 | one block of the computed size, in which nothing lies yet, or NULL when no segment has room |
| `Store.CopyInto` | immutable_cache_persist.c:573-579 | the filled block keeps key and value, leads to no old node they did not lead to, the source heap is unchanged, and everything new lies inside the block |
| `Store.PersistEntry` | immutable_cache_persist.c:526-583 | NULL exactly when the value is one that cannot be stored or no segment has room, and then nothing has changed; otherwise one block of exactly the planned size holds the entry: the encoder's bytes if and only if the value needs serialization, and an array without serializer as it is if and only if nothing reachable in it stands in the way |
| `Store.FollowPlan` | immutable_cache_persist.c:526-583 | plan, one allocation and copy, with nothing changed on failure |
| `Store.Unpersist` | immutable_cache_persist.c:734-786 | serialized bytes are decoded by the configured serializer, or PHP's own without one; any other value comes out meaning the same, also an array without elements; the flag assertions hold |
| `Chains.ChainAppends` | immutable_cache_cache.c:307-309 | linking at the tail keeps the chain well formed with distinct keys |
| `Chains.LinkInOrder` | immutable_cache_cache.c:296-314 | linking keeps chains, bindings and counters of the whole table in step |
| `Chains.HitInOrder` | immutable_cache_cache.c:380-384 | counting a hit keeps them, and header hits stay the sum of entry hits |
| `Chains.FlatOnce` | immutable_cache_cache.c:738-749 | the chains together hold every bound entry once |
| `Table.Table.constructor` | immutable_cache_cache.c:258-266 | zeroed slots are an empty table |
| `Table.Table.WlockedInsertExclusive` | immutable_cache_cache.c:283-317 | returns 1 exactly when the key was not bound, and then binds it at the tail of its chain; otherwise nothing at all changes |
| `Table.Table.LinkIn` | immutable_cache_cache.c:307-313 | the new binding and the counters of entries, inserts and memory |
| `Table.Table.Attach` | immutable_cache_cache.c:307-309 | the two pointer assignments, in the slot or in the entry before |
| `Table.Table.WalkTells` | immutable_cache_cache.c:296-305 | a walk that ends without a match proves the key unbound; a match is the binding |
| `Table.Table.RlockedFindNostat` | immutable_cache_cache.c:344-364 | the bound entry, or NULL when the key is not bound |
| `Table.Table.RlockedFind` | immutable_cache_cache.c:367-396 | the same, with one hit or one miss counted unless memory is protected |
| `Table.Table.CountHit` | immutable_cache_cache.c:380-384 | header and entry count one hit each, the access time is set |
| `Table.Table.Stat` | immutable_cache_cache.c:765-801 | hits and times of exactly the bound entry |
| `Table.Table.Info` | immutable_cache_cache.c:731-753 | the list holds every bound entry once, and the distribution gives the length of every non-empty chain |
| `Ownership.HomeTaken` | immutable_cache_cache.c:409-445 | the block of a bound entry is never handed out again |
| `Ownership.PendingKeeps` | immutable_cache_cache.c:434-438 | linking a persisted entry keeps every node owned by a bound entry with an allocated block |
| `Ownership.NoDangling` | immutable_cache_cache.c:409-445 | whatever can be reached from a bound entry lies in the block of a bound entry and has not changed, at every later moment, while any number of stores fill blocks of their own and processes make, change and free values of their own |
| `Ownership.EntryUnchanged` | immutable_cache_cache.c:409-445 | a bound entry stands for what it was made from, whatever has become of the original and of all other memory outside shared memory |
| `Ownership.HomeApart` | immutable_cache_sma.c:213-247 | the block of a bound entry meets no free block |
| `Uses.UsesCover` | immutable_cache_persist.c:281-290 | every shared node that a value of any process leads to lies in the block of a bound entry that the value uses |
| `Uses.NewUses` | immutable_cache_persist.c:517-524 | a new entry uses, besides its own block, only blocks that its key and value used already |
| `Uses.PendingDrops` | immutable_cache_cache.c:128-130 | without the block of an entry that was turned down, memory and entries are what they were before the entry was made |
| `Uses.DropUnreached` | immutable_cache_cache.c:440-442 | nothing that bound entries or fetched values lead to, then or later, lies in that block, whatever processes have done with memory of their own |
| `Uses.ReservedMore` | immutable_cache_cache.c:246-271 | the block of a new entry does not meet the header and the slots of the table |
| `Cache.AllocAlignedHeader` | immutable_cache_cache.c:227-231 | header and slots on a 64-byte boundary, inside the block allocated for them |
| `Cache.Create` | immutable_cache_cache.c:234-281 | no cache exactly when no segment has room for header, slots and padding; otherwise an empty one, with all counters zero and the serializer, protection and empty array given, that satisfies the invariant |
| `Cache.Cache.constructor` | immutable_cache_cache.c:234-281 | an empty cache, its header and slots in a block of their own, satisfies the invariant that joins table, heap and allocator |
| `Cache.Cache.HeaderApart` | immutable_cache_cache.c:246-271 | header and slots lie in an allocated block, clear of every entry and of every node in shared memory |
| `Cache.Cache.Build` | immutable_cache_persist.c:281-290 | processes make, change and free values of their own, pointing at fetched values or not, and reuse their addresses: nothing changes for the cache |
| `Cache.Cache.Find` | immutable_cache_cache.c:367-406 | without memory protection a bound key counts one hit in header and entry and sets its access time, an unbound one counts one miss; nothing else changes, under protection nothing at all; the entry found still stands for what was stored |
| `Cache.Cache.Exists` | immutable_cache_cache.c:631-648 | true exactly for bound keys |
| `Cache.Cache.Fetch` | immutable_cache_cache.c:604-628 | a value stored as it is comes out meaning what was put in; of a serialized one the bytes are those the configured serializer, or PHP's own, made of it, and their decoding comes out, NULL if that fails; so a value for which decoding undoes encoding comes out meaning what was put in; hit or miss is counted as in a lookup |
| `Cache.Cache.TakeOut` | immutable_cache_cache.c:604-616 | the value of an entry, used in place or decoded |
| `Cache.Cache.HandedStays` | immutable_cache_cache.c:604-628 | a fetched value means the same after any later calls and whatever processes do with memory of their own: it leads to the same unchanged nodes, each in the block of a bound entry, and no array among them has slots outside it |
| `Cache.Cache.StoredStays` | immutable_cache_cache.c:604-628 | so does what is stored under a key: it stands for its source in any memory with the same shared nodes |
| `Cache.Cache.Publish` | immutable_cache_cache.c:428-442 | the persisted entry is bound, or its block goes back and memory, table and allocator are as before |
| `Cache.Cache.FreeEntry` | immutable_cache_cache.c:128-130 | the block goes back, restoring the rows of all segments, and what lies in it leaves memory |
| `Cache.Cache.Reject` | immutable_cache_cache.c:440-442 | after an entry was turned down, dropping it and its block from the memory there is gives the memory there was |
| `Cache.Cache.Store` | immutable_cache_cache.c:409-445 | returns 1 exactly when the value can be stored, a segment has room and the key is unbound; what is stored is serialized or copied as its contents demand, entries, inserts and memory grow by it, no other entry changes but for a link, and it uses no block its key and value did not use; every other outcome leaves table, heap, entries and allocator as they were |
| `Runs.InitKeeps` | immutable_cache_cache.c:258-268 | the empty table satisfies the invariant of the protocol |
| `Runs.StepKeeps` | immutable_cache_cache.h:222-265 | every step of every thread keeps it: exclusion, chains, private blocks, walks in progress, counters, history |
| `Runs.RunKeeps` | immutable_cache_cache.h:222-265 | so it holds in every state of every run, for any number of threads |
| `Publishing.ReaderUndisturbed` | immutable_cache_cache.h:222-252 | a reader under another fine-grained lock keeps its position and answer while an entry is appended to the chain it walks |
| `Publishing.PublishStructure` | immutable_cache_cache.c:307-309 | the single store of a pointer at the tail keeps all chains well formed |
| `Publishing.LinkKeeps` | immutable_cache_cache.c:307-309 | linking keeps the whole invariant, other threads' walks included |
| `Progress.AllocKeeps` | immutable_cache_sma.c:443-456 | a block taken under the global lock is the thread's own |
| `Progress.CopyKeeps` | immutable_cache_persist.c:573-579 | writing a private block after the lock was released disturbs no one, while the blocks its pointers lead into stay bound |
| `Progress.FreeKeeps` | immutable_cache_sma.c:504-509 | giving back a private block disturbs no one |
| `Progress.WalkKeeps` | immutable_cache_cache.c:296-305 | one step of a writer's walk |
| `Progress.HitKeeps` | immutable_cache_cache.c:380-384 | each of the two increments keeps header hits = entry hits + readers in between |
| `Progress.TallyKeeps` | immutable_cache_cache.c:311-313 | each of the three counter updates, in order, made by the one thread that may |
| `Progress.FindQuiet` | immutable_cache_cache.c:344-396 | taking the fine lock, reading the slot, and one step of a reader's walk |
| `Progress.HandKeeps` | immutable_cache_cache.c:618-625 | releasing the lock with an entry in hand: it and whatever it leads into are bound |
| `Progress.InfoKeeps` | immutable_cache_cache.c:738-756 | taking the global read lock, reading the first slot, and one step of a whole-table walk |
| `Progress.ReportKeeps` | immutable_cache_cache.c:754-756 | releasing that lock with the keys of all entries in hand |
| `Runs.BoundForever` | immutable_cache_cache.c:283-317 | a bound key keeps its entry, and the entry its key, value and size, in all later states |
| `Runs.LinkBindsAbsent` | immutable_cache_cache.c:296-309 | the linking step is reached only while the key is unbound, and binds exactly that key |
| `Runs.Decisions` | immutable_cache_cache.c:296-316 | at every such moment of a run: a store that has decided for 1 has its own entry bound, one that has decided for 0 finds the key bound |
| `Runs.OneWinPerKey` | immutable_cache_cache.c:409-445 | at every moment of a run the entries of stores that returned 1 have different keys and are the ones bound |
| `Calls.StageStep` | immutable_cache_cache.c:283-341 | one step as one storing thread sees it: the link decides for 1, a key found bound decides for 0, and nothing decided is undone |
| `Calls.StoreOutcome` | immutable_cache_cache.c:409-445 | over a whole call: a store that returns 1 made exactly one linking step, while its key was unbound; one that returns 0 made none and either saw the key bound and gave its block back, or got no block |
| `Calls.GaveBack` | immutable_cache_cache.c:440-442 | a rejected store comes to its return only through the step that takes exactly its block out of memory |
| `Reclaiming.StepAccounts` | immutable_cache_cache.c:409-445 | every step of every thread keeps each block accounted for |
| `Reclaiming.NothingLost` | immutable_cache_cache.c:409-445 | at every moment of every run each block in shared memory is that of a bound entry, or of a store under way that has taken it |
| `Reclaiming.IdleMemory` | immutable_cache_cache.c:440-442 | when no call is under way the blocks are exactly those of the bound entries |
| `Calls.OneCallWins` | immutable_cache_cache.c:409-445 | of all calls in a run that store under one key at most one returns 1 |
| `Runs.LookupAnswers` | immutable_cache_cache.c:344-396 | at every moment of a run at which it holds its lock a lookup stands to report the binding there is, which is the one there was when the lock was taken |
| `Runs.LookupStable` | immutable_cache_cache.h:241-252 | from taking the fine-grained lock, before the slot is read, to giving it back the answer is the same at every moment |
| `Runs.PointersLinked` | immutable_cache_cache.c:296-364 | every entry a thread follows, was given, or copies pointers into is bound |
| `Safety.AlwaysReady` | immutable_cache_cache.c:296-396 | no step ever follows a pointer to memory that is not allocated |
| `Runs.FreeIsSafe` | immutable_cache_cache.c:440-442 | the block freed by a rejected store is in no chain, was handed to no reader, no other thread points to it, and no value of a bound or held entry, or being stored, leads into it |
| `Runs.UsesStay` | immutable_cache_cache.c:604-628 | everything a bound or fetched entry leads into, directly or through other entries, is bound and unchanged in all later states |
| `Runs.HeldStays` | immutable_cache_cache.c:604-628 | an entry used after its lock was released stays bound and unchanged |
| `Runs.NoDeadlock` | immutable_cache_cache.h:222-265 | while a call is unfinished some thread in a call can take its next step |
| `Endings.Exclusion` | immutable_cache_cache.h:222-265 | at every moment of a run at most one thread is in the allocator or binds a key, none while another walks the whole table, and none looks up under the lock under which another binds |
| `Endings.StepsFall` | immutable_cache_cache.c:283-396 | every step of a call, a retry in another segment aside, brings it closer to its return |
| `Endings.OthersWait` | immutable_cache_cache.c:296-364 | steps of other threads never send a call back, and lengthen a walk only by an entry bound meanwhile under another lock |
| `Endings.LookupEnds` | immutable_cache_cache.c:344-396 | a lookup takes at most seven steps and one for each entry in the chain of its key, however others interleave |
| `Runs.CountersAgree` | immutable_cache_cache.c:311-313 | at every moment of a run outside an insertion's bookkeeping entries = inserts = number of bindings, and memory size is the sum of entry sizes |
| `Runs.HitsCounted` | immutable_cache_cache.c:380-384 | at every moment of a run header hits = sum of entry hits + readers between the two increments |
| `Statistics.HitsPerEntry` | immutable_cache_cache.c:375-390 | without memory protection every bound entry has as many hits as lookups with statistics have ended with it |
| `Statistics.MissesCounted` | immutable_cache_cache.c:391-396 | and the misses are the lookups with statistics that ended with nothing |
| `Statistics.ProtectedUncounted` | immutable_cache_cache.c:375-396 | under memory protection nothing is ever counted |
| `Runs.InfoSeesAll` | immutable_cache_cache.c:711-756 | a walk under the global read lock meets every bound entry once, and nothing is bound meanwhile |
| `Refinement.AlwaysTable` | immutable_cache_cache.c:283-317 | at every such moment of a run shared memory is a table that satisfies the invariant of the sequential one |
| `Refinement.OthersStutter` | immutable_cache_cache.h:222-240 | while one thread holds the global write lock no step of another changes chains, bindings, counters or bound entries, hits aside |
| `Refinement.InsertionRefines` | immutable_cache_cache.c:283-317 | walk, link and counter updates together, interleaved with any other threads, change the table exactly as the sequential insertion does |
| `WorldSteps.ServedFresh` | immutable_cache_sma.c:435-483 | a block that the allocator serves is none that any thread or entry has |
| `WorldSteps.TakeWorld` | immutable_cache_sma.c:435-483 | handing out a block keeps nodes, entries and allocator in order |
| `WorldEffects.CopyWorld` | immutable_cache_persist.c:573-579 | so does the copy of a key and value into a private block |
| `WorldEffects.ElsewhereWorld` | immutable_cache_persist.c:281-290 | and whatever processes do with memory of their own |
| `WorldFrees.FreeWorld` | immutable_cache_cache.c:440-442 | and the release of a rejected entry's block: what remains is well formed, closed and owned |
| `WorldRuns.CopyReady` | immutable_cache_persist.c:567-573 | before the copy its block is shared and empty, as the copying pass needs it |
| `WorldRuns.FreeReady` | immutable_cache_sma.c:491-509 | the block given back is one the allocator has handed out |
| `WorldBlocks.SameRow` | TECHNOTES.txt:121-125 | a coalesced row of blocks is determined by its allocated ones |
| `WorldBlocks.AllocatedIs` | immutable_cache_sma.c:435-518 | at every moment of every run what is allocated is what was at the start, and blocks of bound entries or of stores under way |
| `WorldBlocks.BoundTile` | immutable_cache_sma.c:491-518 | the block of a bound entry stays allocated |
| `WorldBlocks.NothingCosts` | immutable_cache_cache.c:440-442 | once no call is under way and the bindings are what they were, the rows of all segments are what they were, however many stores were turned down meanwhile |
| `WorldBlocks.NoBlockMeansFull` | immutable_cache_sma.c:435-483 | a store that returns 0 for want of a block was told so while some segment had no block that fits |
| `WorldRuns.WorldStepKeeps` | immutable_cache_cache.c:409-445 | every step of every thread with its effect on memory keeps the joint invariant: every shared node in the block of one entry, pointing only into blocks of bound entries or its own |
| `WorldRuns.NothingDangles` | immutable_cache_cache.c:409-445 | at every moment of every run whatever a bound entry leads to lies in the block of a bound entry |
| `WorldRuns.Immutable` | immutable_cache_cache.c:409-445 | while an entry has not been given back its key and value mean the same and lead to the same unchanged nodes |
| `WorldRuns.ImmutableForever` | immutable_cache_cache.c:283-317 | what is bound at one moment of a run is bound, and means the same, at every later one |
| `WorldRuns.StoredForever` | immutable_cache_cache.c:409-445 | from the copy on an entry holds the key it was stored under, and its value means what the value given to the store meant when it was copied |
| `WorldRuns.MemoryIsTable` | immutable_cache_cache.c:283-317 | with the keys and values in memory, shared memory is a table in order at every moment outside an insertion's bookkeeping |
| `Stack.Stack.Push` | immutable_cache_stack.c:72-80 | the item goes on top; a full array doubles |
| `Stack.Stack.constructor` | immutable_cache_stack.c:47-56 | empty, with the capacity hinted at or ten |
| `Stack.Stack.Grow` | immutable_cache_stack.c:75-78 | growing keeps the contents |
| `Stack.Stack.Pop` | immutable_cache_stack.c:82-86 | takes the top item off |
| `Stack.Stack.Get` | immutable_cache_stack.c:94-98 | the item at a position |
| `Iteration.Iterator.FetchActive` | immutable_cache_iterator.c:194-227 | the wanted entries of the next whole slots, in order; reading stops as soon as more than a chunk has been collected, and before that only when all slots are exhausted |
| `Iteration.Iterator.NextSlot` | immutable_cache_iterator.c:205-220 | one slot more |
| `Iteration.Iterator.constructor` | immutable_cache_iterator.c:276-287 | nothing fetched; a chunk size of 0 stands for the default |
| `Iteration.Iterator.FetchSlot` | immutable_cache_iterator.c:208-218 | the wanted entries of one chain are pushed in order |
| `Iteration.Iterator.Drain` | immutable_cache_iterator.c:198-200 | the stack ends up empty |
| `Iteration.Iterator.GetTotals` | immutable_cache_iterator.c:230-255 | count, size and hits of the wanted entries, computed once |
| `Totals.TotalsAgree` | immutable_cache_iterator.c:230-255 | over all keys, and away from an insertion's bookkeeping, the totals are the header's counters of entries, bytes and hits |
| `Totals.AllItems` | immutable_cache_iterator.c:236-252 | an iterator over all keys adds up every bound entry, each once |
| `Iteration.Iterator.Rewind` | immutable_cache_iterator.c:331-344 | starts over at slot 0 with the first chunk |
| `Iteration.Iterator.IsValid` | immutable_cache_iterator.c:346-360 | replaces a used-up chunk; the answer is whether an item is at hand, if and only if the position is not beyond the chunk |
| `Iteration.ValidBeyondEnd` | immutable_cache_iterator.c:346-422 | two calls of next() on a chunk of one item: valid() says yes though nothing is at hand |
| `Iteration.Iterator.Current` | immutable_cache_iterator.c:362-406 | the item at hand, from the next chunk if this one is used up, and the error exactly when nothing is left |
| `Iteration.Iterator.Next` | immutable_cache_iterator.c:408-422 | one position further, beyond the chunk too, and no move when nothing was fetched |
| `Iteration.Iterator.Foreach` | immutable_cache_iterator.c:331-422 | a full foreach over a growing table ends, yields every wanted entry present at rewind, nothing twice, and nothing that is not wanted or was never bound |
| `Iteration.ForeachYields` | immutable_cache_iterator.c:194-227 | why: the rows read at different moments are disjoint and only grow |
| `IteratorRuns.RunGrows` | immutable_cache_cache.c:283-317 | along a run chains only get longer, from every moment to every later one |
| `IteratorRuns.MomentsGrow` | immutable_cache_iterator.c:202-206 | so an iterator that reads at any moments of a run sees a growing table |
| `IteratorRuns.ForeachInRun` | immutable_cache_iterator.c:331-422 | a full foreach during any run yields every wanted entry bound at rewind, nothing twice, and only wanted entries that stay bound to the end of the run |

## Left out

- Operating system: mmap, shmget, mprotect, signals and the clock; segments are disjoint address ranges and time is an argument.
- Sizes near 2^64: requests whose aligned size plus header exceeds `size_t` are excluded by a precondition, as the code does not handle them.
- Platform: a 64-bit build of PHP 8.2 without canaries; sizes of headers, buckets and strings are the constants of such a build.
- The auxiliary segment that holds the locks: its locks are those of `Protocol`, its memory is never allocated from.
- Platform locks (immutable_cache_lock.c, immutable_cache_mutex.c): acquisitions always succeed, and memory is sequentially consistent.
- `Worlds` as a whole: the copy into a private block, and the allocator's work under the global lock, are one step each, and processes point into shared memory only from what was handed to them. The access time written after a hit is not a step of `Protocol`.
- WorldBlocks.NoBlockMeansFull: does not say that every segment was tried, because the order in which segments are tried is not part of `Protocol`.
- Re-entering the cache from an unserializer that runs under the iterator's read lock.
- Serializers, PCRE matching and the hash function of long strings beyond their definition: an abstract pair of functions, an abstract predicate on keys, and the 33-times hash.
- Zend hash tables: a slot's collision chain and the apply-protection flag are not modelled; the memo tables are finite maps from rotated pointers.
- Reference counts of copied arrays and zval type flags; the immutable flags of strings and arrays are modelled.
- Bailout by longjmp and memory-limit failures in the middle of a copy.
- `immutable_cache_cache_store_internal` (unused), the disabled code in unpersist and the commented-out copying of references.
- Preloading from files, INI handling, argument parsing, the serializer registry, `make_prime` and the user interface.
- Iteration.Iterator.Current: the assertion in immutable_cache_stack_get is a precondition; current() and key() share the one member.
- Iteration.Iterator.Foreach: one refill sees the table at one moment, as it does under the global read lock; the item's value is not unpersisted here.
- Cache.Cache.FreeEntry: the bytes of the freed block stay where they are in the source; here they leave the heap, so that no later proof can use them.
