# Verified model of the memory allocators and graph algorithms

A Dafny model of the allocator libraries under `libs_src`: mimalloc 2.0.6, the page-remapping
allocator of `vcmalloc.h`, and the two weighted-graph algorithms of `data_structures/graph.h`.
The configuration is 64-bit, `MI_DEBUG=0`, `MI_SECURE=0` (but the randomized free list is modelled
for every security level), atomics are sequentially consistent, segments are normal ones.

`dafny verify dfyconfig.toml` checks all of it.

## Parts

- **Cross-thread free** (`ThreadFree`, `ThreadFreeInv`, `ThreadFreeRuns`, `ThreadFreeFlag`): a transition
  system with one step for each atomic operation, any number of threads that free, and owners that allocate,
  collect, drain, abandon and adopt pages. The invariant is inductive, and the results are about all runs.
  `ThreadFreeAlone`, `ThreadFreeOwners` and `ThreadFreeAbandon` say what each whole operation comes to when
  its thread runs undisturbed.
- **Segments** (`SliceBins`, `SpanMap`, `SpanState`, `SpanCore`, `SpanRules`, `SpanSweeps`,
  `SpanMasks`, `Segments`): the slice array and the span queues of a thread as a class of arrays with index
  links. A ghost map of spans says what the entries mean; every method states the new map, and the new masks,
  in terms of the old ones.
  `CommitMask` (over `Words`) has the 64-bit mask words.
- **Shared lists and bitmaps**: `Abandoned` and `AbandonedInv` (the tagged stack with its visited list and
  reader count), `Bitmap` (the claims run alone, as methods over an array of words), `BitmapShared` and
  `BitmapSharedInv` (the same claims as steps of many threads), `SegmentCache` (the slot protocol), `Arena`
  (one thread) and `ArenaRuns` (block ranges over all runs of many threads). `AbandonedAlone`, `BitmapAlone`
  and `SegmentCacheAlone` follow an operation from its first step to its answer: with the other threads
  standing still, and where many interleave.
- **Page queues** (`PageBins`, `PageQueue`, over the doubly linked lists of `DList`): size classes, the
  direct table, and heap absorb.
- **Free lists** (`FreeList`, `EncodedLinks`): the sequential and the randomized builder, and how stored
  links are encoded.
- **Containers** (`Search`, `Frames`, `Containers`, `Remap`, `FrameRuns`, `Layout`, `Passes`, `Misread`,
  `Vcmalloc`): memory is the list of mapped frames with the contents of each frame; resizing splices the list.
  `FrameRuns`, `Layout` and `Passes` are about several containers resized at once, and what this leaves of the
  frame record.
- **Graphs** (`Graph`, `SpanningTree`): Dijkstra's shortest distances and Prim's spanning tree, with the
  classical optimality proofs.

## Where code and comments disagree

- `mimalloc-types.h:248` gives `used - |thread_free| + |free| + |local_free| == capacity`; the code, and the
  assertion at `page.c:100-101`, have `used + |free| + |local_free| == capacity`. The model follows the code.
- `mi_segment_init` (`segment.c:760-906`) says that allocating the info slices cannot fail. They are
  committed, but the commit around them is rounded to 2 MiB, so it can: `Segments.SpanTable.SegmentInit`
  states exactly when, `SpanCore.InfoBlocks` for which sizes, and `SpanCore.InfoExample` has one.
- `vcmalloc.h:418` and `462` recompute the element count by integer division, so containers behind a resized
  one move away from its end unless the pages added or removed are whole elements
  (`Containers.ResizedPacked`, `Containers.WholeElements`, `Remap.GapExample`).
- For the same reason a container can have fewer pages afterwards than it was given, and `pfns_num_` is then
  not the sum of the page counts that every frame position is computed from. `Containers.CountAfter` says
  exactly when, `Containers.CountExample` has a case with a single container, `Remap.PlacedAfter` says which
  containers are then still found where they are, and `Passes.CountedEnd` is the same for several resized at
  once.
- Where a container that shrinks in `ContainerRealloc2` counts fewer pages than it keeps, the second pass
  (`vcmalloc.h:618-713`) reads the frames of the runs behind it at the wrong places, and does not write the
  last ones on record. `Layout.EndConserved` and `Layout.EndSpliced` say exactly when frames are lost, and
  when they are out of place; `Layout.DistinctEnd` has this in numbers, and `Misread.FrameLost` and
  `Misread.FramesMixed` have a case of each.
- The same pass moves a container that does not grow down by the pages added before it (`vcmalloc.h:638` and
  `655`), which should move it up. `Passes.PackedEnd` says exactly when the containers stay end to end.
- `vcmalloc.h:436-447` shifts the frame record before it has the new frames, and an incomplete allocation
  writes over it. The record may then no longer be that of the mapping, and the frames that came are lost
  (`Remap.RecordLost`, `Remap.RecordExample`, `Remap.GrantLost`). `ContainerAlloc` leaves the new container
  on record without frames in the same case.
- `Search::binarySearch` reads before the array for an address below the first of three or more entries
  (`Search.BelowExample`).

## Model

| member | source | states |
|---|---|---|
| ThreadFreeInv.StepInv | libs_src/mimalloc/src/alloc.c:351-406 | Every atomic step of a remote free, and every step of the owner (local malloc and free, thread-free collection, delayed draining, flag changes, abandonment, adoption, page freeing), keeps the inductive invariant of the protocol. |
| ThreadFreeRuns.RunGood | libs_src/mimalloc/src/page.c:126-223 | In every reachable state the invariant holds and the three free lists of every page, the heap delayed lists and the lists being walked are well-linked in memory. |
| ThreadFreeRuns.ExactlyOnePlace | libs_src/mimalloc/src/alloc.c:351-432 | In every interleaving each block of a page is in exactly one place: with the program, on one of `free`, `local_free`, `thread_free`, a delayed list, a drained or detached list, or in the hands of one freeing thread. |
| ThreadFreeRuns.Accounting | libs_src/mimalloc/src/page.c:72-104 | Always `used + len(free) + len(local_free) == capacity`, and `used` is the number of blocks on neither local list. |
| ThreadFreeRuns.FlagSafety | libs_src/mimalloc/src/page.c:126-146 | DELAYED_FREEING is held by exactly one thread and the heap it pushes to is still there; NO_DELAYED means a block of the page is still pending on the delayed path; a page with `used == 0` is in neither of these and no thread looks at it; after NEVER-then-drain no delayed block refers to an abandoned page. |
| ThreadFreeFlag.PagesOpen | libs_src/mimalloc/src/page.c:126-146 | In every reachable state the flag of a page of a running heap is not NEVER, unless the heap's thread is inside the operation that overrides it as it takes the page over; a heap being given up has set to NEVER only pages it has marked. |
| ThreadFreeFlag.FlagReturns | libs_src/mimalloc/src/page.c:126-146 | In every interleaving an operation on a flag that returns leaves the flag as asked for, or at NEVER where it must not override that. |
| ThreadFreeAlone.RemoteFree | libs_src/mimalloc/src/alloc.c:351-406 | Run alone, a free by another thread puts the block first on the thread-free list of its page; exactly where the flag asks for it the block goes first on the delayed list of the page's heap, and the flag becomes NO_DELAYED. |
| ThreadFreeAlone.FreeEnds | libs_src/mimalloc/src/alloc.c:351-406 | From any reachable state, whatever the others were doing, a thread that frees a block comes to the end once it is left alone. |
| ThreadFreeAlone.CollectAlone | libs_src/mimalloc/src/page.c:156-190 | Run alone, a collection moves the whole thread-free list to the front of the local one, and lowers `used` by its length. |
| ThreadFreeOwners.FlagAlone | libs_src/mimalloc/src/page.c:126-146 | Run alone, the operation sets the flag, unless it is NEVER and not to be overridden. |
| ThreadFreeOwners.GatheredFacts | libs_src/mimalloc/src/page.c:192-223 | Run alone, collecting a page empties its thread-free list into the local one, and turns that into the free list where this is empty, or by force; `used` goes down by the blocks of other threads. |
| ThreadFreeOwners.AdoptAlone | libs_src/mimalloc/src/segment.c:1293-1353 | Run alone, taking over an abandoned page leaves it in the thread's heap with delayed frees on again. |
| ThreadFreeOwners.DrainAlone | libs_src/mimalloc/src/page.c:275-296 | Run alone, a heap drains its delayed list: it is empty afterwards, every block on it is on a list of its page, and each page is as settling its flag, collecting it and freeing the block leaves it, block by block. |
| ThreadFreeOwners.PageGets | libs_src/mimalloc/src/alloc.c:516-536 | After a drain a page uses as many blocks fewer as it had on the delayed and its thread-free list together, and its flag is USE_DELAYED unless it was NEVER; a page without a block on the list stays as it is. |
| ThreadFreeOwners.ComesBack | libs_src/mimalloc/src/alloc.c:351-406 | A block freed by another thread over the delayed list is on a list of its page after the heap's next drain, with delayed frees on again. |
| ThreadFreeOwners.CanAllocate | libs_src/mimalloc/src/page.c:192-223 | A page with a block on any of its lists, or room for more blocks, gives its owner one that was not with the program before. |
| ThreadFreeOwners.LocalFreeAlone | libs_src/mimalloc/src/alloc.c:409-432 | A block freed by the owner of its page is first on the local list at once. |
| ThreadFreeOwners.PageAlone | libs_src/mimalloc/src/page.c:245-258 | A thread can take a new page into its heap, empty and with delayed frees on, and give back a page of which no block is in use. |
| ThreadFreeOwners.OwnerEnds | libs_src/mimalloc/src/page.c:126-190 | From any reachable state an owner that is left alone ends its operation, unless another thread is in the middle of a delayed free into the page. |
| ThreadFreeAbandon.AbandonAlone | libs_src/mimalloc/src/heap.c:88-174 | Run alone, a thread that ends gives its heap up: every block on the delayed list is back in its page, exactly the pages of which no block is in use after collecting are given back, and all others have neither heap nor owner, a NEVER flag and their lists collected. |
| ThreadFreeRuns.SpinCanEnd | libs_src/mimalloc/src/page.c:126-146 | While an owner spins on DELAYED_FREEING the one thread that holds the flag can take its next step. |
| ThreadFreeRuns.FindTail | libs_src/mimalloc/src/page.c:168-189 | The walk over a detached list ends at its real tail with its exact length. |
| ThreadFreeRuns.DetachedFits | libs_src/mimalloc/src/page.c:175-181 | In every reachable state a detached list fits the page, so the corrupted-list branch is dead and `used` never goes below zero. |
| ThreadFreeRuns.PackedSetters | libs_src/mimalloc/include/mimalloc-internal.h:534-548 | Each setter of the packed word changes its own part and keeps the other. |
| ThreadFreeRuns.UnpackedWord | libs_src/mimalloc/include/mimalloc-internal.h:534-542 | Comparing packed words is comparing head and flag: packing the parts of a word gives it back. |
| Segments.TableTiles | libs_src/mimalloc/src/segment.c:255-303 | In every state between operations the spans of a segment tile its slices: each slice is in exactly one span, inside its segment. |
| Segments.BackOffsets | libs_src/mimalloc/src/segment.c:678-722 | The last slice of every span, and the first 16 of every page, lead back to the head. |
| Segments.UsedSpans | libs_src/mimalloc/src/segment.c:255-303 | The used spans of a segment number `used + 1`. |
| Segments.FreeSpans | libs_src/mimalloc/src/segment.c:623-662 | A free span is in the queue of its own size exactly when its segment belongs to this thread, and has no free neighbour. |
| Segments.PageMemory | libs_src/mimalloc/src/segment.c:408-570 | Every slice of a live page is committed and not scheduled for decommit; the decommit mask is part of the commit mask. |
| Segments.SpanTable.PageOf | libs_src/mimalloc/include/mimalloc-internal.h:454-473 | Any address in the first 16 slices of a page leads to that page. |
| Segments.SpanTable.SpanFree | libs_src/mimalloc/src/segment.c:578-603 | Freeing a span marks its ends, files it first in the queue of its size when the segment is owned, and keeps the invariant. Where decommitting is allowed, exactly the slices of the span that were committed wait to be decommitted afterwards, or all of the span is decommitted at once with eager decommit; no other slice changes in either mask. |
| Segments.SpanTable.SpanFreeCoalesce | libs_src/mimalloc/src/segment.c:623-662 | A freed span joins its free neighbours on both sides, which leave their queues; exactly the slices of the joined span are released, nothing else moves. |
| Segments.SpanTable.SliceSplit | libs_src/mimalloc/src/segment.c:665-675 | Splitting keeps the head and files the rest as a free span, of which exactly the slices are released. |
| Segments.SpanTable.EnsureCommitted | libs_src/mimalloc/src/segment.c:408-512 | Commit works on whole 2 MiB blocks clipped to the segment; it fails exactly when something is missing and the system refuses, with the masks as before. |
| Segments.SpanTable.SpanAllocate | libs_src/mimalloc/src/segment.c:678-722 | A taken span becomes a committed page with all its back offsets; a commit failure changes nothing. |
| Segments.SpanTable.AllocateFrom | libs_src/mimalloc/src/segment.c:724-752 | Taking a queued span, cutting it and allocating succeeds exactly when the system commits or what the page needs is still committed once the rest was freed; otherwise the free spans and queues are as before. Both masks are stated exactly in either case. |
| Segments.SpanTable.FindAndAllocate | libs_src/mimalloc/src/segment.c:724-752 | The span tried is the first fitting one of the lowest bin that holds one, and there is one exactly when any queued span fits; the result is that span, cut to size, exactly when it can be committed. Otherwise spans and queues stay as they are, and what the span had committed is released. |
| Segments.SpanTable.PageClear | libs_src/mimalloc/src/segment.c:952-982 | Clearing a page turns exactly its slices free and lowers `used` by one, also in abandoned segments; exactly the slices of the free span it becomes part of are released. |
| Segments.SpanTable.ClearThenDecommit | libs_src/mimalloc/src/segment.c:549-570 | When what waits in the segment of a cleared page has been decommitted, no slice of the page is committed or waits any more, where decommitting is allowed; otherwise both masks are as before. |
| Segments.SpanTable.PageFree | libs_src/mimalloc/src/segment.c:984-1003 | Freeing the last page gives the segment back; otherwise the page is cleared; a segment whose other pages are abandoned is abandoned, and its decommit may then fall due. Both masks are stated exactly. |
| Segments.SpanTable.SegmentFree | libs_src/mimalloc/src/segment.c:915-942 | A segment without pages has exactly the info span and one free span, which leaves its queue; both masks stay. |
| Segments.SpanTable.SegmentAbandon | libs_src/mimalloc/src/segment.c:1184-1214 | Abandoning takes exactly the free spans of the segment out of the queues and keeps the spans; a decommit that is due takes exactly what waits in the segment out of both masks. |
| Segments.SpanTable.PageAbandon | libs_src/mimalloc/src/segment.c:1216-1231 | The segment is abandoned exactly when its last page is, and only then may its decommit fall due. |
| Segments.SpanTable.CheckFree | libs_src/mimalloc/src/segment.c:1246-1289 | The check loop ends although coalescing moves its cursor, frees exactly the all-free pages and releases exactly their slices and those of their free neighbours, and answers true exactly when the segment then has room or a page with a free block of the size. |
| Segments.SpanTable.Reclaim | libs_src/mimalloc/src/segment.c:1293-1353 | The reclaim loop ends, frees exactly the all-free pages, files every free span and releases exactly the slices free afterwards; the segment is kept exactly when a page remains. |
| Segments.SpanTable.DelayedDecommit | libs_src/mimalloc/src/segment.c:549-570 | A delayed decommit of one segment takes exactly its scheduled slices out of both masks when it is due, and nothing otherwise. |
| Segments.SpanTable.SegmentInit | libs_src/mimalloc/src/segment.c:760-906 | Setting up a segment succeeds exactly when the system commits or the whole 2 MiB around the info slices is committed already; the comment that it cannot fail is wrong. Both masks and the segment record are stated exactly. |
| Segments.SpanTable.QueuePush | libs_src/mimalloc/src/segment.c:207-216 | A span becomes the first of the queue, all queues staying doubly linked lists. |
| Segments.SpanTable.QueueDelete | libs_src/mimalloc/src/segment.c:225-235 | A span leaves the queue it is in, and all others stay in order; deleting one that is in no queue keeps all queues. |
| SpanMap.Tiling | libs_src/mimalloc/src/segment.c:255-303 | In a tiled segment each slice has one span, which ends inside the segment. |
| SpanMap.CoalescedTiled | libs_src/mimalloc/src/segment.c:623-662 | Coalescing keeps the tiling. |
| SpanMap.CoalescedSlices | libs_src/mimalloc/src/segment.c:623-662 | Coalescing frees exactly the slices of the span it is given. |
| SpanMap.CoalescedApart | libs_src/mimalloc/src/segment.c:623-662 | After coalescing no two free spans are neighbours. |
| SpanMap.CutCoalesced | libs_src/mimalloc/src/segment.c:623-675 | Splitting a free span and freeing the part taken restores the spans. |
| SpanCore.MaskInSegment | libs_src/mimalloc/src/segment.c:408-456 | A liberal commit mask covers the span and stays in the segment. |
| SpanCore.InfoBlocks | libs_src/mimalloc/src/segment.c:408-456 | Committing the info slices of a segment touches these slices alone exactly when they are whole 2 MiB blocks. |
| SpanCore.InfoExample | libs_src/mimalloc/src/segment.c:884-887 | A fresh segment with one info slice committed: 31 more slices have to be. |
| SliceBins.BinRange | libs_src/mimalloc/src/segment.c:177-193 | The bin of a slice count has room for it and is the smallest such bin. |
| SliceBins.BinMonotone | libs_src/mimalloc/src/segment.c:177-193 | Larger counts have no smaller bins. |
| CommitMask.Create | libs_src/mimalloc/src/segment.c:55-80 | The mask words are exactly the bits of the range, across 64-bit fields. |
| CommitMask.RangeValue | libs_src/mimalloc/src/segment.c:55-80 | The words of such a mask are the numbers `((1 << count) - 1) << ofs` of their part of the range. |
| CommitMask.AllSet | libs_src/mimalloc/src/segment.c:23-28 | All-set is set inclusion. |
| CommitMask.AnySet | libs_src/mimalloc/src/segment.c:30-35 | Any-set is a common bit. |
| CommitMask.CreateIntersect | libs_src/mimalloc/src/segment.c:37-41 | Intersection of the bit sets. |
| CommitMask.Clear | libs_src/mimalloc/src/segment.c:43-47 | The bits of the second mask go out of the first, all others stay. |
| CommitMask.Set | libs_src/mimalloc/src/segment.c:49-53 | Union of the bit sets. |
| CommitMask.CommittedSize | libs_src/mimalloc/src/segment.c:82-98 | The committed size is the unit size times the number of set bits. |
| CommitMask.NextRun | libs_src/mimalloc/src/segment.c:101-144 | From the index on, the next maximal run of set bits, crossing fields; none exactly when no bit is left. |
| CommitMask.ForEach | libs_src/mimalloc/include/mimalloc-internal.h:738-744 | The iteration ends and visits exactly the set bits, as maximal increasing runs whose lengths add up to their number. |
| CommitMask.DelayedDecommit | libs_src/mimalloc/src/segment.c:549-570 | Decommitting run by run removes exactly the scheduled bits from the commit mask and empties the schedule. |
| CommitMask.IsFull | libs_src/mimalloc/include/mimalloc-internal.h:727-732 | Full means all bits. |
| CommitMask.IsEmpty | libs_src/mimalloc/include/mimalloc-internal.h:720-725 | Empty means no bit. |
| AbandonedInv.StepInv | libs_src/mimalloc/src/segment.c:1065-1178 | Every atomic step of push, pop, visited push, revisit and awaiting readers keeps the invariant. |
| AbandonedInv.RunInv | libs_src/mimalloc/src/segment.c:1065-1178 | The invariant holds after any schedule. |
| AbandonedInv.OnePlace | libs_src/mimalloc/src/segment.c:1065-1178 | The known segments stay the same, and each is on the abandoned list, on the visited list, on one detached batch, owned by one thread or unmapped; it occurs once and no list is a cycle. |
| AbandonedInv.ReadersSafe | libs_src/mimalloc/src/segment.c:1138-1178 | A pop that is about to read `abandoned_next` reads mapped memory, and never of a segment whose remover has finished awaiting the readers. |
| AbandonedInv.PopTakesFirst | libs_src/mimalloc/src/segment.c:1147-1178 | A successful pop takes the first segment and leaves the rest, whatever happened since it looked (no ABA). |
| AbandonedAlone.PopAnswers | libs_src/mimalloc/src/segment.c:1147-1178 | In every interleaving a pop that is over has brought its thread a segment that was first on the abandoned list when it took it, with a null link; or it found that list empty while it ran, and where it gave up without a revisit it found the visited list empty as well. |
| AbandonedAlone.PopAlone | libs_src/mimalloc/src/segment.c:1147-1178 | Run alone, a pop takes the first abandoned segment; where there is none it moves the visited ones back and takes the first of those; it comes back empty-handed, with nothing changed, exactly where there is neither. |
| AbandonedAlone.RevisitAlone | libs_src/mimalloc/src/segment.c:1078-1120 | Run alone, a revisit puts the visited list in front of the abandoned one, in order. |
| AbandonedAlone.PushAlone | libs_src/mimalloc/src/segment.c:1065-1134 | Run alone, a push puts its segment in front of the abandoned, or the visited, list. |
| AbandonedAlone.AwaitAlone | libs_src/mimalloc/src/segment.c:1138-1144 | Memory of a segment goes away at once where nobody reads, and waits otherwise. |
| AbandonedAlone.Returned | libs_src/mimalloc/src/segment.c:1065-1178 | In every interleaving the step that ends a push leaves its segment first on the list, the one that ends a revisit the detached list in front of the abandoned one, and one that gives up has found the visited list empty and changes nothing. |
| AbandonedAlone.Ends | libs_src/mimalloc/src/segment.c:1065-1178 | From any reachable state a push, pop or revisit ends once its thread runs undisturbed, and so does awaiting the readers when none is left. |
| AbandonedInv.PushedClean | libs_src/mimalloc/src/segment.c:1122-1134 | A segment in the hands of a thread has a null link, as a push asserts. |
| Bitmap.IndexRoundTrip | libs_src/mimalloc/src/bitmap.h:38-56 | Field and bit of an index lead back to it, and the reverse. |
| Bitmap.MaskValue | libs_src/mimalloc/src/bitmap.c:29-35 | The mask is the number `((1 << count) - 1) << bitidx`, in the special cases too. |
| Bitmap.SkipAhead | libs_src/mimalloc/src/bitmap.c:44-95 | The skip-ahead shift never jumps over a fitting run. |
| Bitmap.TryFindClaimField | libs_src/mimalloc/src/bitmap.c:44-95 | The lowest fitting run of a field is set, and nothing else; false exactly when none fits. |
| Bitmap.TryFindFromClaim | libs_src/mimalloc/src/bitmap.c:100-109 | The lowest fitting run of the first field, going round from the start, that has one is set, and nothing else; false exactly when no field has one. |
| Bitmap.EarliestCrossing | libs_src/mimalloc/src/bitmap.c:174-200 | If any run crosses out of a field, so does the one that starts with the zeros at its end. |
| Bitmap.TryFindClaimFieldAcross | libs_src/mimalloc/src/bitmap.c:174-257 | Claims the run that begins with the zeros at the end of the field, or the lowest fit inside it where these are enough, and nothing else; false only when no run crosses out of the field. |
| Bitmap.TryFindFromClaimAcross | libs_src/mimalloc/src/bitmap.c:262-280 | Without interference it succeeds exactly when the bitmap holds a run of `count` zero bits, and sets exactly such a run, in the first field, going round, from which one can begin. |
| Bitmap.MaskAcross | libs_src/mimalloc/src/bitmap.c:283-305 | The first, middle and last masks cover exactly the range. |
| Bitmap.UnclaimAcross | libs_src/mimalloc/src/bitmap.c:309-328 | Clears exactly the range; true exactly when all its bits were set. |
| Bitmap.ClaimAcross | libs_src/mimalloc/src/bitmap.c:332-356 | Sets exactly the range; reports whether all or some of its bits were clear. |
| Bitmap.IsClaimedAcross | libs_src/mimalloc/src/bitmap.c:361-385 | All or any bits of the range are set. |
| Bitmap.ClaimInField | libs_src/mimalloc/src/bitmap.c:134-143 | Sets exactly the range in its field. |
| Bitmap.ClaimThenUnclaim | libs_src/mimalloc/src/bitmap.c:262-328 | Unclaiming a claimed run returns true and restores the bitmap. |
| Bitmap.ClearAfterSet | libs_src/mimalloc/src/bitmap.c:309-356 | Clearing a range that was clear before it was set gives the bitmap back. |
| BitmapSharedInv.StepInv | libs_src/mimalloc/src/bitmap.c:44-257 | With any number of threads, CAS failures and rollbacks, every step keeps: a bit is set exactly when it has an owner, and a thread inside a claim owns exactly the part it has set. |
| BitmapSharedInv.OneOwner | libs_src/mimalloc/src/bitmap.c:174-257 | In every reachable state each set bit has one owner, and a claim that has failed owns no bit. |
| BitmapSharedInv.ClaimTakesFree | libs_src/mimalloc/src/bitmap.c:44-95 | A successful claim in a field takes bits nobody owned, and owns them all. |
| BitmapSharedInv.AcrossTakesFree | libs_src/mimalloc/src/bitmap.c:174-257 | A successful claim across fields ends with the whole range, of bits that were its own attempt or nobody's. |
| BitmapSharedInv.UnclaimFindsAll | libs_src/mimalloc/src/bitmap.c:309-328 | An owner that unclaims its range finds every bit set. |
| BitmapAlone.UnclaimClears | libs_src/mimalloc/src/bitmap.c:309-328 | In every interleaving, when an unclaim has come to its end its thread has itself given back each bit of the range, set until then. |
| BitmapAlone.UnclaimAlone | libs_src/mimalloc/src/bitmap.c:309-328 | Run alone, an unclaim clears exactly its range and nothing else is different afterwards. |
| BitmapAlone.FieldAlone | libs_src/mimalloc/src/bitmap.c:44-95 | Run alone, a claim in a field takes the lowest fit, and changes nothing if there is none. |
| BitmapAlone.AcrossAlone | libs_src/mimalloc/src/bitmap.c:174-257 | Run alone, a claim across fields takes the run that begins with the zeros at the end of its field if all of it is clear, or the lowest fit in the field where these are enough, and changes nothing otherwise. |
| BitmapAlone.GivesUp | libs_src/mimalloc/src/bitmap.c:44-257 | In every interleaving a claim that comes back empty-handed has seen a field without a fit, or no run out of its field, or a set bit in its run, or has lost to other threads five times. |
| BitmapAlone.Ends | libs_src/mimalloc/src/bitmap.c:44-328 | From any reachable state a claim, rollbacks included, or unclaim ends once its thread runs undisturbed. |
| BitmapSharedInv.RollbackOwnsField | libs_src/mimalloc/src/bitmap.c:236-256 | The plain store in the rollback is safe: the thread owns the whole field. |
| BitmapSharedInv.LeftoverStays | libs_src/mimalloc/src/arena.c:329-336 | Bits claimed at setup past the last block are never claimed by a thread. |
| Arena.IdRoundTrip | libs_src/mimalloc/src/arena.c:74-95 | Memory ids decode to their block and arena; none of a real arena is the id of system memory. |
| Arena.MemoryArena.constructor | libs_src/mimalloc/src/arena.c:298-340 | A new arena has all its blocks free and the bits past the last one claimed; large memory counts as committed. |
| Arena.MemoryArena.ManageOsMemory | libs_src/mimalloc/src/arena.c:298-340 | An arena is set up exactly when there is memory for a block. |
| Arena.RunFree | libs_src/mimalloc/src/arena.c:104-112 | A run of clear bits is a range of existing blocks that overlaps no live allocation. |
| Arena.MemoryArena.AllocFrom | libs_src/mimalloc/src/arena.c:119-150 | Allocations never overlap and stay inside the arena; nothing is returned exactly when no free range is long enough. What is committed, and whether the memory is zero, is stated exactly. |
| Arena.MemoryArena.Free | libs_src/mimalloc/src/arena.c:234-278 | Freeing a live allocation removes just it; its bits are all found set. |
| ArenaRuns.AllocationsApart | libs_src/mimalloc/src/arena.c:104-278 | In every interleaving of allocations, frees and hand-overs, in whole or in part, by any number of threads, the live allocations lie inside the arena, are held whole by their owners, and overlap neither each other nor what is still being given back. |
| ArenaRuns.NothingLost | libs_src/mimalloc/src/arena.c:104-278 | In every interleaving that begins with no block held, a block is held by a thread exactly when it is part of a live allocation of that thread or of what the thread is still giving back; so no block stays taken after its allocation was freed. |
| ArenaRuns.ClaimApart | libs_src/mimalloc/src/arena.c:104-112 | A claim that succeeds gets existing blocks that no live allocation has, whatever other threads do. |
| ArenaRuns.HeldStays | libs_src/mimalloc/src/bitmap.c:60-356 | No step takes a bit from its holder but the holder's own giving it back or away. |
| SegmentCache.StepInv | libs_src/mimalloc/src/segment-cache.c:43-215 | Every atomic step of push, pop and purge keeps the slot protocol. |
| SegmentCache.RunInv | libs_src/mimalloc/src/segment-cache.c:43-215 | The invariant holds after any schedule. |
| SegmentCache.SlotExclusive | libs_src/mimalloc/src/segment-cache.c:43-215 | A slot is accessed by at most one of push, pop and purge at a time, and a slot free in `cache_inuse` is never available. |
| SegmentCache.PopTakesOwn | libs_src/mimalloc/src/segment-cache.c:43-90 | A pop gets a segment that rests in that slot alone, with a commit mask that says what is committed; so each push is popped at most once. |
| SegmentCacheAlone.PopAlone | libs_src/mimalloc/src/segment-cache.c:43-90 | Run alone, a pop at a slot with an ordinary segment, or with a large one when large pages will do, gets that segment and leaves the slot free; at any other slot it gets nothing. |
| SegmentCacheAlone.PopFinds | libs_src/mimalloc/src/segment-cache.c:62-72 | A pop comes back empty-handed exactly from a cache without a segment it may have. |
| SegmentCacheAlone.PushAlone | libs_src/mimalloc/src/segment-cache.c:158-215 | Run alone, a push puts its segment in a free slot, on the side of the large ones or the others; its expire time is set, or it is decommitted at once without a delay, exactly where it has something committed, is neither large nor pinned, and decommitting is allowed. |
| SegmentCacheAlone.PushFinds | libs_src/mimalloc/src/segment-cache.c:178-181 | A push fails exactly when all slots are in use. |
| SegmentCacheAlone.PushedThenPopped | libs_src/mimalloc/src/segment-cache.c:43-215 | What one thread has pushed another gets by a pop at the slot: an ordinary segment in either case, a large one exactly when large pages will do. |
| SegmentCacheAlone.PurgeAlone | libs_src/mimalloc/src/segment-cache.c:118-152 | Run alone, a purge decommits the segment of a slot exactly when it is available and has expired, and leaves the slot as it was otherwise. |
| SegmentCacheAlone.Ends | libs_src/mimalloc/src/segment-cache.c:43-215 | From any reachable state an operation ends within five steps of its thread. |
| SegmentCache.PurgeOnlyResting | libs_src/mimalloc/src/segment-cache.c:118-152 | A purge decommits only a segment at rest, never one a popper holds. |
| PageBins.LargeRange | libs_src/mimalloc/src/page-queue.c:58-93 | Above eight words a size is at most the block size of its bin and more than that of the bin before. |
| PageBins.BinInterval | libs_src/mimalloc/src/page-queue.c:58-93 | The sizes of a used bin are exactly those after the previous used bin up to its own block size. |
| PageBins.GoodSize | libs_src/mimalloc/src/page-queue.c:110-117 | The good size is enough, is its own good size, and is the largest size of its bin. |
| PageQueue.Heap.FirstUpdate | libs_src/mimalloc/src/page-queue.c:163-198 | After the head of one queue changed, the direct table is brought to agree with all queues again. |
| PageQueue.DirectLookup | libs_src/mimalloc/src/page-queue.c:158-198 | For every size up to 128 words the direct entry is the first page of the queue of its bin, or the empty page; that page has blocks of the bin and is not full. |
| PageQueue.Heap.Push | libs_src/mimalloc/src/page-queue.c:229-254 | The page becomes the first of the queue and in the full queue is marked so; all other pages stay as they are, and lists, direct table and `page_count` stay right. |
| PageQueue.Heap.Remove | libs_src/mimalloc/src/page-queue.c:206-226 | The page leaves its queue, is in none and no longer marked full; all other pages but for links stay as they are, and lists, direct table and `page_count` stay right. |
| PageQueue.Heap.EnqueueFrom | libs_src/mimalloc/src/page-queue.c:257-293 | The page moves to the end of the other queue, marked full exactly if that is the full one, with the same invariants; no other page changes but for links. |
| PageQueue.Heap.Append | libs_src/mimalloc/src/page-queue.c:296-331 | The pages of the other heap follow those of this one, all with the new owner, and are counted. |
| PageQueue.AppendLists | libs_src/mimalloc/src/page-queue.c:296-331 | Joining the queues of two heaps end to end gives a doubly linked list of pages of this heap, and touches no other page. |
| PageQueue.Heap.Absorb | libs_src/mimalloc/src/heap.c:348-379 | Each queue becomes its own pages followed by the absorbed ones, `page_count` adds up, and the other heap is empty and valid. |
| PageQueue.TotalUpdate | libs_src/mimalloc/src/page-queue.c:206-254 | The total length changes by that of the one queue that changed. |
| DList.Remove | libs_src/mimalloc/src/page-queue.c:206-226 | Unlinking any element of a doubly linked list leaves the list without it. |
| DList.Join | libs_src/mimalloc/src/page-queue.c:317-330 | Two disjoint lists joined at their ends are one list. |
| FreeList.Page.Thread | libs_src/mimalloc/src/page.c:473-513 | For any random numbers the slots are threaded into one chain that takes each new block exactly once; all other links stay. |
| FreeList.Probe | libs_src/mimalloc/src/page.c:500-505 | The slot search ends at the first slot, going round, that has a block left. |
| FreeList.SomeLeft | libs_src/mimalloc/src/page.c:496-505 | While blocks remain some slot is not used up, so the search ends. |
| FreeList.TakeNext | libs_src/mimalloc/src/page.c:506-512 | The next block is new, in the range, and the bookkeeping of slots still describes exactly the blocks taken. |
| FreeList.Page.ExtendSecure | libs_src/mimalloc/src/page.c:463-518 | The free list is each of the new blocks once, in some order, and then the old list. |
| FreeList.Page.ExtendSequential | libs_src/mimalloc/src/page.c:520-544 | The free list is the new blocks in order and then the old list. |
| FreeList.BuildersAgree | libs_src/mimalloc/src/page.c:463-544 | Both builders give the same blocks. |
| FreeList.Page.Extend | libs_src/mimalloc/src/page.c:562-610 | Extension adds at least one block while there are any, at most up to one system page of them without security, keeps `used + len(free) + len(local_free) == capacity` and leaves the local list alone. |
| FreeList.NewBlocksFill | libs_src/mimalloc/src/page.c:577-589 | Extension takes as many blocks as fit in one system page, where there are more. |
| EncodedLinks.LinkRoundTrip | libs_src/mimalloc/include/mimalloc-internal.h:641-658 | A link encoded under the page keys decodes to itself, except the page address that stands for null. |
| Graph.WeightedGraph.ShortestPath | libs_src/data_structures/graph.h:294-322 | All rounds select a vertex exactly when every vertex is reachable, and then each entry is the minimum weight over all paths from the source. |
| Graph.LeavesFrontier | libs_src/data_structures/graph.h:306-316 | Every path out of the settled vertices costs at least the best frontier distance. |
| Graph.Select | libs_src/data_structures/graph.h:306-316 | The nearest vertex not yet settled has its final distance. |
| Graph.Advance | libs_src/data_structures/graph.h:317-320 | Relaxing its edges keeps the frontier right. |
| SpanningTree.MsTree.MinimalSpanning | libs_src/data_structures/graph.h:397-429 | All rounds find an edge exactly when the graph is connected, and then the parent links form a spanning tree rooted at the source, of least weight among all spanning trees. |
| SpanningTree.Exchange | libs_src/data_structures/graph.h:412-428 | Any spanning tree with the edges chosen so far can be changed to hold the lightest outgoing edge too, without more weight. |
| SpanningTree.PromiseStep | libs_src/data_structures/graph.h:412-428 | So the chosen edges always extend to a lightest spanning tree. |
| SpanningTree.TreeMinimal | libs_src/data_structures/graph.h:397-429 | At the end they are one. |
| SpanningTree.MsTree.TreeWeight | libs_src/data_structures/graph.h:431-448 | The printed total is the weight of the tree. |
| Search.BinarySearch | libs_src/vcmalloc.h:28-62 | Finds an address exactly when it is in the sorted array; reads outside the array exactly when there are three or more entries and the address is below the first. |
| Search.BelowExample | libs_src/vcmalloc.h:28-62 | Three sorted addresses and one below them: the search leaves the array. |
| Search.Msb | libs_src/vcmalloc.h:18-24 | The largest power of two not above n, or 0. |
| Containers.Position | libs_src/vcmalloc.h:171-178 | The frame position of a container is the number of page boundaries before it; for the end, the rounded-up total of bytes. |
| Containers.CountIndex | libs_src/vcmalloc.h:70-100 | The pages of a container are the boundaries it crosses; its size is its pages, plus the free bytes before, less the guest bytes. |
| Containers.EnoughPages | libs_src/vcmalloc.h:374-382 | The requested pages hold the requested bytes, and one page fewer would not. |
| Containers.AllocPages | libs_src/vcmalloc.h:329-353 | The frames asked for a new container are those it reaches into beyond the shared page. |
| Containers.ResizedPacked | libs_src/vcmalloc.h:418-423 | After a resize containers stay end to end exactly if the new elements fill the new bytes, or none follows. |
| Containers.WholeElements | libs_src/vcmalloc.h:418-418 | That is so exactly if the bytes added or removed are a multiple of the element size. |
| Containers.CountAfter | libs_src/vcmalloc.h:418-418 | A container given so many pages counts as many afterwards exactly when its guest bytes and the bytes left over by whole elements are less than a page together. |
| Containers.CountExample | libs_src/vcmalloc.h:374-418 | 683 elements of 12 bytes resized to 1024: four pages are asked for and given, three are counted. |
| Frames.ViewCopy | libs_src/vcmalloc.h:393-397 | Copying guest bytes between the ends of two pages changes just these bytes of the view. |
| Remap.GapExample | libs_src/vcmalloc.h:374-423 | Containers of 12-byte elements, the first resized to two elements, that do not stay end to end. |
| Remap.ResizeKeeps | libs_src/vcmalloc.h:374-473 | Every other container keeps all its bytes at its new address, and the resized one the first bytes of the smaller of its two sizes. |
| Remap.ResizeDone | libs_src/vcmalloc.h:374-473 | A resize gives at least the size asked for and keeps all bytes; containers stay end to end exactly when the pages are whole elements or none follows, and count the frames there are exactly when the resized one counts its pages. |
| Remap.TargetCount | libs_src/vcmalloc.h:418-427 | `pfns_num_` is the sum of the page counts after a resize exactly when the resized container counts the pages it was given. |
| Remap.PlacedAfter | libs_src/vcmalloc.h:418-427 | Counting pages still finds the frames of a container behind the resized one exactly when that counts the pages it was given; those before it are found as they were. |
| Remap.DropView | libs_src/vcmalloc.h:399-415 | Freeing frames and closing the gap cuts exactly their pages out of the view, and no frame is kept twice or lost. |
| Remap.AddView | libs_src/vcmalloc.h:436-453 | New frames come into the view at their place, all others keeping their bytes. |
| Remap.RecordLost | libs_src/vcmalloc.h:436-447 | Where growing fails, the frames that came are written over the shifted record. It still is that of the mapping exactly if no frame on record was behind the container, or none came and the shift moved none onto another. |
| Remap.RecordExample | libs_src/vcmalloc.h:436-447 | A record of four frames that loses the last to the shift, and one of three that has its second written over by a frame that came alone. |
| Remap.GrantLost | libs_src/vcmalloc.h:444-447 | The frames of an incomplete allocation belong to the process and are mapped nowhere; none is lost exactly when none came. |
| Vcmalloc.HyperContainer.GetPFNsPosition | libs_src/vcmalloc.h:171-178 | The loop sums the pages of the containers before. |
| Vcmalloc.HyperContainer.AssertPfnsStorage | libs_src/vcmalloc.h:138-154 | The storage grows to hold the frames and keeps those it had; what the new places hold is left open. |
| Vcmalloc.HyperContainer.AllocateFrames | libs_src/vcmalloc.h:444-447 | As many frames as the system has left, up to those asked for, are written to the record. |
| Vcmalloc.HyperContainer.ContainerAlloc | libs_src/vcmalloc.h:329-373 | With enough frames the new container follows the last one, `pfns_num_` is the sum of the pages and old bytes stay; with too few the container is on record, the frame count is wrong, the mapping and its record stay, and those frames that came are lost. |
| Vcmalloc.HyperContainer.ContainerRealloc | libs_src/vcmalloc.h:374-473 | In any state earlier resizes may leave, gaps and lost counts included, resizing a container whose frames are found keeps the meaning: other containers keep all bytes, the resized one its first bytes and gets the size asked for, and the state is again such a one. Where all invariants held, they hold afterwards exactly when it counts the pages it was given and they are whole elements or it is the last; after a failed growth exactly when no frame came and none on record was moved onto another. |
| Vcmalloc.HyperContainer.ValidUsable | libs_src/vcmalloc.h:171-178 | Where all invariants hold, the frames of every container are found, so that each can be resized, alone or with others. |
| Vcmalloc.HyperContainer.Shrink | libs_src/vcmalloc.h:389-429 | The shrinking half: bytes between the new and the old end are cut out, guests moved down. |
| Vcmalloc.HyperContainer.Grow | libs_src/vcmalloc.h:430-472 | The growing half: new bytes come in at the old end, guests moved up. With too few frames mapping and bytes stay, and the record is that of the mapping exactly under the condition of `Remap.RecordLost`. |
| FrameRuns.TwoPasses | libs_src/vcmalloc.h:496-690 | Runs of frames that one pass shortens and one lengthens begin with the frames they had exactly when the second pass keeps what the first left. |
| FrameRuns.FitFacts | libs_src/vcmalloc.h:543-690 | With the pages it is given a container has room for the elements asked for, and counts no more pages than these: just as many exactly under the condition of `Containers.CountAfter`, if their number changed. |
| Layout.FirstLeft | libs_src/vcmalloc.h:496-580 | The first pass keeps the frames before and behind in place, and what it takes out of the runs is just what is then missing on record. |
| Layout.SecondExactly | libs_src/vcmalloc.h:618-713 | The second pass adds just the frames it is to, exactly when those it does not read are the last on record again. |
| Layout.SplicedExactly | libs_src/vcmalloc.h:618-713 | Where no spare frame is on record, each run begins with the frames it had and those before and behind are in place, exactly when runs that count too few pages are behind those that get more and the frames not read are again the last, in order. |
| Layout.EndConserved | libs_src/vcmalloc.h:474-731 | After both passes each old frame is kept once or freed once and each new one inserted once, exactly when the last frames on record are those the second pass did not read. |
| Layout.EndSpliced | libs_src/vcmalloc.h:474-731 | After both passes the frames of each container, and those before and behind, are in place and order exactly when moreover containers that count too few pages are behind those that grow. |
| Layout.DistinctEnd | libs_src/vcmalloc.h:590-713 | In numbers, for distinct frames, no more of them asked for than are spare, and no more uncounted pages than frames behind: all frames are conserved exactly when no page kept is uncounted, or none is asked for, or all spare ones are and they are at least the uncounted, or fewer are asked for than are uncounted and these are as many as the spare ones. |
| Layout.TooFew | libs_src/vcmalloc.h:600-613 | Where too few frames come, exactly the spare ones and those that came are lost, and each container keeps its first frames in order. |
| Passes.CountsShort | libs_src/vcmalloc.h:543-580 | After the first pass a container counts at most the pages it keeps, and these themselves exactly when it is to grow or counts the pages it is given. |
| Passes.CountedFirst | libs_src/vcmalloc.h:505-580 | After the first pass the page counts add up to no more than the frames on record, and to just these exactly when the containers that lost pages count those they kept. |
| Passes.CountedEnd | libs_src/vcmalloc.h:474-731 | The page counts after both passes add up to no more than the frames on record, and to just these exactly when each container counts what it was given. |
| Passes.PackedEnd | libs_src/vcmalloc.h:496-695 | Containers end to end stay so exactly when the bytes each one leaves unfilled are the pages by which the next one is further astray: twice the pages added before it, unless it grows. |
| Passes.SmallElements | libs_src/vcmalloc.h:626-695 | Where elements are no larger than a page, that is so exactly when the pages are whole elements and both are equally far astray. |
| Passes.AlignedEnd | libs_src/vcmalloc.h:474-731 | When no container grows, or those that shrink count the pages they keep, all frames are conserved and in place. |
| Misread.FrameLost | libs_src/vcmalloc.h:474-731 | Three containers of 60-byte elements, the first of 205 to shrink to 68 and the second of 100 to grow to 120: the first keeps two pages and counts one, one frame is lost and another is on record twice. |
| Misread.FramesMixed | libs_src/vcmalloc.h:474-731 | The second to grow to 188 instead: all frames are on record, but that of the second container is behind the new ones. |
| Vcmalloc.HyperContainer.ContainerRealloc2 | libs_src/vcmalloc.h:474-731 | In any state earlier resizes may leave: every container has the elements the pages it is given hold and the address the passes compute; the frame record, those freed and those mapped are determined exactly. Frames are conserved, and are in place, exactly under the conditions of `Layout.EndConserved` and `Layout.EndSpliced`, among others when no container grows or those that shrink count what they keep. `pfns_num_` stays the sum of the page counts exactly when each resized container counts the pages it was given, and containers stay end to end exactly under the condition of `Passes.PackedEnd`. With too few frames, exactly the spare ones and those that came are lost. |

## Left out

- ContainerRealloc2: the bytes in the frames are not claimed. Its second pass copies guest bytes to the first new frame of a container, not the last (`vcmalloc.h:662-680`), so they are kept only in part. The first container is given by its index, not looked up by address.
- ContainerRealloc: of a container whose frames are not found by counting pages (`Remap.PlacedAfter` says when) nothing is claimed: the code then works on frames of others. A failing mapping call, which throws half-way, is not modelled; neither is wrap-around of 64-bit sizes, nor rounding of the double division above 2^53.
- ContainerAlloc: the limit of the reserved address range (a failing mapping call) is not modelled; growth of the container table is a sequence.
- BinarySearch: with no entries the C++ loop for the highest bit does not end, so at least one entry is required.
- ShortestPath: where the C++ code would read an unset vertex the method stops with `defined == false`; weights are reals with the largest double as a bound, without rounding. No weight is negative, and entries that are no edges are at the bound.
- MinimalSpanning: the same, where the C++ code would reuse or read unset the vertices of an earlier round; weights are symmetric.
- Absorb: the page queues of a heap joined to another; the delayed-free side of heap absorb and delete (two heaps of one thread) is not part of the protocol model.
- StepInv: sequentially consistent atomics; weak memory ordering is not modelled.
- SpinCanEnd: that the other thread is scheduled is not modelled, so the spin is shown to be able to end, not to end; the same goes for weak compare-and-swap loops elsewhere.
- PopTakesFirst: tags do not wrap around.
- DrainAlone: a heap waits for a thread that is in the middle of a delayed free into the page, as `mi_page_use_delayed_free` does; the reinsertion branch of `page.c:284-293` is dead, since `_mi_free_delayed_block` always returns true.
- SegmentCacheAlone.PushAlone: a push and a purge do not wait for readers of the abandoned list (`segment-cache.c:141` and `202`); memory ids, and whether a cached segment is pinned, are not kept in the slot. The random start of a purge and the start of a search that depends on the NUMA node are left open: each step names the slot it is about.
- SegmentInit: reclaim's and init's heap side (setting page heaps, moving pages to queues) is in other modules or left out; commit sets are sets of slices in module Segments, and module CommitMask proves the word operations against such sets.
- PageOf: slice entries are kept field by field and offsets count slices; the page's own `prev` and `next` links, which share storage with the span links, are separate fields (module PageQueue).
- SpanFree: a slice count of zero is not passed by the callers modelled, so its correction to one is not modelled.
- AllocFrom: a commit failure is ignored by the code as well; NUMA nodes and large-page preferences are not modelled.
- Extend: stored links are indices; that encoding them under the page keys loses nothing is shown apart (EncodedLinks). Random numbers are arbitrary.
- Huge segments and huge pages, guard pages, padding and canaries, aligned allocation, `mi_realloc` and the rest of the public API.
- Retired pages (`retire_expire`) and the search over page queues for a page with free blocks (page.c:392-450, 664-735).
- Operating-system calls: commit, decommit, mapping and frame allocation appear as success or failure inputs; clocks, statistics, options and messages are left out.
- The segment map and `_mi_segment_of` (segment-cache.c:220-359), and the approximate counters of abandoned segments.
- `HyperContainerFree`, `vccalloc` and the hypercontainer manager's tables, which repeat the table handling of one container.
- `random.c`, `region.c`, the linked lists, stacks, queues and the binary search tree, `libs_src/pcm`, the benchmark driver and the plotting script.
