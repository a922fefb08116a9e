# Verified models of the QEMU core

Dafny models of the stateful core of QEMU 2.0.0: overlapping block requests, the physical memory
map, live RAM migration, guest memory dumps, KVM memory slots and interrupt routes, the software
TLB, the event loop, instruction counting and the RAM block list.  Each model takes the form of
the code it describes: lists, bitmaps, tables and counters are fields that methods change in place,
coroutines are steps of a state machine, loops are loops.

`dafny verify dfyconfig.toml` checks the project.

## What is proved

**Block layer** (`BlockRequests`, `BlockLayer`).  Reads and writes of any alignment are tracked;
a write that does not cover whole blocks reads the missing head and tail, and requests that
would interfere wait for each other.  `BlockRequests` is the protocol as a state machine whose
steps may interleave in any way; `BlockLayer.BlockDevice` is the same in the imperative form of
the source, each method proved to be the corresponding step.  Over every run the disk is what
the writes that callers asked for, taken one after the other in the order of their transfers, make
of it, and a read sees exactly the writes transferred before it; every write that is begun is done
once, fails, or is still due; the assertions of the source that a request never waits twice hold;
there is no deadlock, and requests that have begun complete.

**Physical memory map** (`PhysMap`, `PhysCompact`, `PhysPageTable`, `PhysSections`,
`PhysDispatch`).  A six-level radix tree of 512-way nodes is filled by ranges, pages shared
between sections become subpages, and skip compression rewrites the tree in place.  A lookup
after any list of disjoint sections and the commit gives what a linear search of the list gives.
Building the table fails exactly if the list needs more than the 4096 section numbers there are,
and one range allocates at most 2·6−1 nodes.  After the commit no node that can be reached has a
single valid child: the limit on the levels an entry may skip is never met.

**Live migration** (`Words`, `Xbzrle`, `RamStream`, `RamSetup`, `RamLoader`, `DirtyBitmap`,
`RamSearch`, `RamPace`, `RamMigration`, `RamRun`, `RamLoss`).  From the bit tricks of the delta
codec and the bytes of the stream up to whole migrations with a guest that writes at any moment.  The
central law, that after completion the receiver has the guest's memory, has one exception, which is
stated exactly:

> `ram_save_block` looks for the next dirty page before it checks whether its round is complete
> (arch_init.c:552-556).  In the bulk stage the search starts behind the cursor.  If the cursor
> stands on the very last page, that page has become dirty again and nothing else is dirty, the
> round ends by clearing the bit of that page without sending it, and 0 is returned.  (The last
> block has at least two pages; on page 0 the search starts at the cursor.)

`RamSearch.Hazard` is this state.  A call forgets the page if and only if it begins there
(`RamMigration.Migration.SaveBlock`), and no call ends there, so a round or a completion forgets a
page if and only if it begins there (`Iterate`, `Complete`).  Over a whole run (`RamRun.Migrate`)
every other page agrees without exception with the guest's memory, which is the initial memory with the
guest's writes.  For the last page there is a condition on the operations
alone, whatever the guest does: `RamRun.MayForget` follows how many pages the bulk stage can have left.
If it does not hold, all pages agree (`RamRun.Migrate`); if it holds, some guest makes the receiver end
with a wrong last page (`RamLoss.Forget`, for rounds and for queries that synchronise).

A round takes as many pages as it has budget, with one exception: the first page of a block is sent
again if a synchronisation marks it while the cursor stands on it (arch_init.c:408).  So without a
synchronisation the condition is that the budgets add up to exactly the number of pages
(`RamRun.MayForgetExact`), but with one it is not: `RamLoss.ForgottenLater` forgets a page although its
budgets add up to 1 and to 3, never to 2.  `RamRun.StepOver` is the bound that holds in general.

**Dumps** (`ElfDump`, `KdumpFile`, `KdumpBitmap`, `Kdump`).  The file offsets in program headers
are where the bytes are written; in the kdump format a reader that replays the records, counts bits
and decodes the descriptor it finds there reads back every page.

**KVM** (`KvmSlots`, `KvmRoutes`).  The slots are a range map kept in a fixed array; setting a range
fails exactly if the pieces of slots outside it and the range itself are more than there are slots.
Of the interrupt routes, bitmap, routing table, hash table and the kernel's copy agree in every state, so
a raised line sends exactly its message.  `kvm_irqchip_release_virq` fills the place of a removed
entry with the last one without looking at it (kvm-all.c:1060-1066), so it need not remove all
routes of a line: `KvmRoutes.ReleaseClears` says exactly when it does, and it always does for
the lines of messages, the only lines that are allocated for callers.

**Event loop** (`EventLoop`).  Callbacks may do anything, including polling again.  Every bottom half
that was due is called or cancelled, every handler that was ready is called, changed or deleted, and
only deleted entries go away.  What `aio_poll` returns is said exactly by the callbacks that this poll
itself starts.  It is not true that a bottom half that is due and not idle makes for progress: another
callback may cancel it, or call it in a nested poll, before the walk comes to it; `EventLoop.Prompt` has
these two exceptions and no other.

**TLB, instruction counting, RAM blocks** (`SoftTlb`, `Icount`, `RamBlocks`).  See the table.

## How the models are set up

- Integers are unbounded; widths that matter (16-bit portions, 64-bit addresses, node and section
  numbers) are written out.
- The disk driver is an atomic store of aligned blocks; a failing transfer changes nothing.
- The guest, the rate limit, poll(2), compressors and callbacks are arbitrary: nondeterministic
  choices or parameters.
- Where the source calls `abort` or fails an assertion, the model returns a failure, and its contract
  says when that can happen.
- In `SoftTlb` an address is a page number with flags, and a mask of ones above k zeros is given by k.

## Model

| member | source | states |
|---|---|---|
| `BlockRequests.BlockerNone` | block.c:2359-2401 | the scan finds nobody to wait for exactly when every conflicting request is itself waiting |
| `BlockRequests.BlockerSome` | block.c:2367-2398 | the request found conflicts with the caller and is not waiting itself |
| `BlockRequests.EarlyExit` | block.c:2366-2368 | with no serialising request in flight the early exit gives what the full scan gives |
| `BlockRequests.WaitOutcome` | block.c:2359-2401 | a request ends its wait with no active conflicting request, or waits for an active one, so waiting chains have length one |
| `BlockRequests.MarkWindow` | block.c:2296-2309 | the widened window covers the padded range |
| `BlockRequests.OverlapsMeans` | block.c:2345-2357 | requests overlap exactly if their windows share a byte |
| `BlockRequests.PadBlocks` | block.c:3262-3327 | the head block starts the padded range, the tail block ends it, and both lie within |
| `BlockRequests.SplicedAt` | block.c:3289-3327 | the padded buffer has the caller's data in the middle and the disk's bytes around it |
| `BlockRequests.WriteExact` | block.c:3178-3227 | in every reachable state a transfer changes exactly the caller's bytes to the caller's data |
| `BlockRequests.PaddingUntouched` | block.c:3262-3327 | another request's transfer does not touch what a request has read as its padding |
| `BlockRequests.NoSecondWait` | block.c:3192-3195 | a request past its wait has nobody to wait for, so the assertions on the second wait hold |
| `BlockRequests.EnabledIsReady` | block.c:3178-3346 | whatever step may be taken finds its padding read and the counter of serialising requests positive where it counts down |
| `BlockRequests.BeginInv` | block.c:2275-2309 | beginning a request keeps the invariant: distinct requests, right counter, no two active requests in conflict, chains of length one, padding up to date |
| `BlockRequests.BeganWrite` | block.c:3229-3270 | a write is tracked with the caller's offset and data; it is serialising exactly if it needs padding, and then over the smallest aligned range |
| `BlockRequests.BeganRead` | block.c:3000-3058 | a read is tracked as the smallest aligned range around it; it is serialising exactly with copy-on-read, and then over whole clusters |
| `BlockRequests.FinishInv` | block.c:2262-2273 | ending a request keeps the invariant: whoever waited for it is woken, the counter falls with it |
| `BlockRequests.StepInv` | block.c:3229-3346 | every step of every request keeps the invariant |
| `BlockRequests.TransferIsStore` | block.c:3178-3227 | to a reader of the disk, a successful write is a store of the caller's data at the caller's offset |
| `BlockRequests.NoLostUpdate` | block.c:3229-3346 | after any run the disk is what the writes make of it one after the other, each as the step that began it asked for it, in the order of the transfers: no update is lost, nothing else changes |
| `BlockRequests.ReadSees` | block.c:2922-2990 | a read gives the disk as the writes transferred before it left it |
| `BlockRequests.TrackedWasBegun` | block.c:2275-2294 | every write that is tracked was begun with its offset and data |
| `BlockRequests.IssuedIsEffects` | block.c:3229-3346 | what is transferred is what the callers asked for |
| `BlockRequests.EveryWriteOnce` | block.c:3229-3346 | over every run a write that is begun is transferred exactly once, fails, or is still due |
| `BlockRequests.AllWritesDone` | block.c:3229-3346 | from an idle device to an idle device without errors, each write is done as often as it was asked for |
| `BlockRequests.NoDeadlock` | block.c:2359-2401 | while requests are tracked, one of them can go on |
| `BlockRequests.StepDecreasesWork` | block.c:2359-2401 | every step other than a new request lowers a measure |
| `BlockRequests.AllRequestsComplete` | block.c:2359-2401 | without new requests only finitely many steps are possible, and when none is left all requests have ended |
| `BlockRequests.EmptyDeviceInv` | block.c:2275-2309 | a device without requests satisfies the invariant |
| `BlockLayer.BlockDevice.WaitScan` | block.c:2359-2401 | the loop with its early exit finds the first conflicting request that is not waiting |
| `BlockLayer.BlockDevice.Enlist` | block.c:2275-2309 | tracking, marking and waiting, in place, are the admission step of the protocol |
| `BlockLayer.BlockDevice.BeginWrite` | block.c:3229-3270 | the start of a write is the protocol's step and keeps the invariant; the caller's offset and data are what is tracked |
| `BlockLayer.BlockDevice.PadRead` | block.c:3026-3058 | a read is widened at both ends to whole blocks |
| `BlockLayer.BlockDevice.BeginRead` | block.c:3000-3069 | the start of a read is the protocol's step and keeps the invariant; what is tracked is the aligned range around the caller's |
| `BlockLayer.BlockDevice.Resume` | block.c:2386-2396 | a woken request looks again for somebody to wait for |
| `BlockLayer.BlockDevice.ReadHead` | block.c:3262-3287 | reading the head fills the head buffer from the disk and keeps the invariant |
| `BlockLayer.BlockDevice.ReadTail` | block.c:3297-3320 | reading the tail does the same for the tail buffer |
| `BlockLayer.BlockDevice.Splice` | block.c:3280-3325 | the vector built from head, data and tail is the padded payload at the padded offset |
| `BlockLayer.BlockDevice.Transfer` | block.c:3178-3227 | every byte of the disk is the old one except the caller's range, which has the caller's data |
| `BlockLayer.BlockDevice.Finish` | block.c:2262-2273 | leaving the list, counting down and restarting the queue is the protocol's last step |
| `PhysMap.LeafWalk` | exec.c:171-204 | storing a leaf changes the lookup of exactly the addresses below that slot |
| `PhysMap.LinkRootWalk` | exec.c:156-186 | linking a fresh node changes no lookup |
| `PhysMap.LeafShape` | exec.c:186-204 | a leaf keeps the tree a tree of levels |
| `PhysMap.LinkShape` | exec.c:156-186 | a fresh node keeps it too |
| `PhysMap.WalkFrame` | exec.c:278-300 | a lookup only depends on the nodes on its way |
| `PhysPageTable.Budget` | exec.c:171-214 | what a slot of a range may allocate fits the bound of its level: the first and the last slot pay for one path each |
| `PhysPageTable.PageTable.constructor` | exec.c:1797-1815 | the empty table maps every page to the unassigned section |
| `PhysPageTable.PageTable.Reserve` | exec.c:147-154 | after the reservation that many nodes fit without moving the array |
| `PhysPageTable.PageTable.NodeBelow` | exec.c:156-186 | a slot without a node gets one that maps what the slot mapped |
| `PhysPageTable.PageTable.SetSlot` | exec.c:190-203 | a whole slot becomes a leaf, a partial one is filled by recursion |
| `PhysPageTable.PageTable.FillSlots` | exec.c:188-204 | the loop over slots maps exactly the pages of the range below its node and leaves the rest over |
| `PhysPageTable.PageTable.SetLevel` | exec.c:171-204 | the recursion maps exactly its part of the range, consumes exactly that many pages, ends at level 0 and allocates within the bound of its level |
| `PhysPageTable.PageTable.SetPages` | exec.c:206-214 | exactly the pages of the range map to the section, with at most 2·levels−1 new nodes, fewer than reserved |
| `PhysCompact.LiftRefines` | exec.c:254-263 | an entry refines if all entries of its node do, so compaction may work below first |
| `PhysCompact.SkipRefines` | exec.c:219-264 | an entry may be replaced by the only child of its node, skips added, although the dropped digits are not checked |
| `PhysCompact.StepRefines` | exec.c:219-264 | replacing one entry by a refining one refines every lookup from above |
| `PhysCompact.RefinesTransitive` | exec.c:219-276 | refinement composes, so compaction may go on in place |
| `PhysCompact.SkipCompacted` | exec.c:249-263 | the levels skipped always fit, and an entry that skips a node with a compacted single child is compacted |
| `PhysCompact.SkipKeepsOne` | exec.c:219-264 | compacting an entry leaves alone all that is compacted already |
| `PhysPageTable.PageTable.SkipNode` | exec.c:240-264 | one node is skipped, in place, and every entry of the tree is refined |
| `PhysPageTable.PageTable.Compact` | exec.c:219-264 | compaction of a subtree refines every entry, touches nothing beside it, and leaves no node in it with a single valid child |
| `PhysPageTable.PageTable.CompactAll` | exec.c:269-276 | a page that was mapped keeps its section; one that was not stays so or ends at a section that some other page is mapped to; no node that can be reached has a single valid child |
| `PhysSections.RangeCheckIsIn` | exec.c:289-299 | the range check on a found section is containment, also for a section of 2^64 bytes |
| `PhysSections.LookupFindsPiece` | exec.c:278-321 | in a good state a lookup gives the registered piece that contains the address, or the unassigned section |
| `PhysSections.SameAfterCompaction` | exec.c:278-300 | landing on another page's entry after compaction makes no difference thanks to the range check |
| `PhysSections.RangeFree` | exec.c:897-938 | pages of a section disjoint from all registered ones are unassigned |
| `PhysSections.MultipageGood` | exec.c:928-938 | registering whole pages keeps the state good |
| `PhysSections.FreshSubpageGood` | exec.c:912-924 | turning a page into a subpage and registering a piece keeps the state good |
| `PhysSections.KnownSubpageGood` | exec.c:918-924 | so does registering a piece on an existing subpage |
| `PhysSections.SubpageOrNothing` | exec.c:902-910 | the assertion holds: the page of a partial piece is a subpage or unassigned |
| `PhysDispatch.Dispatch.constructor` | exec.c:1797-1815 | after the begin of an update the state is good for no sections |
| `PhysDispatch.Dispatch.SectionAdd` | exec.c:857-874 | a section gets the next number; this fails exactly if there is none |
| `PhysDispatch.Dispatch.RegisterMultipage` | exec.c:928-938 | registering a page-aligned piece keeps the state good and takes one section number; it fails exactly if there is none |
| `PhysDispatch.Dispatch.SubpageRegister` | exec.c:1728-1746 | the bytes from start to end of the table get the section, unless the range is bad |
| `PhysDispatch.Dispatch.FindSection` | exec.c:278-300 | the loop over levels with skips finds what the abstract walk finds |
| `PhysDispatch.Dispatch.SplitPage` | exec.c:912-918 | an unassigned page becomes a subpage with the piece on it, if two section numbers are left |
| `PhysDispatch.Dispatch.RegisterSubpage` | exec.c:897-925 | registering a piece inside a page keeps the state good; it takes one section number if the page is shared already and two if not, and fails exactly if there are fewer |
| `PhysDispatch.Dispatch.RegisterNext` | exec.c:956-970 | a round registers the whole pages of a remainder or its last part; what the section owes in section numbers stays the same, and a round fails only if that is too much |
| `PhysDispatch.Dispatch.RegisterHead` | exec.c:947-955 | the piece up to the first page boundary is registered, if there is one, at its share of the cost |
| `PhysDispatch.CostBounds` | exec.c:940-971 | a section of whole pages needs one section number, any other at most five |
| `PhysDispatch.RestStep` | exec.c:956-970 | the cost of a remainder is that of the next piece and of what follows |
| `PhysDispatch.SplitMore` | exec.c:912-918 | the pages known as shared are those that map to a subpage, after one more is shared |
| `PhysDispatch.SplitKept` | exec.c:928-938 | and after whole pages are registered |
| `PhysDispatch.Dispatch.MemAdd` | exec.c:940-971 | a section is cut into pieces that lie in it and cover it, and all are registered; it takes exactly the section numbers its pieces and newly shared pages need, and fails exactly if they run out |
| `PhysDispatch.Dispatch.Commit` | exec.c:1817-1831 | compaction changes the result of no lookup, and nothing is left to compact |
| `PhysDispatch.Dispatch.Lookup` | exec.c:308-321 | with subpage resolution the result contains the address, or is the unassigned section if nothing does; it is the section that the target of the address is read from, which after `Build` is that of a linear search; without, it is what the tree says for the page |
| `PhysDispatch.LinearSearchFinds` | exec.c:308-321 | the reference: in a list of disjoint sections a search finds the one that contains the address |
| `PhysDispatch.LinearSearchMisses` | exec.c:308-321 | and nothing if none does |
| `PhysDispatch.PiecesMeanList` | exec.c:940-971 | the pieces together mean what the list of sections means |
| `PhysDispatch.Build` | exec.c:940-971 | from begin to commit: it fails if and only if the list needs more section numbers than there are, otherwise the registered pieces fill the listed sections, and for every address the lookup is a linear search of the list |
| `PhysDispatch.NeededWhole` | exec.c:857-874 | 4092 sections of whole pages fit, one more does not: each needs one number besides the four fixed ones |
| `PhysDispatch.NeededAtMost` | exec.c:857-874 | no list needs more than five numbers for each section |
| `Xbzrle.UlebRoundTrip` | util/cutils.c:483-510 | a 14-bit number is read back as written |
| `Xbzrle.DiffProper` | xbzrle.c:37-121 | the runs between two pages are not empty and fit the numbers; only the first may have no unchanged bytes |
| `Xbzrle.EmptyIffUnchanged` | xbzrle.c:66-74 | an encoding is empty exactly when nothing changed, and never longer than its room |
| `Xbzrle.OverflowExactly` | xbzrle.c:37-121 | an encoding overflows exactly if its runs do not fit, with two bytes more if the buffers end alike; otherwise its length is that of the runs |
| `Xbzrle.RunRoundTrip` | xbzrle.c:132-170 | one round of the decoder undoes one round of the encoder |
| `Xbzrle.RoundTrip` | xbzrle.c:26-173 | decoding an encoding against the old page gives the new page |
| `Words.ZeroByteTrick` | xbzrle.c:95-100 | the bit expression of the source is nonzero exactly if some byte of the word is zero |
| `Words.WordsAgree` | xbzrle.c:97-101 | applied to the difference of two words loaded from the buffers, it holds exactly if the buffers agree in one of the eight bytes |
| `Words.WordsEqual` | xbzrle.c:53-54 | two loaded words are equal exactly if all eight bytes are |
| `Xbzrle.WordEnds` | xbzrle.c:97-101 | the test of the source on two words finds the end of a changed run |
| `Xbzrle.SameWord` | xbzrle.c:53-54 | the comparison of two words continues an unchanged run |
| `Xbzrle.SkipEqual` | xbzrle.c:43-64 | bytes, words and bytes again find the end of the unchanged run |
| `Xbzrle.SkipChanged` | xbzrle.c:85-111 | bytes, then words with the bit expression of the source, find the end of the changed run |
| `Xbzrle.EncodeBuffer` | xbzrle.c:26-124 | the encoder's loop, with its three overflow checks, produces the specified encoding or the overflow |
| `Xbzrle.DecodeNext` | xbzrle.c:132-169 | one round of the decoder with all its error checks |
| `Xbzrle.DecodeBuffer` | xbzrle.c:126-173 | the decoder's loop produces the specified page or the error |
| `Bytes.BeRoundTrip` | arch_init.c:301-301 | a big-endian number is read back as written |
| `RamStream.EmitSize` | arch_init.c:296-311 | the bytes accounted for a record are those written |
| `RamStream.NamedIffDistinct` | arch_init.c:971-974 | every block is found by its name exactly when names are distinct |
| `RamStream.HeaderFound` | arch_init.c:950-978 | offset, flags and block are separated again, whether the block is named or continued |
| `RamStream.DeltaFound` | arch_init.c:909-948 | a delta record is loaded by decoding it over the page that is there |
| `RamStream.LoadEmitted` | arch_init.c:991-1090 | what was written for a page is loaded into the same block and page, with the meaning the sender gave it |
| `RamStream.RecordExtend` | arch_init.c:991-1090 | loading a record does not depend on what comes later |
| `RamStream.LoadExtend` | arch_init.c:991-1090 | a loader goes on from where it stands when the stream grows |
| `RamStream.SendPage` | arch_init.c:296-311 | appending a record appends its effect, and the receiver's block becomes the sender's |
| `RamStream.SendEos` | arch_init.c:849-853 | ending a section leaves the receiver as it is |
| `RamStream.LoadBySections` | arch_init.c:1004-1090 | consuming a stream is loading its sections one after the other |
| `RamSetup.ListAccepted` | arch_init.c:1019-1046 | the receiver reads to the end of the sender's list exactly if it knows each block with its length, in 64-bit arithmetic |
| `RamSetup.SetupAccepted` | arch_init.c:777-783 | whatever the two lists, the receiver goes on after the setup section if and only if it has every block of the sender with the same length |
| `RamSetup.TotalFits` | arch_init.c:672-681 | the announced total of disjoint blocks is no more than the memory |
| `RamSetup.SendSetup` | arch_init.c:777-783 | a receiver with the same blocks accepts them and is left as it was |
| `RamLoader.Loader.HostFromStream` | arch_init.c:950-978 | the block of a header: the current one, or the first with that name |
| `RamLoader.Loader.CheckBlocks` | arch_init.c:1012-1048 | the loop over the announced blocks accepts the list or reports the unknown name or the wrong length |
| `RamLoader.Loader.LoadPage` | arch_init.c:1051-1083 | the page of a record, if its flags announce one; a hook is an error |
| `RamLoader.Loader.LoadBody` | arch_init.c:1052-1081 | a page is filled, copied or decoded in place, or an error is reported |
| `RamLoader.Loader.LoadOne` | arch_init.c:1004-1089 | one round of the loop: block list, page and end mark, with their errors |
| `RamLoader.Loader.LoadSection` | arch_init.c:991-1096 | the loop up to the end mark loads exactly the section, the setup section included |
| `RamLoader.Loader.Receive` | arch_init.c:991-1096 | a stream that can be loaded, from its block list on, leaves the receiver with the effect of its records |
| `DirtyBitmap.CountMerge` | arch_init.c:445-454 | merging a word adds exactly the bits that are new to the number of set bits |
| `DirtyBitmap.PagesDiffer` | arch_init.c:398-404 | different pages of blocks have different bits |
| `DirtyBitmap.Tracker.constructor` | arch_init.c:726-733 | at setup every page is marked and counted |
| `DirtyBitmap.Tracker.SyncWord` | arch_init.c:445-454 | a word of the log moves into the bitmap, the counter stays right |
| `DirtyBitmap.Tracker.SyncPage` | arch_init.c:421-432 | so does the mark of a single page |
| `DirtyBitmap.Tracker.SyncRange` | arch_init.c:434-467 | on both paths no mark is lost or invented and none of the range is left in the log |
| `DirtyBitmap.Tracker.Sync` | arch_init.c:472-496 | the same for all blocks |
| `DirtyBitmap.Tracker.FindAndReset` | arch_init.c:397-419 | the next page in bulk, otherwise the first dirty one; its bit is cleared and the counter, the number of set bits, falls by one |
| `RamSearch.NextBlock` | arch_init.c:557-564 | on to the next block or to the second round: nothing dirty is left behind |
| `RamSearch.PageFound` | arch_init.c:565-636 | a page that is found is dirty, and the cursor stands right behind it |
| `RamSearch.RoundDone` | arch_init.c:552-556 | at the end of a round nothing is dirty any more; a mark was cleared there if and only if the call began in the hazard |
| `RamSearch.NoHazardLeft` | arch_init.c:637-638 | after a call the page under the cursor is clean, so no call begins in the hazard because of the one before |
| `RamSearch.BulkInOrder` | arch_init.c:406-412 | in the bulk stage a call sends the next page in order, or the stage ends |
| `RamPace.NextPlace` | arch_init.c:398-412 | in the bulk stage the cursor goes to the next page, or stays if it stands on the first page of a block and that is marked again; it ends exactly if no call is left |
| `RamPace.SpendOne` | arch_init.c:398-412 | the stage goes on exactly as long as there are calls left, each of which brings it one page on or sends a first page again |
| `RamPace.HazardAtEnd` | arch_init.c:552-556 | in the hazard no page is left |
| `RamPace.LeftTells` | arch_init.c:398-412 | how many pages are left tells where the cursor stands |
| `RamMigration.MirrorsSent` | arch_init.c:590-627 | sending a page keeps every cached page equal to the receiver's copy |
| `RamMigration.AllClear` | arch_init.c:864-892 | with no mark left only forgotten pages may differ |
| `RamMigration.Migration.constructor` | arch_init.c:715-772 | setup establishes the invariant: every page marked, cache empty, nothing visited, whatever the receiver holds |
| `RamMigration.Migration.Setup` | arch_init.c:772-791 | the log is synchronised, the blocks are announced, the section ends, and the invariant holds |
| `RamMigration.Migration.Send` | arch_init.c:296-311 | a record goes out; the receiver's memory and block follow, the byte count is exact |
| `RamMigration.Migration.SaveDelta` | arch_init.c:380-394 | a delta over the cached page gives the receiver the page that was encoded |
| `RamMigration.Migration.SaveXbzrlePage` | arch_init.c:343-395 | miss, unmodified, overflow and delta each leave cache and receiver in step, even if the guest writes between any two looks at the page; with the guest stopped, which of them it is, and the number of bytes |
| `RamMigration.Migration.SaveFull` | arch_init.c:600-627 | outside the last stage the page is sent from the cache, otherwise from the guest |
| `RamMigration.Migration.SaveZero` | arch_init.c:590-599 | a zero page replaces a stale cached one |
| `RamMigration.Migration.SavePage` | arch_init.c:565-634 | the page is up to date afterwards; 0 bytes only if the receiver has it already; the bytes returned are those written, with the guest stopped exactly those of a zero page, a delta or the whole page |
| `RamMigration.Migration.TakeDirty` | arch_init.c:550-556 | the mark that is cleared makes its page one that must be sent |
| `RamMigration.Migration.Turn` | arch_init.c:550-636 | one turn of the loop sends, goes on or stops as the search says, and makes progress |
| `RamMigration.Migration.SaveBlock` | arch_init.c:531-641 | returns the bytes written, 0 only if no page is dirty and always if none was; in bulk sends the pages in order; forgets the last page if and only if it starts in the hazard, and never ends there; keeps the invariant |
| `RamMigration.Migration.Sync` | arch_init.c:472-496 | synchronising keeps the invariant; it brings about the hazard exactly if the merged marks are the hazard |
| `RamMigration.Migration.Iterate` | arch_init.c:795-862 | the bytes accounted are those written; the bulk stage goes on exactly as long as it has calls left, and stands as many pages further as the round has sent; a round that sends nothing leaves nothing marked; it forgets a page if and only if it begins in the hazard and makes at least one call, and then only the last page and nothing is sent |
| `RamMigration.Migration.SaveAll` | arch_init.c:874-883 | the loop ends with no page marked; a page is forgotten if and only if the loop begins in the hazard |
| `RamMigration.Migration.Pending` | arch_init.c:894-907 | the remaining size is the number of set bits in pages; below the limit the whole log has gone into the bitmap |
| `RamMigration.Migration.ResizeCache` | arch_init.c:190-225 | another size, as a power of two, gives a new, empty cache and keeps the invariant |
| `RamMigration.Migration.Complete` | arch_init.c:864-892 | with the guest stopped the receiver ends with the guest's memory, but for a last page lost before or forgotten now; it is forgotten now if and only if the cursor of the bulk stage stands on it and it alone is marked in bitmap or log; with no mark in either, nothing is sent |
| `RamRun.Migrate` | arch_init.c:726-1096 | for every mix of guest writes, rounds, size queries, cache resizes, stops and resumptions: the memory the loader builds from the stream is the guest's on every page but the last, and on that one too unless the operations allow it to be forgotten; in each run, unless a round or the completion began in the hazard; and the guest's memory is the initial one with its writes, so the initial one if it never runs |
| `RamRun.Perform` | arch_init.c:795-907 | what each operation does to bitmap, log, cursor and the guest's memory, in the bulk stage exactly how far a round gets, and that it forgets the last page exactly if it is a round that begins in the hazard |
| `RamRun.StillSame` | arch_init.c:726-892 | a guest that does not run leaves its memory as it was |
| `RamRun.StoppedStill` | arch_init.c:726-892 | a guest that is stopped first and never resumed does not run |
| `RamRun.ForgetsAfterSync` | arch_init.c:894-907 | a run without a synchronisation between its rounds forgets nothing before the completion |
| `RamRun.HistoryStands` | arch_init.c:398-412 | in every run the cursor of the bulk stage stands where the operations allow, however the guest writes |
| `RamRun.ForgetsAllowed` | arch_init.c:552-556 | a round of a run forgets a page only if the operations allow it |
| `RamRun.ForgetsLastAllowed` | arch_init.c:864-892 | so does the completion |
| `RamRun.PaceBounds` | arch_init.c:398-412 | the pages left and the budgets spent add up to the number of pages, or up to one more for each synchronisation |
| `RamRun.StepOver` | arch_init.c:398-412 | no page can be forgotten if the budgets step over the number of pages by more than the number of synchronisations |
| `RamRun.MayForgetExact` | arch_init.c:398-412 | without a synchronisation a page can be forgotten exactly if the budgets add up to the number of pages |
| `RamLoss.EndsInHazard` | arch_init.c:552-556 | with no page left and no mark behind the cursor, a mark on the page under it is the hazard |
| `RamLoss.Spend` | arch_init.c:795-862 | a round of the bulk stage takes exactly its budget, or one page less if it first sends the page under the cursor again |
| `RamLoss.Query` | arch_init.c:894-907 | a synchronisation marks the page under the cursor exactly if the guest wrote it |
| `RamLoss.Reach` | arch_init.c:398-412 | every place that the operations allow is reached by some guest, with the page under the cursor marked or not as wished |
| `RamLoss.StayForgotten` | arch_init.c:795-907 | once forgotten, no round and no synchronisation brings the page back |
| `RamLoss.Forget` | arch_init.c:726-1096 | whenever the operations allow it, there is a guest with which the receiver ends, after completion, with a last page that is not the guest's |
| `RamLoss.TwoPagesHazard` | arch_init.c:552-556 | two pages sent in bulk, the second one dirty again: the state in which a page is forgotten |
| `RamLoss.SentTwice` | arch_init.c:398-412 | two pages, rounds of 1 and 2 and a synchronisation in between: the budgets never add up to 2, and a page can be forgotten |
| `RamLoss.ForgottenPage` | arch_init.c:726-892 | setup, one round, a guest write and the completion, after which no page is marked and the receiver's page is not the guest's |
| `RamLoss.ForgottenLater` | arch_init.c:726-907 | the same with a synchronisation between two rounds |
| `ElfDump.StoredRun` | dump.c:443-503 | the stored part of a block stands in the memory part of the file at the sum of what is stored before it |
| `ElfDump.StoredAsked` | dump.c:460-480 | what is stored of a block is what lies in it and in the filter |
| `ElfDump.StoredImage` | dump.c:666-694 | the memory part of the file is, byte for byte, what is asked for |
| `ElfDump.GetOffsetRange` | dump.c:443-503 | an address is given an offset exactly if it lies in a block and in the filter, and from there on the file has the block's bytes, as many as asked for or as lie in both |
| `ElfDump.Dump.WriteMemory` | dump.c:417-441 | pages and the rest are the requested bytes |
| `ElfDump.Dump.GetStartBlock` | dump.c:1507-1533 | the first block with something to store, or none |
| `ElfDump.Dump.FindInRange` | dump.c:639-664 | the next block in range; those passed over store nothing |
| `ElfDump.Dump.Iterate` | dump.c:666-694 | the file gets exactly the bytes that lie in the blocks and in the filter, in order |
| `KdumpFile.Output.WriteBuffer` | dump.c:755-774 | a record puts its bytes at its position and changes nothing else |
| `KdumpFile.DataCache.Put` | dump.c:1189-1219 | what was given to the cache is in the file or in the buffer, in order |
| `KdumpFile.DataCache.Sync` | dump.c:1198-1211 | everything given stands in the file |
| `KdumpFile.PageWriter.PutData` | dump.c:1313-1326 | page data does not disturb the descriptors |
| `KdumpFile.PageWriter.PutDesc` | dump.c:1412-1421 | descriptors do not disturb the page data |
| `KdumpBitmap.NextStep` | dump.c:1079-1123 | the walk over pages goes up, one page at a time, and leaves none out |
| `KdumpBitmap.BitInNumber` | dump.c:1061-1068 | a bit put into a byte is read back |
| `KdumpBitmap.Bitmaps.FlushChunk` | dump.c:1041-1059 | a buffer of bits goes to the same place in both bitmaps |
| `KdumpBitmap.Bitmaps.Set` | dump.c:1022-1071 | setting a bit flushes what lies before it; the file and the buffer together are the bitmap |
| `Kdump.WriteDumpBitmap` | dump.c:1125-1177 | in both bitmaps bit n is set if and only if page n exists, and the number of pages is returned |
| `Kdump.DescRoundTrip` | dump.c:1313-1317 | a descriptor is read back from its bytes |
| `Kdump.PutPage` | dump.c:1332-1422 | a zero page shares the first page of the data, another one is stored compressed if that is shorter, and its descriptor says where |
| `Kdump.WriteDumpPages` | dump.c:1274-1447 | the descriptors stand in the order of the pages, each with offset, size and flags of its page's data; the end of the file is bounded by the number of pages |
| `Kdump.BelowIsRank` | dump.c:1332-1422 | the place of a descriptor is the number of existing pages below |
| `Kdump.CountIsBelow` | dump.c:1125-1177 | which is the number of set bits below in the file |
| `Kdump.PartsApart` | dump.c:883-889 | header, notes, bitmaps and descriptors do not overlap and leave no page out |
| `Kdump.ReadBack` | dump.c:1313-1422 | decoding a descriptor from the bytes of the file and reading what it points to gives the page that was stored |
| `Kdump.PageRead` | dump.c:1332-1422 | counting bits leads to that descriptor; all pages of zeros share one copy, a page that gets smaller is compressed, any other is stored as it is |
| `Kdump.CreateKdump` | dump.c:1449-1505 | in the finished file the headers stand and the bitmaps are right, and for every page: counting the bits below it, decoding the descriptor there and decompressing what it points to gives the page; and the descriptor says how it had to be stored |
| `KvmSlots.HostFree` | kvm-all.c:673-675 | freeing a slot unmaps exactly its range |
| `KvmSlots.HostTake` | kvm-all.c:759-763 | taking a slot for a free range maps exactly that range |
| `KvmSlots.Wanted` | kvm-all.c:618-650 | the range acted on is page aligned and inside the section, with the section's host address |
| `KvmSlots.WantedExactly` | kvm-all.c:618-650 | when there is a range to act on, which it is, and whether it is added |
| `KvmSlots.WantedAligned` | kvm-all.c:627-638 | for an aligned section of RAM it is the section |
| `KvmSlots.SlotTable.AllocSlot` | kvm-all.c:128-140 | a free slot, or none exactly when all are used |
| `KvmSlots.SlotTable.LookupOverlapping` | kvm-all.c:160-185 | of the overlapping slots the one that starts lowest |
| `KvmSlots.SlotTable.KeepBelow` | kvm-all.c:711-730 | the part of a freed slot below the range is mapped as before; it fails exactly if there is such a part and no free slot |
| `KvmSlots.SlotTable.KeepAbove` | kvm-all.c:732-749 | the same for the part above |
| `KvmSlots.SlotTable.Split` | kvm-all.c:667-749 | one overlapping slot less, nothing outside the range changed and no slot more that overlaps; the pieces outside the range are as many as before, and it fails only if they are one more than there are slots |
| `KvmSlots.LowestAlone` | kvm-all.c:732-749 | if the lowest overlapping slot ends behind the range, no other one overlaps it |
| `KvmSlots.SlotTable.Clear` | kvm-all.c:652-750 | the loop ends with the range found mapped, exactly if one slot maps all of it as wanted; otherwise it fails if and only if the pieces outside the range are more than there are slots, and else the range is unmapped and that many slots are used |
| `KvmSlots.SlotTable.SetPhysMem` | kvm-all.c:613-771 | slots stay disjoint and aligned, and the guest-to-host map changes exactly on the range; nothing changes if one slot maps it already; otherwise it fails if and only if the pieces of slots outside the range, and the range if it is added, are more than there are slots; at most two more slots are used |
| `KvmRoutes.CarriesOne` | kvm-all.c:1122-1127 | the two halves of the address and the data name one message |
| `KvmRoutes.RouteMeans` | kvm-all.c:1159-1162 | a route holds the low and the high half of the address and the data |
| `KvmRoutes.DeliversMeans` | kvm-all.c:1132-1174 | every entry that the kernel has for the line sends the message |
| `KvmRoutes.ReleaseClears` | kvm-all.c:1060-1066 | a release leaves no route of the line if and only if at least as many entries stand behind its last one as it has others |
| `KvmRoutes.ReleaseConserves` | kvm-all.c:1060-1066 | routes of other lines are neither lost nor doubled |
| `KvmRoutes.BitsReleased` | kvm-all.c:1051-1068 | after a release bitmap and table agree if and only if that condition held |
| `KvmRoutes.TwoRoutes` | kvm-all.c:1060-1067 | two routes of one line alone in the table: the line is marked free and still routed |
| `KvmRoutes.MessageReleased` | kvm-all.c:1051-1068 | the line of a message is always released cleanly |
| `KvmRoutes.Routing.constructor` | kvm-all.c:947-975 | bits beyond the last line count as used |
| `KvmRoutes.Routing.AddEntry` | kvm-all.c:987-1009 | the entry is appended, with room, and its line marked |
| `KvmRoutes.Routing.AddIrqRoute` | kvm-all.c:1036-1049 | the route is added to any line; the invariant holds on if and only if the line carries no message |
| `KvmRoutes.Routing.ReleaseVirq` | kvm-all.c:1051-1068 | exactly the routes of a line that a caller holds go and the invariant is kept; for any other line the condition above decides |
| `KvmRoutes.Routing.FlushHead` | kvm-all.c:1082-1088 | one route made on the fly leaves table, bitmap and hash table |
| `KvmRoutes.Routing.Flush` | kvm-all.c:1077-1089 | exactly the routes made on the fly go |
| `KvmRoutes.Routing.GetVirq` | kvm-all.c:1091-1115 | the lowest free line; none if and only if every line is taken for good; routes made on the fly give way only then |
| `KvmRoutes.Routing.LookupRoute` | kvm-all.c:1117-1130 | one bucket is searched, and no route of the message is missed |
| `KvmRoutes.Routing.SendMsi` | kvm-all.c:1132-1174 | the line raised is routed by the kernel to exactly the message sent; a known route is used again; routes callers hold are untouched |
| `KvmRoutes.Routing.AddMsiRoute` | kvm-all.c:1176-1205 | the caller gets a line of its own that delivers exactly its message; failing exactly if no line is left |
| `KvmRoutes.Routing.UpdateMsiRoute` | kvm-all.c:1208-1227 | the first route of the line is overwritten, whatever it is, and it fails exactly if there is none; a line that a caller holds then delivers exactly the new message, with everything else as before |
| `SoftTlb.AlignMeans` | cputlb.c:89-98 | masking clears the low bits of the page number |
| `SoftTlb.ContainsMeans` | cputlb.c:80-98 | a translation contains the pages that share its number above the low bits |
| `SoftTlb.CoversContents` | cputlb.c:89-98 | every page of a translation the region covers falls into the region |
| `SoftTlb.Widen` | cputlb.c:213-218 | widening the mask loses no page |
| `SoftTlb.Tlb.Flush` | cputlb.c:49-66 | no entry and no region is left |
| `SoftTlb.Tlb.FlushEntry` | cputlb.c:68-78 | exactly the entry of that page in that mode goes |
| `SoftTlb.Tlb.FlushPage` | cputlb.c:80-110 | no entry survives in any mode whose translation, small or large, contains the page; outside the region of large pages no other entry goes |
| `SoftTlb.Tlb.AddLargePage` | cputlb.c:198-219 | the mask loop ends and the region covers the new page and all earlier ones, with the narrowest mask that does |
| `SoftTlb.Tlb.SetPage` | cputlb.c:221-297 | the entry is installed in its place, the fast path is open exactly as the rights and the memory allow, writes are I/O or reported exactly as they must, a large page is remembered |
| `SoftTlb.Tlb.SetDirty` | cputlb.c:177-196 | exactly the matching entries lose the flag, and all stay in force |
| `SoftTlb.Tlb.ResetDirty` | cputlb.c:133-144 | no entry writes to the range unreported, and nothing else changes |
| `EventLoop.ReadyMeans` | aio-posix.c:45-93 | a reader is ready on input, hang-up or error, a writer on output or error |
| `EventLoop.LaterTrans` | async.c:59-104 | what an operation keeps, a sequence of operations keeps: who stays, who is still due, and what is still reported |
| `EventLoop.SweepLater` | async.c:87-101 | the sweep removes the deleted bottom halves and no other |
| `EventLoop.AioContext.BhNew` | async.c:43-57 | a new bottom half at the head of the list |
| `EventLoop.AioContext.BhSchedule` | async.c:106-129 | schedules unless already scheduled |
| `EventLoop.AioContext.BhCancel` | async.c:132-146 | cancels or marks as deleted |
| `EventLoop.AioContext.BhStep` | async.c:68-83 | a due bottom half is called once for its schedule, a deleted one is not |
| `EventLoop.AioContext.BhPoll` | async.c:59-104 | every bottom half that was due is called, here or in a nested poll, or was cancelled; the result tells whether this walk called one that was not idle; a poll that ends the outermost walk leaves no deleted one |
| `EventLoop.WalkedHits` | async.c:66-85 | a bottom half that was due and not idle makes for progress, unless it was cancelled or called deeper down before |
| `EventLoop.IdleCancels` | async.c:66-85 | an idle bottom half is called and cancels a due one that is not idle: no progress |
| `EventLoop.AioContext.FindHandler` | aio-posix.c:32-43 | the live handler of a descriptor |
| `EventLoop.AioContext.SetFdHandler` | aio-posix.c:45-93 | the descriptor has the handler asked for, with what was reported to it, or none that is live; others are as before; freed only outside walks |
| `EventLoop.AioContext.Deliver` | aio-posix.c:136-150 | what was reported is taken and a handler that waits for it is called |
| `EventLoop.AioContext.DispatchNode` | aio-posix.c:132-166 | a handler that was ready is called, or was changed; no report to a handler still to come is lost |
| `EventLoop.AioContext.Dispatch` | aio-posix.c:122-173 | every handler that was ready is called or was changed, whatever callbacks do, and nothing reported is left; the result tells whether a handler other than the notifier's was called or a timer ran |
| `EventLoop.DispatchedHits` | aio-posix.c:131-166 | a handler that was ready makes for progress, other than the notifier's, unless it was changed, deleted or called deeper down before |
| `EventLoop.AioContext.FillPollfds` | aio-posix.c:201-218 | each live handler that waits for something is registered with its own descriptor |
| `EventLoop.AioContext.CopyBack` | aio-posix.c:225-234 | each registered handler is told what was found of its own descriptor |
| `EventLoop.AioContext.AioPoll` | aio-posix.c:175-242 | every bottom half that was due is called or cancelled, every handler that was ready called, changed or deleted; progress exactly if a bottom half that was not idle, a handler other than the notifier's or a timer was called; descriptors are polled exactly if there was none before, or if the caller blocks and no such bottom half ran, and then every report is delivered; no call of a deleted entry, nothing removed from a list being walked, and no report left over |
| `Icount.RoundBounds` | cpus.c:304-307 | rounding up to instructions loses nothing and adds less than one |
| `Icount.Cpu.EnterBlock` | include/exec/gen-icount.h:12-39 | a block runs only if the portion in hand suffices |
| `Icount.Cpu.Expired` | cpu-exec.c:652-678 | refilling conserves the budget; with nothing to refill from, the rest is executed, which always fits one block, and the loop is left |
| `Icount.Cpu.NoCache` | cpu-exec.c:91-112 | exactly the remaining instructions are executed |
| `Icount.Cpu.Exec` | cpu-exec.c:639-686 | over any run of blocks and interrupts what leaves the portions is what was executed: the blocks up to the first interrupt, as far as the budget goes |
| `Icount.Cpu.Deal` | cpus.c:1250-1273 | the budget is the deadline, or the farthest one if there is none or it is too far, rounded up to instructions |
| `Icount.Cpu.TcgCpuExec` | cpus.c:1236-1284 | every instruction is accounted for; as many are executed as the blocks have and the deadline allows; the virtual clock advances by them, and by less than the deadline and one instruction |
| `RamBlocks.ScanUnique` | exec.c:751-755 | an address lies in one block only |
| `RamBlocks.GapFree` | exec.c:1153-1167 | what fits behind a block meets no block |
| `RamBlocks.NextStartAttained` | exec.c:1158-1164 | the room behind a block ends at a block or at the end of the address space |
| `RamBlocks.GapExactly` | exec.c:1153-1167 | a size fits behind a block exactly if it meets no block there |
| `RamBlocks.RamList.GetRamBlock` | exec.c:742-763 | the block used last, tried first, is the one a full scan finds |
| `RamBlocks.RamList.FindRamOffset` | exec.c:1143-1176 | the end of a block with the smallest gap that is big enough behind it; none exactly if no gap is |
| `RamBlocks.RamList.Alloc` | exec.c:1250-1315 | the new block goes behind a block with the smallest gap that is big enough, meets no other, and stands behind all that are not smaller; nothing else moves; it fails exactly if no gap is big enough |
| `RamBlocks.RamList.Free` | exec.c:1344-1391 | the block at that offset goes, and nothing else; without one nothing changes |

## Left out

- Block drivers, throttling, write notifiers, flushes, zero writes and merged requests: the driver is an atomic aligned store.
- BlockRequests.NoLostUpdate: the data path of copy-on-read is left out.
- BlockLayer.BlockDevice.Transfer: a read gives its whole aligned range; cutting it to the caller's bytes is left out.
- PhysPageTable.PageTable.SetPages: requires the range to be unassigned, since the source is not meant to split a leaf.
- Xbzrle.EncodeBuffer: pages of at most 0x3fff bytes, which the numbers in the encoding can hold; pages have 4096.
- IOMMU translation, MMIO dispatch and reference counts of memory regions.
- RamLoader.Loader.LoadOne: an offset outside its block is an error, where the source does not check it; the end of the stream is an error where it is met.
- RAM blocks that come or go during a migration, RDMA, auto-converge and failing allocations of cache pages.
- RamLoss.Forget: queries whose limit is above the size of all memory, which always synchronise; whether a smaller limit does depends on how much is marked at the time.
- RamMigration.Migration.Iterate: the rate limit and the clock are a number of pages.
- RamMigration.Migration.SaveZero: updates the cache before the record is written, where the source does it after; neither step looks at guest memory.
- RamMigration.Migration.SaveFull: a page sent from the guest is read when it is saved, where the source may queue it by reference and read it when the buffer is flushed.
- Contents of ELF and kdump headers and notes, endianness, and the compressors, which are any function that another one undoes.
- Kdump.CreateKdump: positions in the file fit 64 bits and the flag of the compression is not 0, as for every file and compression there is.
- KVM slot flags, dirty logging, the workaround for old kernels, and all ioctls but the routing table handed over.
- KvmRoutes.Routing.ReleaseVirq: direct mapping of lines, where it does nothing, is not modelled; neither is byte order of the message data.
- KvmSlots.SlotTable.SetPhysMem: running out of slots is an outcome, whose condition is exact; the source aborts.
- TLB: the I/O part of entries, the jump cache and several CPUs.
- Event loop: timers are arbitrary operations, and operations on entries already freed do nothing, where the source requires callers not to do that.
- EventLoop.AioContext.AioPoll: polls nest up to an arbitrary depth.
- Instruction counting: the warp timer, the adaptive shift and several CPUs.
- Icount.Cpu.Exec: blocks of at most 0x7fff instructions, the most a block can have.
- RamBlocks.RamList.Alloc: a size that would wrap when rounded up is excluded; running out of address space is an outcome, whose condition is exact; the source aborts.  Host memory is not modelled.
- Memory barriers, locks and host threads: critical sections are atomic.
