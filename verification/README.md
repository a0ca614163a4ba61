# Models of the hard parts of Redox

Redox is an operating system for a single processor whose kernel switches between contexts
cooperatively. This project models the algorithms in it that are hard to get right and proves what
they are for. The hardware is left out; every theorem is about all inputs, all runs or all reachable
states of the model.

| Part | Modules |
|---|---|
| Scheduler, blocking and waking, process tree | `Scheduler`, `Fairness`, `IdleContext`, `Kernel`, `Syscalls`, `ProcessTree` |
| Physical allocator | `Allocator`, `PhysicalMemory` |
| Address spaces, memory calls, isolation of processes | `AddressSpace`, `MemoryCalls`, `MemorySyscalls`, `Overlap`, `Ownership` |
| Schemes served by programs | `SchemeRpc`, `SchemeServer`, `LentWindows` |
| Path components | `Paths` |
| Compositor | `Images`, `Compositor`, `Orbital` |
| File store | `Extents`, `Nodes`, `FileStore`, `FileRuns`, `StaleHandles`, `EveryBuffer`, `FileResources` |
| Arithmetic | `Division`, `Checksum`, `Dma` |

How the parts are built: what the code changes step by step is a class or a method with its loops,
and its contract ties the new state to a function of the old one. The theorems about runs are lemmas
about those functions. `Common` holds the shared types.

Conventions that matter when reading:

- A context is named by its pid, which also stands for the raw addresses the kernel keeps to it. What
  a context does between two switches is one step, because locks disable interrupts and never enable
  them again (kernel/arch/intex.rs:67-86). `Context.pending` says where a context resumes; it, the
  histories of queues and of the process tree, `FileStore.Store.owners` and
  `SchemeRpc.Scheme.taken` are bookkeeping of the model alone.
- Numbers are unbounded except where wrapping is the point: `Division` wraps at 64 bits, pixels and
  glyphs are bit-vectors, the allocator's marker is the 32-bit all-ones word.
- The clock is a number that grows; what a device, an allocator or a client answers is a parameter.

## What turned out not to hold

For each of these there is a lemma with an input that shows it, and one that says exactly when the code
does what it should.

| What fails | An input | Exactly when it holds |
|---|---|---|
| Growing a mapping does not look at what comes after it; a shrunk mapping grows back over its neighbour | `Overlap.OverlapReached`, a run of four calls | `MemoryCalls.StepPages` |
| `translate` looks only at where a range begins | `AddressSpace.TranslateSplit` | `AddressSpace.TranslateAgrees` |
| So a client's buffer across two mappings shows the server other bytes | `SchemeRpc.SplitBufferDiffers` | `SchemeRpc.SameByte` |
| `translate` accepts an empty range just behind the stack, whose address the table shows elsewhere | `AddressSpace.TranslatePastStack` | `AddressSpace.ByteShown`, byte by byte |
| A scheme call's window collides with another, or stays behind at address 0 | `SchemeRpc.EmptyWindowCollides`, `SchemeRpc.ZeroWindowStays` | `SchemeRpc.BeginKeeps` |
| `realloc` of a mapping that was only lent frees its owner's block | `Ownership.LentBlockLost` | `Ownership.StepBacked`, `Ownership.RunBacked` |
| A lent window shows free memory: a thread that shares the client's memory has freed the block, or the server has reallocated another window onto it | `LentWindows.ThreadFrees`, `LentWindows.WindowStolen` | `LentWindows.CallLends`, `LentWindows.WaitLends` |
| `sync` cuts the buffer off after each extent, and what finds no room is lost | `Extents.RoundTripFails`, `StaleHandles.TooLongLost` | `Extents.RoundTrip`, `FileStore.SyncRoundTrip` |
| Of two handles on one file, the one that saves without changing its node is not listed again, and opening reads what the other saved | `StaleHandles.StaleSyncLost` | `EveryBuffer.SavedIff` for one buffer, `EveryBuffer.SavesAllIff` for all of a length |
| Zeros added by seeking past the end are not saved | `FileRuns.SeekNotSaved`, every handle with nothing else to save | `FileRuns.SeekSavedIff` |
| 64-bit division wraps while it doubles the divisor | `Division.WrapInput` | `Division.DividesIff` for the quotient, `Division.RemainderIff` for the remainder |
| A node's name does not survive its sector | `Nodes.NamesLost` | `Nodes.SectorRoundTrip` |
| A DMA descriptor crosses a 64 KiB boundary | `Dma.StraddleInput` | `Dma.StraddlesIff` |
| `unalloc` of the not-present marker frees clusters that are not there | `Allocator.MarkerInput` | `Allocator.UnallocMarker` |
| The context switch loses track of the context that ran | `IdleContext.IdleNeeded` | `IdleContext.IndexKept` |

The last cannot happen in the kernel: index 0 always runs (`Kernel.RunInv`), and then the index holds
(`IdleContext.IdleKeepsIndex`).  After the doubling has wrapped a remainder can still come out right
(`Division.LuckyRemainder`), a quotient never.  Likewise a handle that does not save every buffer of a
length may save one of them, whose bytes happen to be where they are read.

## Model

| member | source | states |
|---|---|---|
| Scheduler.SearchStops | kernel/arch/context.rs:129-149 | If index 0 can run, the search of a context switch ends at a runnable context, after the current one or at index 0; everything up to the current one is kept, only exited contexts are removed, and the others are at most woken |
| Scheduler.SwitchKeeps | kernel/arch/context.rs:121-174 | A switch leaves the list sound, chooses a context that is neither blocked nor exited, keeps the one that ran, and the old index still names that one although exited contexts were removed |
| Scheduler.ReapMatches | kernel/arch/context.rs:107-111 | Removing an exited context drops exactly it from list and boxes, and at most wakes others |
| Scheduler.ContextManager.Push | kernel/arch/context.rs:86-88 | A pushed context is last in the list, and the others stay |
| Scheduler.ContextManager.Notify | kernel/sync/wait_condition.rs:21-27 | Notifying unblocks exactly the listed contexts |
| Scheduler.ContextManager.Clean | kernel/arch/context.rs:90-118 | The cleaning loop is the function `CleanOn`, which `CleanThenSearch` relates to the search |
| Scheduler.CleanThenSearch | kernel/arch/context.rs:90-118 | After cleaning at an index the index is in range and names a context that has not exited, and the search goes on from there as if it had not been interrupted |
| Scheduler.ContextManager.ContextSwitch | kernel/arch/context.rs:121-174 | The loop in place, with its wrapping index, computes the switch of the theorems; a disabled manager changes nothing |
| Fairness.SwitchCloser | kernel/arch/context.rs:121-174 | While it can run and is not running, every switch brings a context strictly closer to its turn, removals included |
| Fairness.BoundedWaiting | kernel/arch/context.rs:121-174 | If none is created, a context that stays runnable runs within as many switches as its cyclic distance from the current index |
| IdleContext.IndexKept | kernel/arch/context.rs:90-174 | For any list of contexts: however long the search goes on, the remembered index names the context that was running, if and only if a context behind it stops the search, or none in front of it or at it is removed before one there stops it; otherwise it is wrong from some turn on for good |
| IdleContext.IdleKeepsIndex | kernel/main.rs:204-224 | With an index 0 that can run the index holds, and the search without any promise is the one of the switch |
| IdleContext.IdleNeeded | kernel/main.rs:204-224 | A concrete list without a runnable index 0 for which it does not hold |
| Kernel.StepInv | kernel/sync/wait_queue.rs:22-48 | Every step of the kernel (send, receive, wait, sleep, clone, exec, exit, yield) keeps the invariant: lists sound, current context runnable, every blocked context has a cause to be woken, waiters only on empty queues or absent keys, what was received a prefix of what was sent |
| Kernel.RunInv | kernel/sync/wait_condition.rs:21-36 | The invariant holds in every reachable state |
| Kernel.BootInv | kernel/main.rs:321-326 | The state after boot has the invariant |
| Kernel.NoLostWakeup | kernel/sync/wait_map.rs:19-31 | In every state with the invariant a blocked context is live and not running, and what it waits for is not there: its queue empty with it listed, its key absent with it listed, a wake time set, or its child still holding its memory |
| Kernel.ReapConsistent | kernel/arch/context.rs:822-831 | Dropping an exited context leaves nobody waiting for it in vain |
| Kernel.SearchConsistent | kernel/arch/context.rs:129-149 | A whole search, waking sleepers and removing exited contexts, keeps the waits consistent |
| Kernel.ExitConsistent | kernel/syscall/process.rs:33-69 | Exiting, with its status handed to the parent and its children moved up, keeps the waits consistent |
| Syscalls.Env.NextPid | kernel/arch/context.rs:472-499 | The two loops give a pid no context has, at or after the counter, and advance the counter |
| Syscalls.Env.SendTo | kernel/sync/wait_queue.rs:45-48 | A send appends, empties the waiter list and unblocks all of it |
| Syscalls.Env.ReceiveFrom | kernel/sync/wait_queue.rs:22-29 | A receive takes the oldest value, or lists and blocks its caller and switches |
| Syscalls.Env.ReceiveAllFrom | kernel/sync/wait_queue.rs:31-43 | The same for the whole queue |
| Syscalls.Env.SendKey | kernel/sync/wait_map.rs:19-22 | A keyed send replaces the key's value and unblocks all waiters |
| Syscalls.Env.ReceiveKeyFrom | kernel/sync/wait_map.rs:24-31 | A keyed receive removes exactly that key, or blocks |
| Syscalls.Env.WaitFor | kernel/syscall/process.rs:95-112 | `waitpid` takes the status of exactly that child, blocks when there is none, and refuses pids that are not positive |
| Syscalls.Env.SleepUntil | kernel/syscall/time.rs:35-60 | Sleeping blocks with a wake time and switches |
| Syscalls.Env.CloneContext | kernel/arch/context.rs:181-323 | A clone is a new context at the end of the list, child of its caller, unless there is no memory for its stack; after vfork the caller is blocked until it is let go |
| Syscalls.Env.ExitWith | kernel/syscall/process.rs:33-69 | The loop over all contexts hands the status and the uncollected statuses to the parent and the children to the parent, then switches for good |
| ProcessTree.StepTree | kernel/syscall/process.rs:33-69 | Every step keeps the tree: parents are live or 0, every uncollected status lies with the nearest live ancestor; and `waitpid` returns the very value passed to exit, once |
| ProcessTree.RunTree | kernel/syscall/process.rs:33-112 | So it is in every reachable state, as long as pids are not reused |
| ProcessTree.StatusInOneMailbox | kernel/syscall/process.rs:51-58 | An uncollected status with a live ancestor is in exactly one status map, the nearest live ancestor's, with the value it was given |
| ProcessTree.ParentsLive | kernel/syscall/process.rs:60-63 | Pids are positive, and every live context's parent is 0 or another live context |
| ProcessTree.DeathMovesUp | kernel/syscall/process.rs:51-63 | When a context dies, exactly the ones it was nearest ancestor to move to its own nearest live ancestor |
| ProcessTree.BootTree | kernel/main.rs:321-326 | The tree invariant holds after boot |
| Allocator.AddressRoundTrip | kernel/arch/memory.rs:145-155 | A cluster's address leads back to the cluster, and is neither free value nor marker |
| Allocator.UnallocFrees | kernel/arch/memory.rs:267-277 | In a well-formed table `unalloc` frees all clusters tagged with its argument and no other: the run based there, or nothing |
| Allocator.UnallocMarker | kernel/arch/memory.rs:267-277 | For the not-present marker it leaves the table alone exactly when the marker's own cluster is not absent |
| Allocator.MarkerInput | kernel/arch/memory.rs:267-277 | With only that cluster absent and all others free, it does not |
| Allocator.ClaimedSizes | kernel/arch/memory.rs:251-265 | `alloc_size` of a fresh allocation is the request in whole clusters, and of every other unchanged |
| Allocator.StepKeeps | kernel/arch/memory.rs:181-308 | Every request keeps the used clusters cut into runs tagged with their own base, and everyone else's clusters; a failing `realloc` has freed the old block |
| Allocator.RunKeeps | kernel/arch/memory.rs:319-345 | Over every run of requests the table stays so, and used plus free memory never changes |
| Allocator.RunLeavesAlone | kernel/arch/memory.rs:181-308 | An allocation no request names is untouched by any run |
| PhysicalMemory.Memmove | crates/system/externs.rs:30-47 | Copying is right for any overlap, and changes nothing else |
| PhysicalMemory.Memory.FindRun | kernel/arch/memory.rs:216-233 | The scan finds the first aligned run of free clusters that is long enough, or there is none |
| PhysicalMemory.Memory.AllocAligned | kernel/arch/memory.rs:181-245 | Allocation returns 0 exactly when no run fits, else the first one, zeroed and tagged; no other byte changes |
| PhysicalMemory.Memory.SizeOf | kernel/arch/memory.rs:251-265 | The scan measures the run based at the address |
| PhysicalMemory.Memory.Free | kernel/arch/memory.rs:267-277 | The loop in place frees what `UnallocFrees` speaks of |
| PhysicalMemory.Memory.Reallocate | kernel/arch/memory.rs:283-308 | A successful `realloc` carries over the first bytes, as many as both blocks have, and never changes a byte of any live allocation |
| PhysicalMemory.Memory.MemoryUsed | kernel/arch/memory.rs:319-331 | The count of used memory |
| PhysicalMemory.Memory.MemoryFree | kernel/arch/memory.rs:333-345 | The count of free memory |
| PhysicalMemory.AllocIsApart | kernel/arch/memory.rs:181-212 | New memory overlaps no allocation's bytes |
| AddressSpace.UnmapLaid | kernel/arch/context.rs:738-745 | Unmapping the space a table shows gives the identity map back, whatever overlaps |
| AddressSpace.SwitchLays | kernel/arch/context.rs:150-168 | One switch turns the old context's table into the new one's |
| AddressSpace.LaidShows | kernel/arch/context.rs:387-406 | In a good space every page shows the one mapping that has it, or itself |
| AddressSpace.TranslateAgrees | kernel/arch/context.rs:636-650 | For every range `translate` accepts, the page table shows the answered byte at each of its addresses if and only if every page the range touches leads as far as the answer does |
| AddressSpace.TranslateInside | kernel/arch/context.rs:636-650 | So it does for every range within the stack or within one mapping |
| AddressSpace.TranslateSplit | kernel/arch/context.rs:643-647 | A range across two mappings is accepted, and the table disagrees from the boundary on |
| AddressSpace.ByteShown | kernel/arch/context.rs:387-406 | What the table shows at an address is shifted by a distance exactly when the page is held by a mapping of that distance, or by none and the distance is 0 |
| AddressSpace.TranslatePastStack | kernel/arch/context.rs:636-642 | An empty range behind the stack is accepted and does not agree |
| AddressSpace.NextMem | kernel/arch/context.rs:621-633 | The next address is at or above the last page of every mapping, and the end of one of them |
| AddressSpace.GoodIffFits | kernel/syscall/memory.rs:78-127 | A mapping changed in place leaves the space sorted and disjoint exactly when it ends before the next mapping and clear of the stack |
| AddressSpace.GoodIffAppended | kernel/syscall/memory.rs:52-76 | So does a new mapping at the next address, exactly when it is below the table's end and clear of the stack |
| AddressSpace.PatchLays | kernel/syscall/memory.rs:84-102 | Unmapping, changing and mapping one entry gives the table of the changed space |
| AddressSpace.DropLays | kernel/syscall/memory.rs:129-146 | Dropping one entry gives the table of the space without it |
| MemoryCalls.StepPages | kernel/syscall/memory.rs:8-146 | After a switch or any memory call the page table is the identity overlaid with exactly the current stack and mappings, and all spaces are sorted and page-disjoint, if and only if there was room for what the call maps |
| MemoryCalls.RunPaged | kernel/syscall/memory.rs:8-146 | So it is after every step of any run of switches and memory calls that have room |
| MemoryCalls.RoomWithinPages | kernel/syscall/memory.rs:78-127 | A mapping that stays within the pages it holds always has room |
| Overlap.OverlapReached | kernel/syscall/memory.rs:52-127 | A run of an allocation, a shrinking, and another allocation, all with room, after which growing back in place puts two mappings on one page |
| MemoryCalls.PagedTranslates | kernel/arch/context.rs:636-650 | In every such state `translate` agrees with the page table on every single address it accepts for the current context, and on a range exactly when all its pages lead as far |
| MemorySyscalls.Machine.MapMemory | kernel/arch/context.rs:388-398 | The loop writes exactly the entries of the mapping's pages |
| MemorySyscalls.Machine.UnmapMemory | kernel/arch/context.rs:400-405 | The loop resets exactly the mapping's pages to themselves |
| MemorySyscalls.Machine.SwitchTo | kernel/arch/context.rs:150-168 | The loops of a switch leave the table the model's switch step does |
| MemorySyscalls.Machine.CleanMemory | kernel/arch/context.rs:675-677 | Empty mappings are dropped in order, each freeing the memory it owns |
| MemorySyscalls.Machine.Brk | kernel/syscall/memory.rs:8-50 | `brk` is the model's step, returns the new end or the next address, carries the segment's bytes over and changes no byte of any allocation |
| MemorySyscalls.Machine.Alloc | kernel/syscall/memory.rs:52-76 | The same for `alloc`, whose memory is zero |
| MemorySyscalls.Machine.Realloc | kernel/syscall/memory.rs:78-106 | The same for `realloc`, which keeps the bytes both sizes have |
| MemorySyscalls.Machine.ReallocInplace | kernel/syscall/memory.rs:108-127 | The same for `realloc_inplace`, which returns what the block can hold |
| MemorySyscalls.Machine.Unalloc | kernel/syscall/memory.rs:129-146 | The same for `unalloc` |
| Ownership.StepBacked | kernel/syscall/memory.rs:8-146 | Every call leaves each owning mapping an allocation to itself that covers all its pages, with room or without, if and only if it is not a `realloc` of a lent block that cannot stay and has an owner |
| Ownership.RunBacked | kernel/syscall/memory.rs:8-146 | Over any run it is so after every step exactly when no step is such a call |
| Ownership.LentBlockLost | kernel/syscall/memory.rs:78-106 | An input: a lent block, reallocated by who it was lent to, is gone for its owner |
| Ownership.Isolation | kernel/arch/context.rs:387-414 | Two pages that two contexts can use show the same frame only if they are the same page of a memory they share, or one of them is a page that was lent |
| Ownership.ReallocSpares | kernel/arch/memory.rs:283-308 | Reallocation gives a block that was nobody else's, and leaves every other block's size |
| SchemeRpc.BeginKeeps | kernel/fs/scheme.rs:182-204 | Beginning a call keeps every earlier window in place and the server's own memory as it was, with the new window at an address of its own, if and only if the window fits, is not empty, and the server has memory |
| SchemeRpc.WindowShows | kernel/fs/scheme.rs:182-206 | While a call waits, each byte address of its window leads the server, by `translate` and by the page table, to the client's byte |
| SchemeRpc.SameByte | kernel/fs/scheme.rs:182-206 | For every buffer `translate` accepts, server and client see the same physical byte throughout it, if and only if every page of it leads as far as its start does |
| SchemeRpc.SameByteInside | kernel/fs/scheme.rs:182-206 | So they do for every buffer within one mapping of the client |
| SchemeRpc.SplitBufferDiffers | kernel/fs/scheme.rs:182-206 | For a buffer across two mappings they do not |
| SchemeRpc.EndKeeps | kernel/fs/scheme.rs:208-215 | Ending a call takes away exactly its own window |
| SchemeRpc.OwnChangeKeeps | kernel/syscall/memory.rs:78-146 | Windows survive the server's own memory calls |
| SchemeRpc.WriteOrderly | kernel/fs/scheme.rs:310-324 | The exchange stays in order (every call in exactly one of queued, read, answered) exactly when the server answers calls it has read |
| SchemeRpc.StepKeeps | kernel/fs/scheme.rs:42-65 | Every step of clients and server keeps windows and exchange in order, the server's own memory except by its own calls, and an answer until its client takes it |
| SchemeRpc.RunKeeps | kernel/fs/scheme.rs:92-224 | So it is after any interleaving of several clients' calls |
| SchemeRpc.RunRestores | kernel/fs/scheme.rs:208-215 | When all calls are over the server's mappings are what they were before the first |
| SchemeRpc.EmptyWindowCollides | kernel/fs/scheme.rs:182-215 | An empty buffer at a page boundary makes another client's clean-up take the wrong window |
| SchemeRpc.ZeroWindowStays | kernel/fs/scheme.rs:187-221 | The window for a server without memory stays behind, though the call fails |
| SchemeServer.SchemeInner.Lending | kernel/fs/scheme.rs:375-396 | The first half of `open`, with its error when the window lies at 0 |
| SchemeServer.SchemeInner.LendingBuffer | kernel/fs/scheme.rs:182-223 | The first half of a call with a buffer: refused if it cannot be translated, else the window and the packet with file, address and length |
| SchemeServer.SchemeInner.Collect | kernel/fs/scheme.rs:204-217 | The second half: the answer of exactly this id and the clean-up, or nothing while there is no answer |
| SchemeServer.SchemeInner.Read | kernel/fs/scheme.rs:286-307 | The server gets the oldest packets in order, as many as fit and are there, or an error for a short buffer |
| SchemeServer.SchemeInner.Write | kernel/fs/scheme.rs:310-324 | Every whole packet of the buffer becomes the answer of its id, later ones over earlier ones |
| LentWindows.LendingLends | kernel/fs/scheme.rs:137-154 | A call with a buffer inside one owned mapping of its client begins with a window inside the block that mapping owns |
| LentWindows.WindowOwner | kernel/fs/scheme.rs:137-154 | While a window lies in a block, an owned page with one of the window's frames is a page of the mapping that owns the block |
| LentWindows.CallLends | kernel/syscall/memory.rs:8-146 | Through any memory call of any context a window that stays listed stays in its client's block exactly when the call does not free or move that block for the client's own memory, or reallocate another window onto its beginning out of it; and it stays listed unless the call is about it |
| LentWindows.StepLends | kernel/fs/scheme.rs:137-224 | So it does when other windows are lent and returned; page table and single owner stay |
| LentWindows.WaitLends | kernel/fs/scheme.rs:169-190 | Over any run with room: the window lies in its client's block all the time if and only if it is listed all the time and nothing frees, moves or takes away that block |
| LentWindows.EventBacked | kernel/fs/scheme.rs:137-224 | Lending and returning leave each owned mapping its own allocation; a call does exactly when it moves no lent block away |
| LentWindows.ThreadFrees | kernel/syscall/memory.rs:132-146 | A thread that frees what another one has lent: the window is still there, and its block is not |
| LentWindows.WindowStolen | kernel/syscall/memory.rs:81-105 | A server that reallocates one of two windows onto a page frees it under the client; the other window is still there |
| Paths.Interleaving | libstd/src/path.rs:846-939 | For every path and every interleaving of the two ends, front results, what is left, and back results reversed are the component list |
| Paths.Exhausted | libstd/src/path.rs:846-939 | Once an end returns nothing, front and reversed back results are the whole list, nothing lost, repeated or reordered |
| Paths.Components.constructor | libstd/src/path.rs:1744-1755 | A fresh iterator owes exactly the path's components |
| Paths.Components.Next | libstd/src/path.rs:846-894 | Returns the first component owed, and terminates |
| Paths.Components.NextBack | libstd/src/path.rs:897-939 | Returns the last component owed, and terminates |
| Paths.Components.TrimLeft | libstd/src/path.rs:762-771 | Trimming leaves what is owed |
| Paths.Components.TrimRight | libstd/src/path.rs:774-783 | The same from the right, cutting only at the end |
| Paths.Components.AsPath | libstd/src/path.rs:688-697 | What is left, read as a path, has exactly the components still owed |
| Paths.Components.ParseNextComponent | libstd/src/path.rs:740-748 | The first piece's size splits the body's components |
| Paths.Components.ParseNextComponentBack | libstd/src/path.rs:751-759 | The last piece begins behind the last separator of the body |
| Paths.BodyJoin | libstd/src/path.rs:740-759 | Splitting distributes over a separator |
| Paths.JoinComps | libstd/src/path.rs:1042-1070 | Joining a relative path appends its components, its leading `.` dropped; with an absolute one, or an empty base, the path itself remains |
| Paths.PathBuf.Push | libstd/src/path.rs:1042-1070 | Pushing in place is joining |
| Paths.IterAfter | libstd/src/path.rs:388-404 | Succeeds exactly when the components of the one begin those of the other, and leaves the rest |
| Paths.StripPrefix | libstd/src/path.rs:1561-1566 | Succeeds exactly on component prefixes; base joined with the result has the original's components |
| Paths.Parent | libstd/src/path.rs:1502-1510 | There is a parent exactly when the last component is not the root; it has all components but the last |
| Paths.FileName | libstd/src/path.rs:1531-1538 | There is a file name exactly when the last component is a normal one, which it is |
| Paths.ParentJoinsFileName | libstd/src/path.rs:1502-1538 | Parent joined with file name has the original's components |
| Images.Rect.Container | crates/orbital/rect.rs:52-62 | Covers every point either rectangle covers |
| Images.Rect.Intersection | crates/orbital/rect.rs:91-98 | Covers exactly the points both cover, and lies within both |
| Images.BlendRoi | crates/orbital/image.rs:98-119 | The rows loop blends exactly the pixels of the region, each once |
| Images.Blit | crates/orbital/image.rs:121-126 | The rows loop copies exactly the pixels of the region |
| Images.SetRoi | crates/orbital/image.rs:128-144 | The rows loop blends one colour into exactly the region |
| Compositor.ScheduledCovers | crates/orbital/main.rs:42-57 | Merging redraw rectangles never loses a pixel |
| Compositor.MoveWindowTracks | crates/orbital/main.rs:186-212 | Dragging changes the picture only where a redraw is pending |
| Compositor.MoveCursorTracks | crates/orbital/main.rs:170-178 | So does moving the cursor |
| Compositor.RaiseTracks | crates/orbital/main.rs:219-245 | So does bringing a window to the front, the focus colours of both title bars included |
| Compositor.OpenWindowTracks | crates/orbital/main.rs:311-324 | So does opening a window |
| Compositor.WriteWindowTracks | crates/orbital/main.rs:335-342 | So does writing into a window |
| Compositor.CloseWindowTracks | crates/orbital/main.rs:352-369 | So does closing one |
| Orbital.EventTracks | crates/orbital/main.rs:152-264 | So does every input event |
| Orbital.StepSynced | crates/orbital/main.rs:108-369 | After every step each pixel outside the pending redraws is that of the full picture; after a redraw every pixel is |
| Orbital.RunSynced | crates/orbital/main.rs:108-369 | So it is through any run: incremental repaint refines full repaint |
| Orbital.InitiallySynced | crates/orbital/main.rs:79-98 | At the start everything is pending |
| Orbital.DrawTitle | crates/orbital/window.rs:56-91 | The title bar and its glyphs, cut to the rectangle, and nothing else |
| Orbital.DrawBody | crates/orbital/window.rs:93-99 | The window's pixels, cut to the rectangle, and nothing else |
| Orbital.OrbitalScheme.Schedule | crates/orbital/main.rs:42-57 | The loop in place merges as the model does |
| Orbital.OrbitalScheme.OnEvent | crates/orbital/main.rs:152-264 | Events change the state as the model does, and keep screen and picture in step |
| Orbital.OrbitalScheme.Open | crates/orbital/main.rs:268-325 | The same for opening; the id is fresh |
| Orbital.OrbitalScheme.Write | crates/orbital/main.rs:335-342 | The same for writing, returning how many pixels were taken |
| Orbital.OrbitalScheme.Close | crates/orbital/main.rs:352-369 | The same for closing |
| Orbital.OrbitalScheme.PaintRect | crates/orbital/main.rs:116-131 | Background, windows back to front and cursor give the full picture inside the rectangle and leave the rest |
| Orbital.OrbitalScheme.Redraw | crates/orbital/main.rs:108-150 | Redrawing repaints and sends exactly the pending pixels; if the rest was right, the whole screen now is |
| Extents.PassReads | kernel/schemes/file.rs:102-163 | After `sync` a file reads as the part of the buffer the first usable extent took, followed by zeros up to what found room |
| Extents.RoundTrip | kernel/schemes/file.rs:102-163 | Sync and read back give the buffer exactly when there is room for all of it and only zeros lie behind the first share |
| Extents.RoundTripFails | kernel/schemes/file.rs:102-163 | A buffer one byte longer than a full disk has room for does not come back |
| Extents.FitsFirst | kernel/schemes/file.rs:102-163 | In particular when the first extent has, or gets, room for everything |
| Extents.PassFrame | kernel/schemes/file.rs:134-146 | A sync writes nothing outside the file's extents and the free space |
| Extents.FreeConserved | kernel/schemes/file.rs:108-132 | Free start plus free length never changes |
| Nodes.Data | kernel/fs/redoxfs/node.rs:39-54 | The loop fills the field with the name, cut off or padded with zeros |
| Nodes.New | kernel/fs/redoxfs/node.rs:22-37 | The loop reads the field up to its first zero |
| Nodes.NameRoundTrip | kernel/fs/redoxfs/node.rs:22-54 | A name survives exactly when it has at most 256 bytes, none of them zero |
| Nodes.SectorRoundTrip | kernel/fs/redoxfs/node.rs:7-54 | So does a node written to its 512-byte sector and read back, extents as 64-bit words included |
| Nodes.NamesLost | kernel/fs/redoxfs/node.rs:22-54 | A name of 257 bytes and one with a zero, which do not |
| FileStore.SyncKeeps | kernel/schemes/file.rs:102-199 | Sync keeps the store sound: every file's sectors are its own, apart from each other and from the free run |
| FileStore.SyncIsolated | kernel/schemes/file.rs:102-199 | Syncing one file never changes what reopening another reads |
| FileStore.SyncSparesNodes | kernel/schemes/file.rs:165-185 | Nor another file's node sector |
| FileStore.SyncRoundTrip | kernel/schemes/file.rs:294-322 | Write, sync, reopen by name, for every handle whose extents are the listed ones or get listed by the sync: the same bytes exactly when there is room and only zeros lie behind the first share |
| FileStore.SyncReads | kernel/schemes/file.rs:165-185 | Whatever the handle, opening its file after the sync reads its new extents if they were listed, else the listed ones, from the disk as the sync left it |
| FileStore.StaleInvisible | kernel/schemes/file.rs:165-185 | A sync by another handle changes nothing that opening the file reads, if it shares no sector with the listed extents |
| StaleHandles.TooLongLost | kernel/schemes/file.rs:102-199 | A listed handle with one byte too many does not get its bytes back |
| StaleHandles.FreshRoundTrip | kernel/schemes/file.rs:102-199 | The first sync of a new file up to a sector long always does, however many handles there are |
| StaleHandles.TwoHandles | kernel/schemes/file.rs:165-185 | For any contents of one length: when two handles on a new file sync in turn and the first rewrites and syncs again, opening the file reads what the second had |
| StaleHandles.StaleSyncLost | kernel/schemes/file.rs:165-185 | A concrete run of that |
| EveryBuffer.SavesAllIff | kernel/schemes/file.rs:102-199 | A handle saves every buffer of its length exactly when the first extent that can take any of it takes all, and the sync lists the handle's extents or the listed ones read the same places |
| EveryBuffer.PassBytes | kernel/schemes/file.rs:102-163 | The whole disk after a sync, byte by byte: the buffer's bytes in the first share, zeros in the other sectors written, elsewhere what was there |
| EveryBuffer.SavedIff | kernel/schemes/file.rs:102-322 | For every handle with something to save: sync and reopen give the buffer exactly when, if the sync lists the handle's extents, the buffer fits, and else the bytes left where the listed ones read are the buffer's |
| FileRuns.StepSound | kernel/schemes/file.rs:250-364 | Every call keeps the store sound and every sector's owner, and only moves the start of the free run |
| FileRuns.StepIsolated | kernel/schemes/file.rs:250-453 | A call that is not about a path leaves what opening the path gives: contents, listing or nothing |
| FileRuns.RunSound | kernel/schemes/file.rs:102-200 | Over every run no sector is handed out twice and free start plus length is constant |
| FileRuns.RunIsolated | kernel/schemes/file.rs:294-362 | A path reads the same over any run without a call about it |
| FileRuns.SeekSavedIff | kernel/schemes/file.rs:87-103 | After a seek past the end, sync and reopen give the lengthened buffer exactly when something else was waiting to be saved and the buffer meets the condition of any round trip |
| FileRuns.SeekNotSaved | kernel/schemes/file.rs:87-103 | So for every handle with nothing else to save it does not come back |
| FileRuns.JustOpened | kernel/schemes/file.rs:294-322 | Every handle just opened on a file is one of those |
| FileResources.FileResource.Read | kernel/schemes/file.rs:56-67 | Reads on from the seek position, to the end at most |
| FileResources.FileResource.Write | kernel/schemes/file.rs:69-85 | Overwrites up to the end of the buffer and appends the rest |
| FileResources.FileResource.SeekTo | kernel/schemes/file.rs:87-99 | Never before the start; past the end the buffer is filled with zeros |
| FileResources.FileResource.Truncate | kernel/schemes/file.rs:202-210 | Cuts off or fills up, and pulls the seek position in |
| FileResources.FileResource.Sync | kernel/schemes/file.rs:102-199 | The loops in place are the pass of the theorems, then the node's sector and list entry if anything changed; an error exactly when something found no room |
| FileResources.FileScheme.Unlink | kernel/schemes/file.rs:431-453 | Removes every node of that name, in place, and no other; an error exactly when there was none |
| FileResources.FileScheme.ReadAll | kernel/schemes/file.rs:294-313 | The buffer `open` fills is the file's contents |
| Division.DividesIff | crates/system/externs.rs:85-182 | The quotient is right exactly when some doubling of the divisor reaches the reduced dividend without wrapping; then the remainder is right too |
| Division.KeptDivides | crates/system/externs.rs:145-182 | Once the doubling wraps, the routine divides by the bits of the divisor that were not shifted out; if there are none, the dividend is the remainder |
| Division.RemainderIff | crates/system/externs.rs:85-109 | The remainder is right exactly when a doubling reaches without wrapping, or the kept bits are not 0 and leave the same remainder |
| Division.LuckyRemainder | crates/system/externs.rs:85-109 | A dividend and divisor for which they do, with the quotient wrong |
| Division.SmallReaches | crates/system/externs.rs:85-182 | Which it does for dividends up to 2^63 and for divisors up to 2^31 |
| Division.WrapInput | crates/system/externs.rs:85-182 | The largest dividend by 2^32 + 1, a factor of it, is not reached: quotient 0 and the dividend as remainder come back |
| Division.ShrinkExact | crates/system/externs.rs:160-179 | From an exact multiple the halving loop divides |
| Division.WrapIsWrong | crates/system/externs.rs:155-158 | Once the doubling wraps, the quotient is wrong |
| Division.Udivremi3 | crates/system/externs.rs:145-182 | Terminates with the quotient and remainder the theorem speaks of |
| Division.Udivdi3 | crates/system/externs.rs:112-141 | Agrees with it on the quotient |
| Division.Umoddi3 | crates/system/externs.rs:85-109 | Agrees with it on the remainder |
| Checksum.SumSplits | kernel/network/common.rs:217-231 | Behind an even number of bytes a message may be cut and summed in parts |
| Checksum.PartsSum | kernel/network/schemes/tcp/main.rs:141-149 | A pseudo-header and segment summed part by part |
| Checksum.Fold | kernel/network/common.rs:233-237 | Folding ends, fits a word, keeps the sum modulo 65535, and is 0 only for 0 |
| Checksum.ChecksIff | kernel/network/common.rs:188-207 | A message checks exactly when its words sum to a multiple of 65535 other than 0 |
| Checksum.StoredChecks | kernel/network/common.rs:209-215 | Storing the compiled sum at an even offset makes the message check, and any other word that does stands for the same number |
| Checksum.ReplyChecks | kernel/network/schemes/icmp.rs:76-84 | So does an ICMP answer, header and data summed apart |
| Checksum.Check | kernel/network/common.rs:188-207 | The loops decide exactly that |
| Checksum.SumOf | kernel/network/common.rs:217-231 | The loop adds up the words, an odd last byte as a word |
| Checksum.CompileSum | kernel/network/common.rs:233-239 | The loop gives the complement of the folded sum |
| Checksum.Calculate | kernel/network/common.rs:209-215 | In place, the message then checks, and only the checksum's bytes changed |
| Dma.TableEnds | kernel/disk/ide.rs:433-465 | At least one and at most 512 descriptors, the end mark on the last only |
| Dma.ChunkLands | kernel/disk/ide.rs:433-465 | Whatever the table held before, the descriptors up to the end mark send each byte of a chunk to the matching byte of the buffer, in order |
| Dma.TransferIsExact | kernel/disk/ide.rs:501-531 | A whole transfer moves exactly the given blocks to or from exactly the given buffer, byte by byte |
| Dma.StraddlesIff | kernel/disk/ide.rs:433-465 | No descriptor crosses a 64 KiB boundary exactly when the buffer begins on one or lies within one block |
| Dma.StraddleInput | kernel/disk/ide.rs:433-465 | A full descriptor for a buffer in the middle of a block does cross one |
| Dma.Driver.Fill | kernel/disk/ide.rs:433-465 | The loop writes the descriptors and leaves the rest of the table |
| Dma.Driver.Transfer | kernel/disk/ide.rs:501-531 | The loop issues the chunks in order up to the first the device refuses; nothing for an empty request or address 0 |

## Left out

- Register save and restore, kernel stacks, the CR3 and TLB handling, interrupt stubs: a switch is a change of the current context.
- Wrapping of addresses and sizes at 32 bits: `cluster_to_address`, `ptr + len` in `translate`, `addr` of a descriptor, the sum of a checksum, and i32 coordinates are unbounded here.
- Reuse of pids: `next_pid` wraps at 65536; the process-tree theorems hold until a pid is used again, the scheduling ones always.
- Wrapping of a scheme's packet ids, and servers that exit while calls are waiting.
- Failing allocations inside spawn, sync and the copies clone makes, and failing disk writes, which the code ignores.
- `execute`, ELF parsing and the copying of memory in `clone`: a context's mappings are given, sorted and page-disjoint.
- Dropping the memory of a context that is removed, and the pages the kernel maps or unmaps for itself at boot.
- Threads that call a scheme served by a thread sharing their own memory: the page table then lags behind the window.
- FileStore.SyncRoundTrip: a handle whose extents are neither listed nor get listed is not its case; `EveryBuffer.SavedIff` has them all.
- Syscalls.Env.CloneContext: the copies of the parent's memory, files and working directory are not made.
- Orbital.OrbitalScheme.constructor: the background has the screen's size, as the code's own drawing assumes; the code takes a bitmap of any size.
- LentWindows.LendingLends: a path, which is on the kernel's heap, and a buffer across two mappings are not lent from one block.
- Orbital.OrbitalScheme.Open: position, size and title are given instead of parsed from the path, and ids do not wrap.
- The file system header: the code never writes it back, so files created since boot are not found at the next one.
- Fsync of a file with no node sector: such a file has no extents either, and its contents stay in its buffer.
- Orbital's sockets, event queues of windows, the delayed packets of its main loop, and reading window events: they change no pixel.
- Windows prefixes and verbatim paths: not the platform.
- Console, drivers, ACPI, the paged tables of `Pager`, port and PIO transfers: hardware behaviour without a pure core.
- `memcpy`, `memcmp`, `Ipv4Addr`, `MacAddr`, `Url` and similar helpers: easy members.
