# vcEngine core, modelled in Dafny

This project models the sequential bookkeeping at the centre of the vcEngine
game engine (luchsj/vcEngine, a C/C++ Windows engine). It then proves what
that bookkeeping promises. The model covers five components:

- **The debug subsystem** (`debug.dfy`, module `Debug`):
  - the print-mask gate of `debug_print`;
  - the allocation-trace table. It has 20 buckets chosen by `address % 20`. Each bucket is a fixed array of 128 record slots with a count of the slots in use.
  - The operations are initialisation, record, remove, lookup and the frame-printing loop of `debug_print_trace`. The file's globals are the fields and arrays of the class `DebugSystem`.
- **The heap** (`heap.dfy`, module `Heaps`):
  - creation, and allocation with one growth arena and one retry;
  - free, and the teardown walk over the linked list of arenas.
  - The TLSF allocator is a library, so it is reduced to the set of blocks it has handed out. Its answers are parameters that obey its contract.
- **The asynchronous file system** (`fs.dfy`, module `FileSystem`):
  - work items, shown as the class `Work`, and the file queue, shown as a FIFO sequence on the class `Fs`. A NULL entry is the sentinel. The completion event is a flag.
  - `file_read`, `file_write` and the file-thread loop, all over an in-memory file map. Each operating-system call may fail, and a `Fault` parameter says which call fails.
  - The worker loop is proved against `ServeAll`, a left fold of the per-item service function over snapshots of the items' fields.
- **The duration tracer** (`trace.dfy`, module `Tracing`): the active flag, the stack of open durations, the table of finished ones and their counters, kept in two arrays of 100 slots.
- **The selection rules of the GPU layer** (`gpu.dfy`, module `Gpu`):
  - the memory-type search and the graphics queue-family search;
  - the round-robin frame index;
  - the mesh element counts and the indexed/plain draw choice.
  - Vulkan's answers are parameters.

`common.dfy` (module `Common`) holds `Option` and the C integer arithmetic the
source relies on: `(int)` casts, truncating `/`, signed `%` and widths.

The model follows the code where the code cannot run. For example, it keeps the
brace-less `if` in `debug_system_init`, the records that `debug_remove_trace`
leaves behind, and the counters of `trace_duration_pop`. Where one of these
looks wrong, "## Findings" gives the input that shows it and a corrected member
with its proof.

## Model

| member | source | states |
|---|---|---|
| Common.ToInt32 | src/gpu.cpp:754-755 | `(int)` of an unsigned value is its low 32 bits as two's complement: in int range, congruent mod 2^32, and unchanged below 2^31 |
| Common.CDiv | src/gpu.cpp:754-755 | C division truncates toward zero: bounds of the quotient times the divisor for both signs of the dividend |
| Common.CMod | src/fs.c:202-205 | C `%` takes the sign of the dividend, with magnitude below the divisor's |
| Common.CDivMod | src/gpu.cpp:754-755 | C's `/` and `%` fit together: `(a / b) * b + a % b == a` for a positive divisor, which with the bounds fixes both values |
| Debug.Emits | src/debug.c:68 | a message is emitted only when both the mask and its type are non-zero |
| Debug.AddrHash | src/debug.c:31-34 | every address maps to a bucket below HASH_SIZE (20); an address below 20 is its own bucket |
| Debug.Captured | src/debug.c:147-153 | a stored stack holds at most STACK_TRACE_SIZE (10) frames and is the prefix of what the capture delivers |
| Debug.FreshBucket | src/debug.c:105-111 | a bucket made by init has STACK_COUNT_MAX (128) slots, none holding a traced address |
| Debug.FirstMatch | src/debug.c:189-198 | the index of the first slot in use holding the address, below the count, with no earlier match; None exactly when no slot in use holds it |
| Debug.RemoveAsWritten | src/debug.c:163-179 | no match: bucket and count unchanged; otherwise the first match's address becomes 0 (its size and stack kept), the count drops by one and every other slot is unchanged |
| Debug.RemoveCompacting | src/debug.c:163-179 | corrected removal: no match changes nothing, a match drops the count by exactly one |
| Debug.LiveHasMatch | src/debug.c:167-169 | the lookup finds an address exactly when it is in the multiset of addresses in use |
| Debug.RemoveCompactingLive | src/debug.c:163-179 | the corrected removal takes exactly one occurrence of the address out of the addresses in use and keeps all others |
| Debug.RemoveCompactingRemovesOne | src/debug.c:163-179 | the corrected removal takes exactly one occurrence of a found address out of the addresses in use, and leaves them unchanged when it is absent |
| Debug.RemoveCompactingKeepsOthers | src/debug.c:163-179 | after the corrected removal, every other address that was found is still found |
| Debug.RemoveAsWrittenLosesRecord | src/debug.c:174-176 | as written, after removing 20 from a bucket holding 20 and 40, the lookup no longer finds 40 |
| Debug.PrintFrames | src/debug.c:207-232 | frames are printed in order up to and including the first whose symbol is `main`; every frame when none is; never more than the stack holds |
| Debug.MaskGate | src/debug.c:17 | the initial all-ones mask passes every non-zero message type; a zero mask passes none |
| Debug.DebugSystem.constructor | src/debug.c:17-29 | program start: mask all ones, no table, all counts zero |
| Debug.DebugSystem.SetPrintMask | src/debug.c:61-64 | the mask is replaced wholesale |
| Debug.DebugSystem.Print | src/debug.c:66-69 | a message is emitted exactly when the gate `Emits` passes it under the current mask |
| Debug.DebugSystem.Init | src/debug.c:91-114 | the table exists afterwards iff SymInitialize succeeded and the calloc did, else it is what it was; on success every bucket is fresh with count 0 and capacity 128; on failure no bucket changes |
| Debug.DebugSystem.RecordTrace | src/debug.c:122-161 | no table: nothing changes; bucket count >= capacity-1: nothing changes; otherwise the record (address, size, at most 10 frames) is stored at slot count, and only that bucket's count rises by one |
| Debug.DebugSystem.FindTrace | src/debug.c:189-198 | the lookup loop returns FirstMatch of the address's bucket |
| Debug.DebugSystem.RemoveTrace | src/debug.c:163-180 | the address's bucket becomes RemoveAsWritten of it; all other buckets are unchanged |
| Debug.DebugSystem.RemoveTraceCompacting | src/debug.c:163-180 | corrected removal on the table: the bucket becomes RemoveCompacting of it, its addresses in use lose exactly one occurrence of the address, other buckets unchanged |
| Debug.DebugSystem.PrintTrace | src/debug.c:182-233 | NotFound exactly when no slot in use matches; otherwise the first match's size, and its frames printed up to the first `main` |
| Heaps.ArenaSize | src/heap.c:55 | when the size_t arithmetic does not wrap, a growth arena is `max(grow_increment, 2*size) + 16` bytes |
| Heaps.GrowthCoversRequest | src/heap.c:55 | a growth arena's usable part covers twice the request and the grow increment |
| Heaps.Arena.constructor | src/heap.c:62-63 | an arena records its pool and links to the old head |
| Heaps.LinkedPrepend | src/heap.c:62-64 | a new arena put before the head gives a list that is still linked, with every arena in it once |
| Heaps.Heap.Init | src/heap.c:41-44 | a new heap keeps the grow increment, has no arenas and no live blocks |
| Heaps.Heap.Create | src/heap.c:32-46 | NULL exactly when the OS refuses the region; otherwise a fresh empty heap with the grow increment |
| Heaps.Heap.Alloc | src/heap.c:48-73 | first attempt succeeds: that block, no arena added; else the OS refuses: NULL, list unchanged; else a fresh arena of ArenaSize is linked in at the head, the old list behind it in order, and the retry's answer is returned; any block returned was not live, is aligned and becomes live |
| Heaps.Heap.Free | src/heap.c:75-78 | the block is no longer live |
| Heaps.Heap.Destroy | src/heap.c:88-106 | arenas are released in list order, each exactly once, then the heap itself |
| FileSystem.DwordCount | src/fs.c:171-172 | the `(DWORD)` byte count is the size modulo 2^32: below 2^32, congruent to the size, and equal to it when it fits |
| FileSystem.Payload | src/fs.c:226 | a write hands over the first `size` bytes of the caller's buffer |
| FileSystem.ServeRead | src/fs.c:145-200 | reading never changes an item's op, path or flags |
| FileSystem.ServeWrite | src/fs.c:208-249 | writing never changes an item's op, path, flags or buffer |
| FileSystem.Serve | src/fs.c:262-270 | serving an item keeps its op and path; a read leaves the files unchanged; no file other than the item's own path changes |
| FileSystem.Disk.constructor | src/fs.c:154 | the file layer CreateFile, ReadFile and WriteFile act on starts with the given contents |
| FileSystem.ServeAll | src/fs.c:251-274 | serving a queue gives each item an outcome, in order |
| FileSystem.SentinelIndex | src/fs.c:254-260 | the worker stops at the first NULL; every item before it is a real item |
| FileSystem.SentinelAppend | src/fs.c:58 | the NULL that fs_destroy pushes at the back does not move where the worker stops |
| FileSystem.ReadOutcome | src/fs.c:148-194 | a read fails iff path conversion, opening, sizing or ReadFile fails; every failure signals done with -1 for the path, ERROR_FILE_NOT_FOUND for a missing file, or the OS error code; a success sets size to the `(DWORD)` file length, holds those bytes followed by a zero byte iff null_terminate, and signals done iff there is no compression |
| FileSystem.WriteOutcome | src/fs.c:211-245 | a write fails iff path conversion, creation or WriteFile fails; failures signal done with -1 for the path or the OS error code; a failed WriteFile leaves the file created empty; a success stores the payload, sets size to the `(DWORD)` byte count and signals done iff there is no compression |
| FileSystem.ServeAllFrame | src/fs.c:251-274 | serving a queue leaves every file that no write item names unchanged |
| FileSystem.RoundTrip | src/main.c:77-86 | writing bytes and reading them back null-terminated: both results 0, both sizes the length, the read buffer the bytes plus a zero byte |
| FileSystem.RoundTripServed | src/main.c:77-86 | the same outcome read off the two work objects once the worker has served them |
| FileSystem.IsDone | src/fs.c:105-108 | a NULL item counts as done; otherwise the item's done flag |
| FileSystem.GetResult | src/fs.c:117-121 | -1 for a NULL item; otherwise the item's result |
| FileSystem.GetBuffer | src/fs.c:123-127 | NULL for a NULL item; otherwise the item's buffer |
| FileSystem.GetSize | src/fs.c:129-133 | 0 for a NULL item; otherwise the item's size |
| FileSystem.NullWorkAccessors | src/fs.c:105-133 | on a NULL item: is_done true, result -1, buffer NULL, size 0 |
| FileSystem.Work.constructor | src/fs.c:66-75 | an item starts with exactly the given fields |
| FileSystem.FileRead | src/fs.c:145-200 | the step-by-step read leaves the item with the fields ServeRead gives |
| FileSystem.FileWrite | src/fs.c:208-249 | the step-by-step write leaves the files and the item as ServeWrite gives |
| FileSystem.ServeItem | src/fs.c:262-270 | dispatch on `op`: read items are read, write items written |
| FileSystem.Fs.constructor | src/fs.c:47-54 | a new file system keeps its heap and queue capacity, with an empty queue |
| FileSystem.Fs.Read | src/fs.c:64-78 | a fresh item: op read, the path, the flags, the caller's heap, buffer NULL, size 0, result 0, not done; pushed at the back of the queue |
| FileSystem.Fs.Write | src/fs.c:80-103 | a fresh item: op write, the caller's buffer and size, no null terminator, result 0, not done; pushed iff compression is off |
| FileSystem.Fs.ServePending | src/fs.c:254-271 | the loop serves exactly the items before the first NULL, in order, as ServeAll does; the queue is left starting at the NULL |
| FileSystem.Fs.RunWorker | src/fs.c:251-274 | the items before the first NULL are served in FIFO order as ServeAll gives; later items' fields are untouched; the NULL is popped and what is behind it stays queued |
| FileSystem.Fs.Destroy | src/fs.c:56-62 | pushing the sentinel and joining the worker serves every item queued ahead of the first NULL, as ServeAll gives |
| FileSystem.GetHash | src/fs.c:202-205 | signed `%`: a non-negative address and positive bucket count give a bucket in range; a negative address gives a value <= 0 |
| FileSystem.WriteThenRead | src/main.c:77-86 | the engine's file test through the queue, the worker and the accessors: write result 0 and size n; read result 0, size n, buffer the bytes plus a zero byte; both done |
| Tracing.Duration.constructor | src/trace.c:70-74 | a duration gets its name and begin time |
| Tracing.Tracer.Create | src/trace.c:38-49 | capacity 100, both counts 0, tracer inactive |
| Tracing.Tracer.CaptureStart | src/trace.c:89-94 | the write path is recorded and the tracer is active |
| Tracing.Tracer.CaptureStop | src/trace.c:96-98 | the tracer is inactive |
| Tracing.Tracer.Push | src/trace.c:56-77 | duration_count at capacity: nothing changes; inactive: nothing changes; otherwise a fresh duration with the name and the time goes into active_durations[active_duration_count] and only that count rises by one (or the store would overflow the array) |
| Tracing.Tracer.PushChecked | src/trace.c:56-77 | corrected push: refused exactly when the stack is full or the tracer is inactive, and then nothing changes |
| Tracing.Tracer.PushTop | src/trace.c:70-76 | the store shared by both pushes: the new duration on top, the count one higher, other slots unchanged |
| Tracing.Tracer.Pop | src/trace.c:79-87 | neither count changes; the slot at active_duration_count is stamped, copied to durations[duration_count], and active_durations[duration_count] is cleared, or an out-of-bounds or NULL outcome when that is not possible, with both arrays unchanged; no other open duration's end time changes |
| Tracing.Tracer.PopCorrected | src/trace.c:79-87 | corrected pop: the top duration is stamped and moved to the next free finished slot; open count down one, finished count up one; a refused pop changes neither count nor array; no other open duration's end time changes |
| Tracing.PopAfterPush | src/trace.c:75-82 | as written, a pop right after a push reads the empty slot above the new top |
| Tracing.PushThenPopCorrected | src/trace.c:79-87 | with the corrected pop, push then pop leaves no open duration and one finished one, with the right name, begin and end |
| Tracing.FillStack | src/trace.c:70-76 | 100 pushes into a started tracer fill the stack and leave duration_count at 0 |
| Tracing.PushPastCapacity | src/trace.c:58-76 | as written, a 101st push passes the guard and would write past active_durations |
| Tracing.PushPastCapacityChecked | src/trace.c:58-62 | with the guard on the stack, the 101st push is refused |
| Tracing.PushAfterStop | src/trace.c:64-68 | a push after capture stop is refused and the stack stays empty |
| Gpu.GetMemoryTypeIndex | src/gpu.cpp:1430-1444 | the least index allowed by `bits` whose flags contain `properties`; 0 when none does |
| Gpu.FindGraphicsFamily | src/gpu.cpp:197-207 | the first family with a queue and the graphics bit, with its queue count; both UINT32_MAX when there is none |
| Gpu.HasDeviceQueueAsWritten | src/gpu.cpp:208-213 | the as-written test succeeds iff the first graphics family reports a queue count other than UINT32_MAX |
| Gpu.HasDeviceQueue | src/gpu.cpp:197-213 | the corrected test succeeds iff some family has a queue and the graphics bit, and then the index names such a family |
| Gpu.MissedFamily | src/gpu.cpp:208 | one graphics family with UINT32_MAX queues: the as-written test fails, the corrected one succeeds |
| Gpu.FrameRing.constructor | src/gpu.cpp:114 | the memset in gpu_create starts frame_index at 0; the ring has at least one frame |
| Gpu.FrameRing.FrameEnd | src/gpu.cpp:1216-1219 | the frame that ends is the current one; the index moves to the next frame, wrapping to 0, and stays below frame_count |
| Gpu.NextFrame | src/gpu.cpp:1219 | `(i + 1) % n` is i + 1, or 0 after the last frame |
| Gpu.Advance | src/gpu.cpp:1219 | any number of frame ends keeps the index below frame_count |
| Gpu.AdvanceWithinCycle | src/gpu.cpp:1219 | up to frame_count frame ends move the index that many places, wrapping at most once |
| Gpu.FrameRingCycles | src/gpu.cpp:1219 | each frame comes back after exactly frame_count frame ends and not sooner |
| Gpu.IndexSize | src/gpu.cpp:1375-1376 | both layouts use 2-byte indices (index size 2) |
| Gpu.VertexSize | src/gpu.cpp:1413-1414 | vertices are 12 bytes (position) or 24 bytes (position and colour), a whole number of 12-byte float triples |
| Gpu.MeshCounts | src/gpu.cpp:754-755 | for buffers below 2 GiB each count is the buffer size divided by the element size |
| Gpu.MeshCountsBounds | src/gpu.cpp:754-755 | for buffers below 2 GiB the counts are the number of whole elements; from 2 GiB to 4 GiB the int cast makes them <= 0 |
| Gpu.CmdBuffer.MeshBind | src/gpu.cpp:1289-1310 | after the bind, the command buffer's counts equal the mesh's |
| Gpu.CmdBuffer.Draw | src/gpu.cpp:1312-1322 | indexed iff index_count != 0; plain iff only vertex_count != 0; no draw iff both are 0 |
| Gpu.DrawMesh | src/gpu.cpp:754-755 | a mesh bound and drawn: below 2 GiB, indexed over all whole indices when there is one, else plain over all whole vertices, else nothing; an index buffer from 2 GiB to 4 GiB less 2 bytes gives an indexed draw whose uint32 count is at least 2^32 - 2^30 |
| Gpu.ToUint32 | src/gpu.cpp:1316-1320 | an int count passed as uint32_t keeps its value modulo 2^32: congruent to it, and unchanged in range |
| Gpu.CmdBuffer.constructor | src/gpu.cpp:565-566 | a command buffer starts with both counts 0, as the memset after its allocation leaves it |

## Left out

- Concurrency is left out: the file thread, events, the queue's locking and blocking. The queue is a sequence and `done` is a flag.
- FileSystem.Fs.RunWorker: `queue_pop` blocks on an empty queue. In the model the loop also ends when the queue runs empty, with `stopped` false.
- FileSystem.Fs.Read, FileSystem.Fs.Write: the queue capacity is recorded but not enforced, because a push to a full queue blocks rather than failing.
- Compression is not modelled; only the empty stubs' effect is kept. A compressed write is never queued, and a compressed read or write that succeeds never signals done.
- Operating-system calls are parameters. This covers VirtualAlloc/VirtualFree, MultiByteToWideChar, CreateFile, GetFileSizeEx, ReadFile, WriteFile and GetLastError codes (a `Fault` per item), plus SymInitialize, calloc and the record allocation.
- A missing file gives ERROR_FILE_NOT_FOUND (2). The file map is keyed by the exact path text, so Windows' case-insensitive names are not modelled, and a missing directory, for which CreateFile gives ERROR_PATH_NOT_FOUND (3), is also answered with 2.
- The TLSF library's internals are not modelled. `tlsf_create`, `tlsf_destroy`, `tlsf_add_pool` and `tlsf_walk_pool`, and `heap_walk`'s empty leak report, are reduced to the live-block set and the pool handle.
- Heaps.Heap.Alloc: the two `tlsf_memalign` answers are parameters that satisfy TLSF's contract. The model does not show that the retry succeeds in the new pool. The oracle also lets the first attempt on a fresh heap succeed, although `heap_create` (src/heap.c:35-42) gives TLSF only its control block, so there the first attempt always fails; the model allows more runs than the source, not fewer.
- The allocation of the fs, work and trace structures through `heap_alloc` always succeeds in the model; in the source a NULL there is dereferenced. The growth arena comes from VirtualAlloc (src/heap.c:56), which the model lets fail through `osOk`.
- FileSystem.FileRead: a read's buffer allocation always succeeds. VirtualAlloc's page rounding and `tlsf_pool_overhead` are not modelled.
- FileSystem.FileRead: on every read, a file of 4 GiB or more gets `(DWORD)` of its size read (src/fs.c:171-172). The model keeps only those bytes, as the source would.
- `fs_work_wait` and `fs_work_destroy` are left out. The accessors read the fields as they are once done is signalled, and freeing is not modelled.
- fs.c does not compile as shown: it uses both `work` and `item` in `file_read` and `file_write`, and has a stray brace in `fs_work_wait`. The model uses one work-item parameter. fs.h is truncated, so it is not part of this model.
- gpu.h is not part of this model. `gpu_mesh_info_t`'s data sizes are taken as 64-bit `size_t`.
- Vulkan object creation, the swapchain and rendering are left out. Only the selection rules over Vulkan's answers are kept.
- In debug.c, the exception handler, stack capture, symbol lookup and message formatting are left out. A captured stack is an opaque sequence of frames; a symbol name is a function parameter.
- Debug.DebugSystem.RecordTrace: the slot allocation at src/debug.c:141-143 tests an uninitialised slot value, which is undefined. `slotOk` stands for its outcome, and a slot that was never written is modelled as holding address 0.
- Debug.DebugSystem.PrintTrace: a record whose stack is empty comes back as a Leak with no frames. The source may take the not-found path there if `malloc(0)` returned NULL.
- Debug.DebugSystem.Print: `k_print_debug` is used by debug.c but not defined in debug.h. Message types are plain bit masks.
- Debug.DebugSystem.Init: when SymInitialize fails, `stack_record` keeps its previous value: NULL at start-up, or the old table after an earlier init.
- `debug_system_uninit` and the stack frames freed by `debug_remove_trace` are left out, since freeing is not modelled.
- Heap's `heap_create` allocates `stack_record` and heap.c has its own `addr_hash` (10 buckets). Neither is used by heap.c, so both are left out.
- The trace file writer in `trace_capture_stop` is left out: the JSON buffer, the `sprintf` calls and the length that never advances. So are `trace_destroy` and the name buffers sized `sizeof(size_t)`.
- Tracing.Tracer.Create: the arrays from `heap_alloc` are uninitialised in the source; the model starts every slot as NULL. trace.c never sets `trace->heap`.
- Tracing.Tracer.Push: the source writes past `active_durations` once it is full. The model reports StackOverflow instead and changes nothing.
- Tracing.Tracer.Pop: reads or writes outside the arrays, and the NULL dereference, get an outcome of their own and change nothing.
- The clock (`timer_get_ticks`) is a parameter.
- Debug.DebugSystem.FindTrace, Debug.DebugSystem.RemoveTrace, Debug.DebugSystem.RemoveTraceCompacting, Debug.DebugSystem.PrintTrace: they require a table or an empty bucket. With `stack_record` NULL and a non-zero count the source dereferences NULL.
- FileSystem.Fs.Read, FileSystem.Fs.Write: they require a path shorter than 1024 characters. A longer path makes `strcpy_s` fail into its constraint handler, which the model does not have.
- FileSystem.Fs.Write: it requires a buffer of at least `size` bytes. The source reads the caller's memory beyond a shorter one.

## Findings

| source | as written | input that shows it | evidently intended | confidence | as-written member | corrected member |
|---|---|---|---|---|---|---|
| src/debug.c:174-176 | removal zeroes the matched slot's address and decrements the count without moving any record, so the last record in use drops out of the counted prefix | a bucket holding 20 then 40; `debug_remove_trace(20)` leaves count 1 and slot 0 address 0, so 40 is no longer found | move the last record in use into the vacated slot, so the addresses in use lose exactly one occurrence | not executed | Debug.RemoveAsWrittenLosesRecord | Debug.RemoveCompactingLive |
| src/trace.c:81-86 | pop reads `active_durations[active_duration_count]`, one above the top, clears the slot at `duration_count`, and decrements then increments the same counter | a started tracer, one push, one pop: the slot read holds no duration and `temp->end_time` dereferences NULL | stamp the top (`active_duration_count - 1`), move it to `durations[duration_count]`, one count down, the other up | not executed | Tracing.PopAfterPush | Tracing.PushThenPopCorrected |
| src/trace.c:58 | the capacity guard tests `duration_count`, which no push raises, not the stack being written | a started tracer given 101 pushes: the 101st passes the guard and stores at `active_durations[100]` | guard on `active_duration_count` | not executed | Tracing.PushPastCapacity | Tracing.PushPastCapacityChecked |
| src/gpu.cpp:208 | failure is detected by `queue_count == UINT32_MAX`, a value a real family can report | one family with the graphics bit and queueCount 0xFFFFFFFF: the search finds it, the test reports no device | test `queue_family_index == UINT32_MAX`, which is set only to a real family's index | not executed | Gpu.MissedFamily | Gpu.HasDeviceQueue |
