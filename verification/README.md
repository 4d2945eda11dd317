# A verified model of a userspace eBPF runtime

This project models the parts of the bpftime runtime that carry hard invariants, and proves them in
Dafny 4.11. `dafny verify dfyconfig.toml` checks everything; there are no assumptions and no
unproved members.

| part | modules |
|---|---|
| GPU trampoline: mailbox between GPU threads and the host, warp serialisation, thread numbering, per-thread array map, per-thread ring buffer, byte copies | `Mailbox`, `Warp`, `ThreadId`, `GpuArray`, `RingBuffer`, `ByteCopy` |
| System call rewriting: page-zero sled, stub, assembly hooks, in-place sweep | `X86`, `Trampoline`, `Sweep` |
| eBPF programs: machine semantics, map handles, relocation of map descriptors | `Ebpf`, `Relocation` |
| Daemon: kernel tracer, program capture, handler table, driver, the tracer's reports fed to the driver, process polling, and programs end to end | `Tracer`, `Capture`, `Registry`, `Driver`, `Mirror`, `ProcessPoll`, `Pipeline` |
| Packet helpers: incremental checksum, packet bounds | `Checksum`, `Xdp` |
| Persistence of the handler table | `Hex`, `Persistence` |
| Machine words and their bytes | `Words` |

## How things are modelled

- Concurrent parts are state machines. One action is one access to a flag, word or byte (mailbox, ring
  buffer; the copy of a key into the mailbox is one action) or one atomic handler (tracer, capture); a
  run is any sequence of actions, so theorems about runs hold for every interleaving. Memory is
  sequentially consistent.
- Code that changes things in place is a method or a class whose methods are proved equal to
  functions of the old state; the invariants are proved about those functions, over every sequence of
  operations.
- History variables (who holds the lock, what was sent, which call an event came from) are part of
  some states. They are never read by a step that models the program.
- 32- and 64-bit arithmetic is written out with its truncations wherever the source computes in
  machine words.
- The eBPF machine keeps map handles apart from numbers, in registers and in memory: compiled programs
  spill handles to their stack, so the results about relocation would say little without that.
- The environment is a parameter: the kernel's effect and result for a system call, the host's answer
  to a GPU request, ALU operations, jump conditions and helper bodies of the eBPF machine, the
  disassembler, results of `bpf_obj_get_info_by_fd`, fresh descriptors, ring-buffer reservations,
  the contents of uninitialised memory, process scans, and the order in which JSON keys are visited.

## What the proofs found

Where a natural property fails, the model keeps the code's behaviour, gives the failing case, and
proves when the property holds.

- GPU helpers copy their key into the mailbox before taking the lock. The host uses the asker's own
  key in every run if and only if no two threads ever ask with different keys (`OwnKeyIffSameKeys`,
  `KeySwapped`).
- The ring buffer's drain tests the dirty word before it looks at the tail, and advances head before
  it reads. On every ring whose pages hold at least a byte it can hand out a page not yet written
  (`ReadsTooEarly`), already reused (`ReadsTooLate`) or, from two bytes on, half of either
  (`ReadsTorn`), so all runs deliver only what was output if and only if pages are empty
  (`DeliversOutputsIff`). A single delivery is right if and only if every one of its reads was
  (`DeliveryIff`), and a read is right or not by how far the producer is with the page and by the
  payload bytes (`SizeReadIff`, `ByteReadIff`).
- The trampoline overwrites the word under the stack pointer, and `rt_sigreturn` reaches the kernel
  with a stack pointer eight bytes low (`TrampolineEquivalence`, `SigreturnSeesShiftedStack`). It
  covers numbers up to 512; from 513 on the call lands inside the stub, and the hook takes the return
  address for the number (`NumberPastStub`).
- Relocation does not skip second halves of wide instructions. It preserves every run of a program if
  and only if no constant or address load has a second half that looks like a map load with an id
  other than its descriptor (`PreservesIff`).
- Closing a (pid, fd) frees its slot and every link attached there, not the slot alone
  (`CloseFreesExactly`, `CloseFreesLink`). Kernel program ids and map ids share the handler table, so a
  program is lost exactly when one of its own maps has its number (`CreatedProgHasMaps`,
  `ProgramLost`). An attachment reports success even if the slot for its link is taken and no link is
  made (`AttachedIff`, `LinkNotMade`).
- A program that was replaced by the two-instruction one lists no maps in the kernel, so the driver
  creates none for it: its map loads work if and only if its maps were in the table before
  (`CreatedLinkedIff`, `ReplacedLoadShows`).
- Unless all events are submitted, which is not the default, the tracer does not act on the close of a
  map or program, and notes ioctls on whatever is given the number next (`ClosedFdUnnotedIff`,
  `StaleFdNoted`).
- The tracer means to ignore negative descriptors but tests an unsigned number, so it records a failed
  perf_event_open as a descriptor (`FailedOpenKnown`). The driver's table mirrors the tracer's perf
  events throughout a run if and only if none is recorded that it could not add, and no other object is
  recorded under a number it still holds (`MirroredIff`).
- An ioctl whose report found no room leaves its arguments behind, and they can be reported for a later
  ioctl (`LeftoverReported`): exactly for one on a descriptor that was unknown on entry. Open, bpf and
  perf_event_open do not have this flaw (`Pairing`).
- A load that fails in the kernel leaves its code under the thread, and the thread's next load is
  stored with that code (`StoredIffNotStale`, `StaleStored`).
- The checksum helper is meant to report sums that overflow, but does so only if bit 31 of the sum is
  set; a sum that wraps all the way round passes (`ExactIff`, `WrapsRound`).
- The incremental checksum differs from full recomputation exactly when a field was replaced and the
  new packet is all zero (`IncrementalChecksum`).
- `xdp_adjust_head` keeps the bounds for every offset exactly when `data_end` is at least 14 or equals
  `buffer_end` (`HeadKeepsIff`); all sequences of adjustments keep them exactly when the buffer does not
  start in the first 14 bytes of the address space or is empty (`BoundsKeptIff`). When it has to make
  room before the buffer it counts the packet's move from the start of the buffer: the packet's bytes
  follow the room exactly when there was room, or the packet started there (`PayloadFollowsIff`,
  `OneByteTooMuch`).
- Export then import loses a program's type (its constructor never stores it), a map's GPU thread
  count, a link's cookie, and every link whose program's decimal index does not sort before its own;
  import fails if there is an epoll handler or a perf event other than a tracepoint
  (`ExportThenImport`, `LinkRestoredIff`).
- A process poll cut short by a young process announces processes that it does not remember
  (`AbortConsistentIff`, `RepeatedExec`), and a completed one announces a process twice exactly when its
  scan read the pid twice (`PollAlternatesIff`).

Comments and code disagree in three places, and the model follows the code: the driver's close is meant
to free one id but cascades to links, the ring buffer's dirty word is meant to keep readers off
unfinished pages but is tested too early to do so, and the checksum helper's comment says that an
overflowing sum is negative.

The assumptions on the disassembler can be met (`SomeDecoderIsFaithful`).

## Model

| member | source | states |
|---|---|---|
| `Mailbox.DeliveredIffKnown` | runtime/src/attach/bpf_attach_ctx_cuda.cpp:99-189 | whatever the response block held before, a helper returns the value the host computed for it, if and only if the request id is one of the six the watcher handles, which are those the helpers send |
| `Mailbox.StepKeepsInv` | attach/nv_attach_impl/trampoline_ptx.h:60-126 | every memory access of every thread and of the host keeps the protocol invariant: lock and flags agree with the one holder's position, requests and answers pair up in order |
| `Mailbox.MailboxSafety` | attach/nv_attach_impl/trampoline_ptx.h:60-126 | for any number of threads making any number of calls, in any interleaving with the host: at most one thread holds the mailbox, request k is answered once and by answer k, and each call ends with the answer computed for the request id and map id it wrote itself |
| `Mailbox.InvOwnAnswer` | attach/nv_attach_impl/trampoline_ptx.h:60-126 | a thread past reading its response holds the answer to its own latest request |
| `Mailbox.OwnKeyIffSameKeys` | attach/nv_attach_impl/trampoline_ptx.h:279-379 | the host computes from the asker's own key in every run if and only if no two threads ever ask with different keys, because keys are copied before the lock is taken |
| `Mailbox.KeySwapped` | attach/nv_attach_impl/trampoline_ptx.h:279-379 | for any two threads and any of their calls with different keys there is a run in which one is answered for the other's key |
| `Warp.ReachableGood` | attach/nv_attach_impl/trampoline_ptx.h:70-125 | every converged run keeps the protocol invariant and every lane's position in the 32-round loop in step with its requests |
| `Warp.OneRequestPerCall` | attach/nv_attach_impl/trampoline_ptx.h:70-125 | in every converged run, however many calls each thread makes, every call that returned made exactly one request, which was served, and no thread waits at the warp barrier holding the lock |
| `Warp.StepWorks` | attach/nv_attach_impl/trampoline_ptx.h:70-125 | every access either is a failed poll, which changes nothing, or does exactly one unit of the work left |
| `Warp.SomeoneMoves` | attach/nv_attach_impl/trampoline_ptx.h:70-125 | while a lane is unfinished some thread or the host can make an access that reduces the work left: no deadlock |
| `Warp.CallBound` | attach/nv_attach_impl/trampoline_ptx.h:70-125 | however long the run, at most 79 accesses per call are not failed polls, and exactly 79 per call once all calls have returned |
| `Warp.CanFinish` | attach/nv_attach_impl/trampoline_ptx.h:70-125 | from every reachable state a continuation exists in which all threads finish all their calls |
| `ThreadId.MachineNumberExact` | attach/nv_attach_impl/trampoline_ptx.h:128-161 | if extents are below 2^31, the total is at most 2^63 and the last row of a layer starts below 2^31, the truncated 32- and 64-bit arithmetic gives the exact row-major number |
| `ThreadId.LocateInverse` | attach/nv_attach_impl/trampoline_ptx.h:128-161 | every number below the total belongs to a thread of the launch |
| `ThreadId.NumberInverse` | attach/nv_attach_impl/trampoline_ptx.h:128-161 | the block and thread coordinates are recovered from the number |
| `ThreadId.MachineNumberBijective` | attach/nv_attach_impl/trampoline_ptx.h:128-161 | the machine's thread id is a bijection from the threads of a launch that fits onto [0, total) |
| `ThreadId.ExactIffRowsFit` | attach/nv_attach_impl/trampoline_ptx.h:128-161 | for bounded launches that are not empty: every thread gets its exact number, and equally all numbers are in [0, total), if and only if the last row of a layer starts below 2^31 |
| `ThreadId.HighRow` | attach/nv_attach_impl/trampoline_ptx.h:128-161 | otherwise some thread of the launch gets a negative number |
| `ByteCopy.UnrolledCopy` | attach/nv_attach_impl/trampoline_ptx.h:445-487 | the four-byte loop and the remainder loop do what the byte-by-byte copy does, for every length and every overlap |
| `ByteCopy.CopiedAt` | attach/nv_attach_impl/trampoline_ptx.h:283-327 | unless the destination starts inside the source, byte i of the destination becomes byte i of the source and no other byte changes |
| `ByteCopy.CopiedSlice` | attach/nv_attach_impl/trampoline_ptx.h:1106-1154 | the copy replaces exactly the n destination bytes by the n source bytes |
| `GpuArray.MachineSlotExact` | attach/nv_attach_impl/trampoline_ptx.h:163-208 | for thread and key in range and a region that fits, the truncated address arithmetic gives the exact cell address |
| `GpuArray.SlotInRegion` | attach/nv_attach_impl/trampoline_ptx.h:163-208 | every cell lies inside the region the host allocated |
| `GpuArray.SlotsDisjoint` | attach/nv_attach_impl/trampoline_ptx.h:163-208 | cells of different (thread, key) pairs share no byte |
| `GpuArray.Update` | attach/nv_attach_impl/trampoline_ptx.h:397-487 | helper 2 on a per-thread array changes the abstract map at the caller's (thread, key) to the given value and nothing else, and touches no byte outside the region |
| `GpuArray.LookupReads` | attach/nv_attach_impl/trampoline_ptx.h:224-267 | the address helper 1 returns holds the abstract map's value for the caller |
| `GpuArray.Isolation` | attach/nv_attach_impl/trampoline_ptx.h:439-487 | under any interleaving of the threads' byte stores, a thread's cells end as if it had run alone |
| `GpuArray.ThreadsApart` | attach/nv_attach_impl/trampoline_ptx.h:240-265 | two threads of a launch that fits the map never address a common byte |
| `GpuArray.HostRowIsCells` | runtime/src/bpf_map/gpu/nv_gpu_array_map.cpp:83-102 | the block the host reads for a key is the threads' cells in thread order |
| `GpuArray.HostWriteSeen` | runtime/src/bpf_map/gpu/nv_gpu_array_map.cpp:104-129 | after a host update every thread finds its own piece of the value under that key, and other keys are unchanged |
| `RingBuffer.LayoutDisjoint` | runtime/src/bpf_map/gpu/nv_gpu_ringbuf_map.cpp:10-23 | page bytes of any threads, slots and positions have different addresses, outside all headers and inside the allocated buffer |
| `RingBuffer.MachineRemExact` | attach/nv_attach_impl/trampoline_ptx.h:1067-1101 | the 32-bit remainder path agrees with the 64-bit one |
| `RingBuffer.StepKeeps` | attach/nv_attach_impl/trampoline_ptx.h:1054-1158 | every access of producer and consumer keeps the ring's invariant |
| `RingBuffer.RingSafety` | attach/nv_attach_impl/trampoline_ptx.h:1014-1160 | in every run occupancy stays within the capacity, a page not under construction holds its output until its next index is reserved, a clear dirty word means that the unread pages are exactly the outputs in order, deliveries are outputs 0, 1, 2, ... and those whose page was in that state at every read carry what was output |
| `RingBuffer.DeliveryIff` | runtime/src/bpf_map/gpu/nv_gpu_ringbuf_map.cpp:58-65 | in every run, a delivery carries its output if and only if each of its reads, of the size word and of every byte, was right when it was made |
| `RingBuffer.SizeReadIff` | runtime/src/bpf_map/gpu/nv_gpu_ringbuf_map.cpp:58-65 | in every reachable state, the size word the drain would read for its claimed index is that of the output if and only if: it is written and not reused, or the page's payload before or after is equally long; and it never leads out of the page |
| `RingBuffer.ByteReadIff` | runtime/src/bpf_map/gpu/nv_gpu_ringbuf_map.cpp:58-65 | likewise a byte is that of the output if and only if it was copied or equal before, and not overwritten by another byte since |
| `RingBuffer.DeliversOutputsIff` | runtime/src/bpf_map/gpu/nv_gpu_ringbuf_map.cpp:46-69 | all runs deliver only what was output if and only if pages hold no bytes |
| `RingBuffer.HistoryKept` | attach/nv_attach_impl/trampoline_ptx.h:1014-1160 | what was output and what was delivered is never rewritten |
| `RingBuffer.OutputCall` | attach/nv_attach_impl/trampoline_ptx.h:1014-1160 | an uninterrupted output on a full ring returns 2 and changes nothing; otherwise the payload becomes the newest entry of the queue |
| `RingBuffer.DrainCall` | runtime/src/bpf_map/gpu/nv_gpu_ringbuf_map.cpp:46-69 | an uninterrupted drain of one ring, read by read, does nothing if it is dirty or empty and otherwise delivers and removes the oldest entry |
| `RingBuffer.DrainData` | runtime/src/bpf_map/gpu/nv_gpu_ringbuf_map.cpp:46-69 | the uninterrupted walk over all rings hands out the oldest output of every ring before the first dirty one, in order, and leaves the others alone |
| `RingBuffer.ReadsTooEarly` | runtime/src/bpf_map/gpu/nv_gpu_ringbuf_map.cpp:52-65 | for every capacity and every page size of at least a byte, a run in which the drain hands out a page before it is written |
| `RingBuffer.ReadsTooLate` | runtime/src/bpf_map/gpu/nv_gpu_ringbuf_map.cpp:58-65 | for every such ring, a run in which the producer goes round and the drain hands out output n in place of output 0 |
| `RingBuffer.ReadsTorn` | runtime/src/bpf_map/gpu/nv_gpu_ringbuf_map.cpp:58-65 | for every page size of at least two bytes, a run in which a page reused between two reads is handed out as a mixture that was never output |
| `Trampoline.BuildStub` | attach/text_segment_transformer/text_segment_transformer.cpp:223-234 | the loop that splits the hook's address into bytes builds push, mov and jmp with exactly that address |
| `Trampoline.SetupPageZero` | attach/text_segment_transformer/text_segment_transformer.cpp:205-236 | the loops fill the page with 512 nops, the stub, and nothing else |
| `Trampoline.DecodePage` | attach/text_segment_transformer/text_segment_transformer.cpp:205-236 | the bytes of that page decode to the sled and the three instructions of the stub |
| `Trampoline.ToHooker` | attach/text_segment_transformer/text_segment_transformer.cpp:205-236 | a call through rax with any number up to 512 slides into the hook with number and return address on the stack |
| `Trampoline.ToCxx` | attach/text_segment_transformer/text_segment_transformer.cpp:57-85 | the hook reaches the C++ function with number and six arguments where section 3.2.3 of the System V AMD64 ABI puts them and the stack aligned |
| `Trampoline.OrigSyscall` | attach/text_segment_transformer/text_segment_transformer.cpp:87-100 | the default hook makes the kernel call with the number and arguments it was given and returns the kernel's result |
| `Trampoline.ThroughCxx` | attach/text_segment_transformer/text_segment_transformer.cpp:108-113 | the C++ function passes its seven arguments on and returns the result with callee-saved registers intact |
| `Trampoline.BackToCaller` | attach/text_segment_transformer/text_segment_transformer.cpp:83-85 | the hook's epilogue restores frame and stack pointer and returns behind the call site |
| `Trampoline.TrampolineEquivalence` | attach/text_segment_transformer/text_segment_transformer.cpp:52-113 | for every register and stack state and number up to 512 except 15, the rewritten site makes the same kernel call over the same memory as the syscall instruction, the stack below the site excepted, and goes on at the same place with the same result, stack pointer, callee-saved registers and memory outside that stack |
| `Trampoline.SigreturnSeesShiftedStack` | attach/text_segment_transformer/text_segment_transformer.cpp:57-100 | number 15 makes the same call but with the stack pointer eight lower |
| `Trampoline.NumberPastStub` | attach/text_segment_transformer/text_segment_transformer.cpp:205-236 | number 513 skips the stub's push: the hook pops the return address and goes on with it as the number |
| `Sweep.RewriteSegment` | attach/text_segment_transformer/text_segment_transformer.cpp:133-156 | the in-place loop, decoding bytes it may have rewritten, terminates and yields the functional rewriting of the original bytes |
| `Sweep.SweepKeepsBoundaries` | attach/text_segment_transformer/text_segment_transformer.cpp:133-156 | all instruction boundaries of the decodable prefix survive, and only the targets change kind |
| `Sweep.SweepBytes` | attach/text_segment_transformer/text_segment_transformer.cpp:133-156 | byte by byte, FF D0 stands over each system call except the kept one, and every other byte is untouched |
| `Sweep.SweepIdempotent` | attach/text_segment_transformer/text_segment_transformer.cpp:133-156 | sweeping twice is sweeping once |
| `Sweep.SomeDecoderIsFaithful` | attach/text_segment_transformer/text_segment_transformer.cpp:133-156 | some disassembler meets the assumptions of the sweep's theorems |
| `Ebpf.StepNatural` | vm/compat/ubpf-vm/compat_ubpf.cpp:97-183 | renaming handles commutes with every instruction, for programs alike but for the immediates of their map loads |
| `Ebpf.StepsNatural` | vm/compat/ubpf-vm/compat_ubpf.cpp:97-183 | the same for any number of steps |
| `Ebpf.SpillReload` | vm/compat/include/ebpf_inst.h:124-135 | a number or handle stored to an aligned stack word and loaded again is unchanged, whatever lay there before, so the results cover programs that spill handles |
| `Relocation.HandleRoundTrip` | runtime/src/bpftime_shm.cpp:631-646 | a handle decodes to the descriptor it was made from and denotes its map; a failed one decodes to -1 and denotes none |
| `Relocation.MapLoadGivesMap` | vm/compat/ubpf-vm/compat_ubpf.cpp:115-137 | a map load puts a handle in the register that denotes the descriptor's map; an address load gives the map's first value plus the signed offset, from 0 when there is no such map |
| `Relocation.RefusedIff` | runtime/src/bpftime_shm_internal.cpp:119-180 | for every 64-bit handle each of the six map helpers returns NULL (lookup) or -1 and changes no memory, whatever its operations would do, if and only if the descriptor in the handle's upper half is not that of a map |
| `Relocation.RelocateForDaemon` | daemon/user/bpftime_driver.cpp:71-120 | the loop succeeds if and only if every map load's descriptor is known, and then replaces exactly those immediates by the ids |
| `Relocation.RelocateForSyscall` | runtime/syscall-server/syscall_context.cpp:284-320 | the same for the loading process's loop, with the unsigned id stored in a signed immediate |
| `Relocation.LoopsAgree` | runtime/syscall-server/syscall_context.cpp:284-320 | both loops accept the same programs and produce the same code when their lookups agree |
| `Relocation.MeaningOf` | runtime/src/bpftime_shm.cpp:631-670 | a program on a descriptor-indexed table runs as the machine whose handles are maps |
| `Relocation.RelocationPreserves` | daemon/user/bpftime_driver.cpp:71-120 | step for step, relocated code on the id-indexed table is where the original is on the descriptor-indexed table, with the same numbers and with handles of the same maps, provided the second halves that constant and address loads use are unchanged |
| `Relocation.PreservesIff` | daemon/user/bpftime_driver.cpp:94-118 | on all instruction sets, from all starts and for all numbers of steps, if and only if no constant or address load has a second half that looks like a map load with an id other than its descriptor |
| `Relocation.SameResult` | daemon/user/bpftime_driver.cpp:71-120 | for every program whose second halves have opcode 0, started without handles: both end after the same number of steps with the same result, or both trap, or neither ends |
| `Relocation.RewrittenSlotShows` | daemon/user/bpftime_driver.cpp:94-118 | executing such a constant or address load tells the programs apart in one step |
| `Relocation.UnlinkedLoadShows` | daemon/user/bpftime_driver.cpp:94-118 | executing a map load whose id does not denote the descriptor's map tells the programs apart in one step |
| `Registry.Manager.SetHandler` | runtime/src/handler/handler_manager.cpp:59-77 | an allocated slot and the unused handler are refused without change, an empty slot is filled |
| `Registry.Manager.ClearIdAt` | runtime/src/handler/handler_manager.cpp:87-130 | the loops empty exactly the slot and the links that hang on it |
| `Registry.Manager.FindMinimalUnused` | runtime/src/handler/handler_manager.cpp:132-140 | the least empty slot, or -1 in a full table |
| `Registry.Manager.AddMap` | runtime/src/bpftime_shm_internal.cpp:759-788 | a map replaces whatever its slot held |
| `Registry.MapAddedNoDangling` | runtime/src/bpftime_shm_internal.cpp:759-788 | replacing a handler by a map leaves no link without its program or perf event |
| `Driver.KeyInjective` | daemon/user/bpftime_driver.hpp:24-27 | keys of two pairs are equal if and only if the descriptors are equal and they are negative or the pids are equal too |
| `Driver.HandleKeeps` | daemon/user/handle_bpf_event.cpp:389-421 | every event keeps the driver's invariant, whatever the kernel answers |
| `Driver.DriverInvariant` | daemon/user/bpftime_driver.cpp:158-364 | over every event sequence the (pid, fd) table is injective, every recorded id is an allocated perf event or the map that replaced it, and no link outlives its program or perf event |
| `Driver.CloseFreesExactly` | daemon/user/bpftime_driver.cpp:354-364 | closing a recorded pair frees exactly its slot and the links attached there, forgets exactly that pair, and changes no other slot |
| `Driver.CloseFreesLink` | daemon/user/bpftime_driver.cpp:354-364 | from empty tables: a probe is opened and a program attached to it; its close frees two slots |
| `Driver.CloseUndoesOpen` | daemon/user/bpftime_driver.cpp:295-364 | opening a uprobe on a new descriptor and closing it leaves both tables as they were |
| `Driver.RelatedMapsPresent` | daemon/user/bpftime_driver.cpp:122-156 | when map creation succeeds all the program's maps are there, none displaces another, and the program is still there if and only if no map has its number |
| `Driver.CreatedProgHasMaps` | daemon/user/bpftime_driver.cpp:158-202 | a program just created has all its maps in the table and is itself there if and only if none of them has its number |
| `Driver.MapsAfterCreation` | daemon/user/bpftime_driver.cpp:122-202 | the maps in the table after a program was created are exactly those there before and those the kernel lists for it |
| `Driver.ProgramLost` | daemon/user/bpftime_driver.cpp:158-202 | from empty tables: a program with the number of its map is created with success, gone, and not attached |
| `Driver.AttachedIff` | runtime/src/bpftime_shm_internal.cpp:288-321 | an attachment that reports success has made its link if and only if the fresh descriptor's slot was free or already held that link, and changes no other slot |
| `Driver.LinkNotMade` | runtime/src/bpftime_shm_internal.cpp:288-321 | from empty tables: an attachment reports success and the table holds no link |
| `Driver.Driver.CreateUprobe` | daemon/user/bpftime_driver.cpp:295-315 | the probe takes the least empty slot, recorded under its key; a full table changes nothing |
| `Driver.Driver.CreateMap` | daemon/user/bpftime_driver.cpp:204-245 | 0 if the map exists, -1 if the kernel does not know it, else the slot holds the map |
| `Driver.Driver.CreateRelatedMaps` | daemon/user/bpftime_driver.cpp:122-156 | the loop creates the missing maps in order and stops at the first the kernel does not know |
| `Driver.Driver.CreateProg` | daemon/user/bpftime_driver.cpp:158-202 | every error exit and its effect on the table, and the success case |
| `Driver.Driver.AttachPerfToBpf` | daemon/user/bpftime_driver.cpp:262-293 | a link is made only between a recorded perf event and a program that is there, creating the program first if need be |
| `Driver.Driver.Switch` | daemon/user/bpftime_driver.cpp:318-352 | enabling and disabling change only the event's flag, with the return codes of either direction |
| `Driver.Driver.CloseFd` | daemon/user/bpftime_driver.cpp:354-364 | the pair is forgotten and its slot freed; an unknown pair changes nothing |
| `Driver.Driver.HandleEvent` | daemon/user/handle_bpf_event.cpp:389-421 | the dispatcher does what the event means and keeps the invariant |
| `Tracer.Handlers.OnEnter` | daemon/kernel/bpf_tracer.bpf.c:48-78 | which argument words each enter handler keeps, and when it keeps them |
| `Tracer.Handlers.OnExit` | daemon/kernel/bpf_tracer.bpf.c:80-110 | what each exit handler reports, with the id of an attached program, records and removes, with and without room in the ring buffer |
| `Tracer.Handlers.OnEnterClose` | daemon/kernel/bpf_tracer.bpf.c:552-583 | a close of a known descriptor is reported and forgotten if there is room and it is a perf event or all events are submitted |
| `Tracer.StepKeeps` | daemon/kernel/bpf_tracer.bpf.c:468-550 | every handler of every thread keeps the invariant of the argument tables |
| `Tracer.WhatExitSees` | daemon/kernel/bpf_tracer.bpf.c:600-667 | a leaving thread that finds arguments finds a leftover if and only if its call was not noted on entry, which happens only to ioctls, and else its own |
| `Tracer.Pairing` | daemon/kernel/bpf_tracer.bpf.c:48-123 | over every interleaving, even with failed reservations, a report carries the arguments its thread entered that call with if and only if the call was noted on entry; only ioctls can be reported without, and then show a leftover |
| `Tracer.TablesHoldOnlyCallers` | daemon/kernel/bpf_tracer.bpf.c:600-667 | when no reservation fails the tables hold only the arguments of threads inside a call of that kind |
| `Tracer.StepFds` | daemon/kernel/bpf_pid_fd_map.h:16-45 | a descriptor is known after a step exactly if a call that makes one returned it, or it was known and no close of it was acted on; what is known changes only in the first case |
| `Tracer.RunFds` | daemon/kernel/bpf_pid_fd_map.h:16-45 | over every run a descriptor stays known until a close of it is acted on, and does not become known or change until a call that makes one returns it |
| `Tracer.KnownIff` | daemon/kernel/bpf_pid_fd_map.h:16-45 | after any run the tracer knows exactly what was recorded, or known at the start, and not forgotten since |
| `Tracer.PerfFdNoted` | daemon/kernel/bpf_tracer.bpf.c:500-550 | from the opening of a perf event for the daemon on, in every run without a close of it that is acted on, every ioctl of its process on it is noted |
| `Tracer.ClosedFdUnnotedIff` | daemon/kernel/bpf_tracer.bpf.c:552-583 | after any close of a known descriptor, until it is recorded again or a later close of it is acted on, ioctls of the process on it go unnoted if and only if the close was traced, had room for its report, and was of a perf event or all events are submitted |
| `Tracer.StaleFdNoted` | daemon/kernel/bpf_tracer.bpf.c:552-583 | in the default configuration: a map is made and closed, its number is given to an ordinary file, and an ioctl on that file is noted |
| `Tracer.ObjectIdKnown` | daemon/kernel/bpf_tracer.bpf.c:277-312 | from the creation of a map or the load of a program on, in every run that neither closes its descriptor nor makes it again, the kernel's id of the object is recorded under it |
| `Tracer.AttachReportsId` | daemon/kernel/bpf_tracer.bpf.c:624-667 | a noted ioctl that attaches a program is reported with the id known under the program's descriptor, or 0 |
| `Tracer.LeftoverReported` | daemon/kernel/bpf_tracer.bpf.c:600-667 | a run in which an ioctl is reported with the arguments of an earlier one |
| `Capture.Probe.OnProgLoad` | daemon/kernel/bpf_tracer.bpf.c:151-215 | the code is captured as passed, and only then replaced by the two-instruction program, for exactly the replaceable programs |
| `Capture.Probe.OnAssignId` | daemon/kernel/bpf_obj_id_fd_map.h:50-76 | captured code moves from the thread's key to the id |
| `Capture.CaptureExact` | daemon/kernel/bpf_tracer.bpf.c:151-171 | in every run the code under an id is that of the first load its thread made since that thread last got an id, and thread keys never meet ids |
| `Capture.CaptureFaithful` | daemon/kernel/bpf_obj_id_fd_map.h:50-76 | when every load reaches its id, the code under an id is the code its loader passed before any replacement |
| `Capture.StoredIffNotStale` | daemon/kernel/bpf_tracer.bpf.c:151-171 | a load is stored with its own code if and only if its thread had no entry or an equal one |
| `Capture.StaleStored` | daemon/kernel/bpf_tracer.bpf.c:151-171 | a run from the start: one load fails, the next gets an id and is stored with the first one's code |
| `Pipeline.TracerKnowsMaps` | daemon/user/bpftime_driver.cpp:50-69 | the driver's lookup of a descriptor that the process made for a map gives that map's id |
| `Pipeline.LinkedIff` | daemon/user/bpftime_driver.cpp:122-202 | after the driver created a program, every id that relocation writes denotes the map its descriptor denoted, if and only if each such map is listed by the kernel or was in the table before |
| `Pipeline.CreatedLinkedIff` | daemon/kernel/bpf_tracer.bpf.c:151-215 | with the kernel listing the maps of the code it was given: if and only if the program was not replaced or its maps were there before |
| `Pipeline.ReplacedLoadShows` | daemon/kernel/bpf_tracer.bpf.c:189-213 | the load of a missing map in a replaced program gives a handle of no map and tells it apart from the program its loader passed |
| `Pipeline.CapturedProgramRunsAlike` | daemon/user/bpftime_driver.cpp:50-202 | from traced calls to run: what is captured under an id, relocated with the tracer's ids, with its maps created, ends as the program its loader passed would have ended, also if it was replaced but its maps were there before |
| `Mirror.StepMirrors` | daemon/user/handle_bpf_event.cpp:389-421 | one traced call and the report it causes: a pair is in the driver's table exactly if the call opened a perf event the driver was told of with a descriptor and a slot left, or it was there and the tracer did not forget it |
| `Mirror.TableIff` | daemon/user/handle_bpf_event.cpp:389-421 | over every run and all kernel answers the driver's table holds exactly the perf events so added and not forgotten since |
| `Mirror.TableWithin` | daemon/user/handle_bpf_event.cpp:389-421 | every pair in the driver's table is a descriptor the tracer knows |
| `Mirror.MirroredIff` | daemon/user/handle_bpf_event.cpp:281-343 | the driver's table equals the tracer's perf events throughout a run if and only if every perf event recorded is one the driver adds or holds, and nothing else is recorded under a number the driver holds |
| `Mirror.FailedOpenKnown` | daemon/kernel/bpf_pid_fd_map.h:32-39 | a failed perf_event_open: the tracer records its error as a descriptor, the driver does not |
| `Mirror.AttachForwarded` | daemon/user/handle_bpf_event.cpp:357-387 | from the load of a program on, the ioctl that attaches it has the driver attach the kernel id it was made with |
| `Checksum.CsumDiff` | runtime/src/bpf_helper.cpp:623-654 | sizes not divisible by 4 are refused; otherwise the wrapped 32-bit sum of new words and complements of old words, or the error when it is negative |
| `Checksum.DiffExact` | runtime/src/bpf_helper.cpp:623-654 | below 2^31 the result is exact, not negative, and congruent to seed + sum(to) - sum(from) modulo 65535 |
| `Checksum.ExactIff` | runtime/src/bpf_helper.cpp:646-650 | the result is the exact sum if and only if that is below 2^31, and the error if and only if bit 31 of the sum is set |
| `Checksum.WrapsRound` | runtime/src/bpf_helper.cpp:646-650 | from 65538 words of ones on a sum wraps all the way round and is returned without an error |
| `Checksum.Chaining` | runtime/src/bpf_helper.cpp:634-645 | seeding a second call with the first equals one call on the joined buffers |
| `Checksum.FoldIs` | runtime/src/bpf_helper.cpp:623-654 | folding carries gives the residue modulo 65535 in 1..65535, and 0 only for 0 |
| `Checksum.IncrementalChecksum` | runtime/src/bpf_helper.cpp:623-654 | replacing a field of any packet: the incremental checksum equals full recomputation if and only if nothing was taken out or the new packet is not all zero |
| `Xdp.Packet.AdjustHead` | runtime/src/bpf_helper.cpp:658-674 | the new start under wrapping arithmetic, clamped to the buffer, and the memory after the move of a clamped packet; a refused call changes nothing |
| `Xdp.PayloadFollowsIff` | runtime/src/bpf_helper.cpp:663-671 | an accepted call that makes room keeps the packet's bytes behind the room, whatever they are, if and only if the buffer had the room, or the packet started where its buffer does, or it is empty |
| `Xdp.OneByteTooMuch` | runtime/src/bpf_helper.cpp:663-671 | for every other packet, asking for one byte more than there is misplaces it |
| `Xdp.Packet.AdjustTail` | runtime/src/bpf_helper.cpp:676-686 | the new end under wrapping arithmetic; a refused call changes nothing |
| `Xdp.Packet.LoadBytes` | runtime/src/bpf_helper.cpp:688-698 | an accepted load copies the bytes at data + offset, all inside the packet's buffer when the packet is away from the top of the address range |
| `Xdp.LoadsInsideIff` | runtime/src/bpf_helper.cpp:688-698 | every accepted load lies inside the packet if and only if no offset and length reach the top of the address range |
| `Xdp.HeadKeepsIff` | runtime/src/bpf_helper.cpp:658-674 | moving the head keeps the bounds for every offset if and only if data_end is at least 14 or equals buffer_end |
| `Xdp.ExactAdjustments` | runtime/src/bpf_helper.cpp:656-686 | where nothing wraps around, both helpers accept, refuse and move exactly as in exact arithmetic |
| `Xdp.BoundsKeptIff` | runtime/src/bpf_helper.cpp:656-686 | every sequence of calls with any offsets keeps buffer_start <= data <= data_end <= buffer_end if and only if the buffer does not start in the first 14 bytes of the address space or is empty |
| `Xdp.LowBufferBreaks` | runtime/src/bpf_helper.cpp:656-686 | in any other buffer, wherever the packet lies, calls that put the head behind the tail |
| `Hex.BufferToHex` | runtime/src/bpftime_shm_json.hpp:17-26 | the loop prints two lower-case digits a byte, high digit first |
| `Hex.HexToBuffer` | runtime/src/bpftime_shm_json.hpp:28-41 | a wrong length is refused without change; otherwise each pair is read as std::stoi reads it, or the parse throws |
| `Hex.HexRoundTrip` | runtime/src/bpftime_shm_json.hpp:17-41 | every buffer survives printing and parsing |
| `Hex.DecimalRoundTrip` | runtime/src/bpftime_shm_json.cpp:215-217 | every index survives its decimal key |
| `Persistence.Export` | runtime/src/bpftime_shm_json.cpp:233-318 | the object has exactly one entry for each handler, under its decimal index, describing it |
| `Persistence.AttrRoundTrip` | runtime/src/bpftime_shm_json.cpp:28-64 | every map attribute but the GPU thread count survives |
| `Persistence.ImportExported` | runtime/src/bpftime_shm_json.cpp:103-192 | what importing one exported handler does to a table with that slot free, or that it fails, for every kind of handler |
| `Persistence.Import` | runtime/src/bpftime_shm_json.cpp:208-225 | the loop imports key by key and stops at the first failure |
| `Persistence.ExportThenImport` | runtime/src/bpftime_shm_json.cpp:208-318 | into an empty table, in any key order: import succeeds if and only if every handler is a program, map, tracepoint or link, and then each returns at its index, links exactly when their program was visited first, and nothing else appears |
| `Persistence.LinkRestoredIff` | runtime/src/bpftime_shm_internal.cpp:572-584 | in string order a link is re-created if and only if its program exists and its program's decimal index sorts before its own |
| `ProcessPoll.Poller.PollOnce` | daemon/user/bpf_tracer.cpp:71-126 | one poll, with its early return for a young process and for an empty scan |
| `ProcessPoll.PollAlternatesIff` | daemon/user/bpf_tracer.cpp:71-126 | a poll that runs to the end remembers exactly what it read, and moves a process from one phase to the other as it announces if and only if its scan did not read the pid twice |
| `ProcessPoll.TrackingAlternates` | daemon/user/bpf_tracer.cpp:71-126 | over every sequence of such polls a pid that no scan read twice has events that alternate EXEC, EXIT from EXEC on, and is alive exactly if remembered |
| `ProcessPoll.RememberedIsLastScan` | daemon/user/bpf_tracer.cpp:80-125 | the remembered set is what the last non-empty scan read |
| `ProcessPoll.AbortConsistentIff` | daemon/user/bpf_tracer.cpp:97-105 | a poll cut short keeps memory and announcements in step if and only if every process handled before the young one was remembered already and read once |
| `ProcessPoll.RepeatedExec` | daemon/user/bpf_tracer.cpp:97-113 | a poll cut short and the next one announce one process twice in a row |

## Left out

- GPU memory model: accesses are sequentially consistent; fences and weak orderings of PTX are not modelled.
- Warp.ReachableGood: a thread with no more calls to make takes no part in its warp's barriers; divergence inside a call is not modelled.
- Warp.CanFinish: shows that finishing stays possible and that useful work is bounded; a fair scheduler is not modelled, so a spinning thread may poll for ever in a run.
- RingBuffer.RingSafety: counters are unbounded, so it speaks of threads that make fewer than 2^64 outputs.
- RingBuffer.DrainData: the walk over all threads is stated without interruption; with interruption, RingBuffer.RingSafety and RingBuffer.DeliveryIff speak of each ring on its own. The callback is taken to read the bytes in order, once each.
- GpuArray.Update: the value may lie anywhere except so that the cell starts inside it, and keys and threads are in range; helpers 1 and 2 do not check either.
- Trampoline.TrampolineEquivalence: flags and vector registers are not modelled, and the kernel is taken neither to look at nor to write into the stack the trampoline uses.
- The compiled form of syscall_hooker_cxx is a tail jump or a call from a frame of any size.
- Sweep.RewriteSegment: the disassembler is any one that looks only at an instruction's own bytes and knows FF D0; segment permissions are not modelled.
- Ebpf.StepNatural: calls between functions of a program, atomics and the wide loads with source 3 to 6 stop the machine; helpers see a handle only as the map it denotes.
- Relocation.SameResult: tables do not change while a program runs.
- Driver.DriverInvariant: kernel ids and fresh descriptors are taken to lie inside the handler table, which indexes without a check; loading BTF, which no event handler calls, is left out.
- Tracer.Pairing: tables have room, and only arguments, descriptors and ids are modelled, not names and times; restoring a user's uprobe path is left out.
- Mirror.TableIff: process ids are below 2^31, the attributes of a report are an answer of the environment, reports are neither lost nor reordered behind the ring buffer's reservation, and the daemon is configured to drive the runtime.
- Tracer.ObjectIdKnown: the id is the one the kernel probe on map creation noted for the thread; descriptors made by duplication or by looking an object up are not traced by the source.
- Capture.CaptureFaithful: programs have at most 4096 instructions, handlers are atomic and the table has room.
- Persistence.Import: writing and parsing JSON text belongs to a library and is taken to preserve the object; the attach_fds field, which export never writes, is left out.
- CUDA, PTX compilation, Frida, shared-memory segments, epoll, the verifier and the VM back ends: foreign libraries and I/O.
- Other map types, command-line tools, configuration and logging: easy members.
