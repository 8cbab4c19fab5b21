# Whimbrel in Dafny

A model of the hard parts of the Whimbrel kernel, a single-hart RISC-V kernel that
boots on QEMU `virt`, maps memory with Sv39, runs user tasks and serves HTTP over a
virtio network card. The default build is modelled. Code that updates state in place
is a class or a method with loops; pure code is functions; what holds over whole runs
is stated as lemmas over sequences of events. A kernel panic is the result `Panic`.

How the modules follow the source:

| modules | source |
|---|---|
| Ram, Frame | machine words and RAM; the frame allocator (src/frame.rs) |
| Pte, PageTree, PageWalk, Page, PageMap, PageBuild, PageVerify, PageCheck | Sv39 tables (src/page.rs, linker.ld) |
| FreeList, Heap, Align, Carve, HeapAlloc | the kernel heap (src/heap.rs) |
| Virtq, Net | virtqueues and the RX/TX loops (src/virtq.rs, src/net.rs) |
| Checksum, Wire, Ipv4, Udp, Icmp, TcpWire, Stack | checksums, packet writers and parsers, and both ends composed |
| Tcp, TcpSafety, TcpStream, TcpEof, TcpRto, TcpConnection | the TCP control block, its runs, and its handlers as code (src/tcp.rs) |
| Trap, Task, Switch, Isolation | trap entry and return, scheduler, both together, and why user code cannot interfere (src/trap.rs, src/task.rs) |
| Uaccess | user-pointer checks and the break (src/uaccess.rs, src/syscall.rs) |
| Phase | the phase dump and its parser (src/phase.rs, scripts/bench.py) |

## Where the code does less than its comments or its shape suggest

For all but the last the exact condition under which the property holds is proved, and
with it an input that fails, or every such input.

- `build` accepts heaps on which `init` panics. `verify` wants the root table itself in a
  4 KiB page (src/page.rs:767), and RAM from `RAM_L1_START` up is mapped in 2 MiB leaves.
  The frame self-test keeps two frames, so a heap that ends less than 0x3000 below
  `RAM_L1_START` passes every order check and stops boot. `PageCheck.Init` and
  `PageCheck.Boot` are the if-and-only-ifs; `PageCheck.TightFails` is a layout.
- End of file need not mean that the application has read everything. `listen_reset` drops
  an unread payload and keeps the pending end of file (src/tcp.rs:324-342), so after our
  FIN a last segment with data and FIN is acknowledged, lost, and reported as end of file;
  and an end of file nobody took is reported on the next connection. `TcpEof.EofMeansAll`
  says exactly what was not read, `TcpEof.StaleExact` is the if-and-only-if across
  connections, and `TcpEof.EofLosesData` is an orderly run that loses a byte.
- `assert_range` of unmapped addresses panics when the empty subtree at its end is the
  topmost one, since the step past it overflows (src/page.rs:710-719).
  `PageVerify.AssertRange` is the if-and-only-if over all addresses;
  `PageVerify.TopPanics` gives ranges. The kernel checks none of them.
- `free_frame` takes a double free unless the frame is the list head (src/frame.rs:172-190).
  The list is then a cycle, which `check_recycled` always finds:
  `Frame.FrameAllocator.DoubleFree`.
- The frame-mismatch panic in `preempt` is reachable. `enter` sets `CURRENT` while it
  still runs in S with interrupts on (src/task.rs:605-608, src/timer.rs:47), first on the
  boot stack and then, past `mv sp, a0`, on the task's own frame, until `csrw sstatus`
  (src/trap.rs:351-357). A tick in that window builds its frame in the wrong place.
  `Switch.Kernel.EnterThenTick` says exactly when it panics; `Switch.FrameCheck` and
  `Switch.Kernel.TimerTick` say that the check passes exactly for traps from U.
- A user task that traps with `sp` equal to zero comes back with `sp` equal to its
  kernel stack top (src/trap.rs:328-329). `Trap.Transparent` is the if-and-only-if.
- A stream of exactly 2^32 - 1 bytes plus FIN fills the sequence space, and a repeated
  first segment is then taken for new data. `TcpStream.ExactBound` is the
  if-and-only-if over whole runs from the opening SYN, and `TcpStream.DeliverFrom` builds
  the run that fails.
- The bench script can reject a phase dump with every stamp set and `_start` first, when
  a stamp after E3g comes so late that its 64-bit nanoseconds wrap. `Phase.DumpAccepted`
  is the if-and-only-if on the stamps, `Phase.DumpNear` its simpler form with E3g itself
  in range; `Phase.LateDumpRejected` is an input.
- `walk` reports the level at which an address is unmapped, and adding an intermediate
  table lowers that level for its neighbours. `PageMap.WalkOfPage`, `PageMap.WalkOfMega`
  and `PageMap.WalkOfRange` give the exact level everywhere; `PageMap.LevelDrops` is an
  input.
- `kill_invalid_ptr` stops the machine rather than rescheduling, unlike the other kills
  (src/syscall.rs:111-120), so it is not a scheduler event here.

## Assumptions

- The clock, the device and the remote peer are inputs: any nondecreasing time, any
  device that takes published entries in order and returns each once, any bytes.
- The handler writes no other task's trap frame. That user code writes none, nor a page
  table, is proved from the page map, and `Isolation.MappedRunInv` and
  `Isolation.MappedResumes` state the run theorems with no assumption on its stores.
- The heap symbols the frame allocator and the page builder read are the same ones.
- The linker script places the four task slots back to back (linker.ld:165-209).
- The heap region ends on an 8-byte boundary (linker.ld:220-222).

## Model

| member | source | states |
|---|---|---|
| Frame.FrameAllocator.constructor | src/frame.rs:91-110 | all frames from the heap end to the end of RAM are free, none outstanding |
| Frame.FrameAllocator.Accounting | src/frame.rs:121-127 | in every valid state free count plus outstanding frames is the total |
| Frame.FrameAllocator.AllocFrame | src/frame.rs:144-170 | panics exactly when frozen or empty; otherwise a frame nobody held, zeroed: the most recently freed one, else the bump |
| Frame.FrameAllocator.FreeFrame | src/frame.rs:178-196 | panics exactly on frozen, unaligned, unmanaged or head frames; otherwise the frame is the new head; freeing an outstanding frame keeps the pool partitioned and the list acyclic |
| Frame.FrameAllocator.FreeThenAlloc | src/frame.rs:221-239 | a free followed by an alloc returns the same frame and restores the pool |
| Frame.FrameAllocator.CheckRecycled | src/frame.rs:200-215 | on any list whose pointers stay in RAM it passes exactly when the list ends, after as many nodes as counted |
| Frame.FrameAllocator.CheckValid | src/frame.rs:200-215 | on a valid pool neither of its panics is reachable |
| Frame.FrameAllocator.DoubleFree | src/frame.rs:172-215 | a double free the head test misses is taken, and `check_recycled` then panics |
| Frame.DoubleFreeLoops | src/frame.rs:191-195 | pushing a frame that is on the list makes it a cycle: no walk ends |
| Frame.FrameAllocator.SelfTest | src/frame.rs:221-256 | passes exactly on an open pool with nothing handed out and two frames to give; keeps two, the first two above an unused bump |
| Frame.FrameAllocator.Freeze | src/frame.rs:137-140 | freezing keeps the pool and closes it |
| Frame.PoolPop | src/frame.rs:149-159 | taking the head of the in-memory list leaves recycled and outstanding frames a partition |
| Frame.PoolPush | src/frame.rs:191-195 | pushing an outstanding frame keeps the partition and the acyclic list |
| Pte.BitsOfEntry | src/page.rs:428-434 | the walker's single-bit reads of any entry see exactly its ten flag bits and its page number |
| Pte.LeafDecodes | src/page.rs:192-194 | what the mapper encodes the walker decodes: leaf, same frame, same bits |
| PageWalk.WalkIsLookup | src/page.rs:448-503 | on a well-formed tree the independent walker never panics and finds what the tree holds, for every canonical address |
| PageTree.SetPage | src/page.rs:228-233 | storing a leaf in an empty slot keeps the tree well formed and changes one page |
| PageTree.SetMega | src/page.rs:277-282 | storing a 2 MiB leaf keeps the tree well formed and changes one slot |
| PageTree.LinkL1 | src/page.rs:213-217 | linking a fresh zeroed table under the root keeps the tree well formed |
| PageTree.LinkL0 | src/page.rs:213-217 | linking a fresh zeroed table at the second level keeps the tree well formed |
| Page.PageMapper.Map | src/page.rs:198-234 | succeeds exactly on aligned, accepted, unmapped pages with frames for the missing tables; then adds that page only; a panic leaves every address as it was |
| Page.PageMapper.Map2m | src/page.rs:249-283 | the same for one 2 MiB slot |
| PageMap.WalkOfPage | src/page.rs:198-234 | after `map`, `walk` gives frame plus offset with those flags on the page; other mapped addresses are unchanged and every hole is at exactly the level the tables now give it |
| PageMap.WalkOfMega | src/page.rs:249-283 | after `map_2m`, the same for every address of the slot and outside it |
| PageMap.LevelDrops | src/page.rs:213-217 | an input where mapping one page changes the level `walk` reports for another |
| PageMap.MapRange | src/page.rs:236-245 | maps the whole range and nothing else; succeeds whenever the range is empty of mappings and its tables are funded |
| PageMap.MapRange2m | src/page.rs:286-295 | the same with 2 MiB leaves |
| PageMap.WalkOfRange | src/page.rs:236-295 | on a mapped range `walk` is the identity with the given flags and level; elsewhere mapped addresses are unchanged and holes are exactly placed |
| PageBuild.RegionsDisjoint | src/page.rs:298-403 | no address lies in two regions of the map, for every layout that passes the checks |
| PageBuild.Build | src/page.rs:298-409 | succeeds exactly on ordered, aligned layouts; maps every region and nothing else with exactly EXPECTED_TABLES frames, the root being the next frame of the pool |
| PageVerify.AssertRange | src/page.rs:659-734 | for all 64-bit bounds: returns exactly when every address of the range resolves as expected, though it skips by page, slot or empty subtree, and the last skip does not overflow; terminates on every well-formed tree |
| PageVerify.TopPanics | src/page.rs:710-719 | every range of holes that ends in a topmost gigabyte without tables overflows |
| PageVerify.FinishedRegion | src/page.rs:340-403 | in the finished map `walk` is the identity on each region |
| PageVerify.FinishedBits | src/page.rs:519-529 | with exactly the permission bits of that region, as `flags_match` reads them |
| PageVerify.FinishedHole | src/page.rs:298-409 | everything outside the regions is unmapped |
| PageVerify.WriteXorExecute | src/page.rs:340-403 | no address is both writable and executable |
| PageVerify.UserBitExact | src/page.rs:374-384 | the user bit is on exactly the user addresses, so on no kernel one |
| PageVerify.GuardsUnmapped | linker.ld:73-81 | every guard page, of the boot stack and of each task, is unmapped |
| PageVerify.RegionVerifies | src/page.rs:340-403 | every address of a region resolves in the finished map as its permissions demand |
| PageCheck.CheckPasses | src/page.rs:854-875 | each range `verify` checks, joined heap range and guards included, has the alignment, grain and walk results `assert_range` needs |
| PageCheck.Probe | src/page.rs:552-602 | returns exactly when the address resolves as expected |
| PageCheck.ProbeSpan | src/page.rs:736-742 | returns exactly when the span is empty or both its ends resolve as expected |
| PageCheck.SpotMeets | src/page.rs:758-773 | every fixed probe but the root table's is met by the finished map, for every ordered, aligned layout |
| PageCheck.RootSpot | src/page.rs:767 | the root table's own probe is met exactly below `RAM_L1_START` |
| PageCheck.Verify | src/page.rs:756-886 | all probes, spans and ranges in order: on the finished map it returns exactly when the root table lies below `RAM_L1_START` |
| PageCheck.Init | src/page.rs:890-916 | a first call succeeds exactly on an ordered, aligned layout when the pool's next frame lies below `RAM_L1_START` |
| PageCheck.Boot | src/main.rs:176-183 | frame setup, self-test, `page::init` and the accounting check of `enter` (src/task.rs:578-590) all pass exactly on ordered, aligned layouts whose heap ends more than 0x2000 below `RAM_L1_START` |
| PageCheck.TightFails | src/page.rs:151-162 | a layout all order and alignment checks accept on which boot panics |
| Align.AlignUp | src/heap.rs:60-66 | a multiple within one alignment above the argument, or none exactly on overflow or a bad alignment |
| Align.LeastMultiple | src/heap.rs:60-66 | it is the least multiple not below the argument |
| FreeList.Canonical | src/heap.rs:85-87 | two sorted, gapped lists covering the same bytes are the same list |
| HeapAlloc.Allocator.constructor | src/heap.rs:295-313 | the heap starts as one free block tiling the region |
| HeapAlloc.Allocator.FindGap | src/heap.rs:91-115 | the walk stops at the address-sorted place, or reports the block that overlaps |
| HeapAlloc.Allocator.InsertCoalesced | src/heap.rs:87-136 | panics exactly out of range or on overlap; otherwise the list stays sorted and gapped and gains exactly those bytes |
| HeapAlloc.Allocator.Dealloc | src/heap.rs:235-252 | freeing a live block removes it and keeps free and live blocks an exact tiling |
| HeapAlloc.Allocator.TryAlloc | src/heap.rs:140-225 | null exactly when no free block can hold the aligned header and payload; otherwise the first block that can, at its lowest aligned address, inside it; the tiling is kept |
| HeapAlloc.Allocator.AllocThenFree | src/heap.rs:140-252 | freeing what was just allocated restores the identical free list |
| HeapAlloc.Allocator.FreeAll | src/stress.rs:36-53 | freeing every live block in any order leaves one block covering the region |
| HeapAlloc.Allocator.ClientStore | src/heap.rs:315-341 | a client store inside its payload cannot damage the heap |
| HeapAlloc.ProbeMeans | src/heap.rs:155-183 | skipping a block means it cannot hold the request; the early overflow exits mean no later block can either |
| Carve.SpotDecides | src/heap.rs:155-183 | the one address tried in a block decides whether the block can hold the request at all |
| Carve.NoneAbove | src/heap.rs:173-178 | once the payload passes the end of RAM in one block it does in every block above it |
| Heap.LiveFixesFree | src/heap.rs:235-252 | the live blocks determine the free list |
| Heap.AllFreeIsOneBlock | src/heap.rs:117-127 | with nothing live the list is one block |
| Heap.FreeKeepsHeap | src/heap.rs:235-252 | giving a live block's bytes to the list keeps the exact tiling |
| Heap.AllocKeepsHeap | src/heap.rs:185-222 | taking a block with its absorbed prefix and tail keeps the exact tiling |
| HeapAlloc.SplitKeepsHeap | src/heap.rs:193-205 | the split stores, which may overwrite free memory only, keep heap and tiling |
| HeapAlloc.WholeKeepsHeap | src/heap.rs:207-222 | the whole-block stores, with the header over half of the old one, keep heap and tiling |
| Virtq.TestsExact | src/virtq.rs:485-494 | the 16-bit tests `used == seen` and `avail == last` are exact across wraparound |
| Virtq.NoOverwrite | src/virtq.rs:498-512 | no live avail or used ring slot is ever overwritten |
| Virtq.StepInv | src/virtq.rs:403-525 | every driver or device action keeps each descriptor in exactly one place, with the rings saying so |
| Virtq.RunInv | src/virtq.rs:403-525 | and so does every interleaving of both sides |
| Net.QueueMemory.PostRx | src/virtq.rs:403-413 | all sixteen buffers are published, ring slots before the index |
| Net.QueueMemory.TakeUsed | src/virtq.rs:485-494 | an entry exactly when the device has returned one, and then the oldest |
| Net.QueueMemory.PublishOne | src/virtq.rs:498-512 | publishing is one ring store and one index step of the shared queue |
| Net.RxLoop.PollRx | src/net.rs:464-500 | whatever the device does meanwhile, neither panic is reachable and all sixteen buffers are out again |
| Net.RxLoop.HandBack | src/net.rs:476-486 | a taken buffer goes straight back, counters following modulo 2^32 |
| Net.TxPort.Transmit | src/virtq.rs:452-472 | buffer 0 is written only while the driver owns it; on return the device has read exactly this frame once |
| Net.TxPort.Wait | src/net.rs:391-415 | returns only after the descriptor is back; on timeout the buffer is not reused |
| Checksum.Fold | src/checksum.rs:22-27 | folding gives the representative modulo 0xffff, zero only for zero |
| Checksum.Accumulate | src/checksum.rs:32-43 | exactly the word total modulo 2^32, odd byte padded on the right |
| Checksum.ComputeSum | src/checksum.rs:46-48 | the composition of the two |
| Checksum.NeverWraps | src/checksum.rs:32-43 | the accumulator is exact on every message of n words exactly when n is at most 65537 |
| Checksum.ValidMeans | src/checksum.rs:57-59 | valid exactly when the total is a positive multiple of 0xffff |
| Checksum.StoredIsValid | src/checksum.rs:52-59 | storing the complement in a zeroed aligned field makes any message valid |
| Checksum.OneWordChange | src/checksum.rs:57-59 | changing one aligned word goes unnoticed exactly for a 0x0000/0xffff swap that leaves a nonzero total |
| Checksum.LastByteChange | src/checksum.rs:38-41 | changing an odd last byte is always noticed |
| Wire.ComputePseudoSum | src/udp.rs:50-54 | the two-part accumulation is the sum of pseudo-header and message |
| Wire.ClosedIsValid | src/udp.rs:66-72 | a message closed with its checksum passes the pseudo-header test |
| Ipv4.WriteHeader | src/ipv4.rs:126-143 | panics exactly on a short buffer; otherwise the named fields, a valid header checksum, the rest untouched |
| Ipv4.RoundTrip | src/ipv4.rs:58-123 | the parser accepts every written header and recovers addresses, protocol and payload whatever padding follows |
| Udp.WriteDgram | src/udp.rs:123-144 | the named fields, a checksum the receiver accepts, never zero |
| Udp.RoundTrip | src/udp.rs:81-114 | the parser takes back exactly what was written |
| Udp.WriteEcho | src/udp.rs:148-165 | the buffer holds the echo of the request |
| Udp.EchoIsSwap | src/udp.rs:146-165 | the echo of an accepted request differs from it only in the ports: the recomputed checksum is the received one |
| Icmp.WriteEchoReq | src/icmp.rs:72-87 | the named fields and a valid checksum |
| Icmp.RoundTrip | src/icmp.rs:36-69 | the parser takes back exactly what was written |
| Icmp.WriteEchoReply | src/icmp.rs:90-104 | the buffer holds the reply to the request |
| Icmp.ReplyAnswers | src/icmp.rs:90-104 | the reply to an accepted request parses as the reply with the same identifier, number and data |
| TcpWire.Decode | src/tcp.rs:536-568 | the checks at the head of `handle`: a delivered segment has its header inside the bytes |
| TcpWire.WriteSeg | src/tcp.rs:258-290 | the named fields, the payload, a checksum the receiver accepts |
| TcpWire.WriteSynack | src/tcp.rs:226-255 | the named fields, and our own option parser reads our segment size from it |
| TcpWire.RoundTrip | src/tcp.rs:536-562 | a written segment decodes to its own fields and payload |
| TcpWire.SegDecodes | src/tcp.rs:258-290 | every segment has bytes that decode to exactly it |
| TcpWire.ReadMss | src/tcp.rs:196-224 | the option loop computes the option function |
| TcpWire.OptionsRead | src/tcp.rs:196-224 | every well-formed option list is read as announced, last size wins, end-of-list or not |
| Stack.SendUdp | src/net.rs:862-896 | a datagram written, framed and padded is parsed back through IPv4 and UDP to its port and payload |
| Stack.SendEcho | src/net.rs:908-945 | an echo request and its reply, each written, framed and padded, parse to the same identifier, number and data |
| Stack.SendTcp | src/net.rs:682-737 | a segment written, framed and padded decodes to its own fields and payload |
| TcpSafety.HandleInv | src/tcp.rs:536-713 | arbitrary bytes keep the invariant |
| TcpSafety.AppSendInv | src/tcp.rs:448-472 | so does every send |
| TcpSafety.PollInv | src/tcp.rs:501-533 | so does the timer |
| TcpSafety.ReachableInv | src/tcp.rs:324-713 | over every run: FIN in flight in FIN-WAIT-1 and LAST-ACK, nothing in LISTEN, SYN-RECEIVED, FIN-WAIT-2, and the send window spans exactly what is outstanding |
| TcpSafety.ReachableFromBoot | src/tcp.rs:83-107 | in particular from the control block the kernel boots with |
| TcpStream.DataTracks | src/tcp.rs:650-659 | data taken in order extends the accepted prefix of the peer's stream |
| TcpStream.FinTracks | src/tcp.rs:661-679 | FIN is accepted only once and only after all data before it |
| TcpStream.OpenStream | src/tcp.rs:587-601 | the opening SYN starts with nothing accepted and the receive position after it |
| TcpStream.StepStream | src/tcp.rs:474-713 | every event, with a conforming peer, keeps accepted bytes a prefix and `rcv_nxt` its count |
| TcpStream.SessionStream | src/tcp.rs:384-706 | over every run of a connection, what the application reads is an in-order, gap-free, duplicate-free prefix |
| TcpStream.ExactBound | src/tcp.rs:536-713 | for streams under 2^32 bytes: every run of every connection, from the bytes of its SYN, is safe exactly when the length is at most 2^32 - 2 |
| TcpStream.DeliverFrom | src/tcp.rs:649-706 | from any point of the delivery of 2^32 - 1 bytes, an honest run that ends with the first byte taken twice |
| TcpEof.StepEof | src/tcp.rs:384-533 | on an open connection a pending end of file is its own: its FIN was taken |
| TcpEof.StepCompletes | src/tcp.rs:649-705 | an event that closes the connection with end of file pending leaves exactly the rest of the stream unread |
| TcpEof.EofMeansAll | src/tcp.rs:474-713 | over every run with a conforming peer: when end of file is pending, what was read followed by what was left unread is the whole stream; while the connection is open and end of file is due, nothing is left |
| TcpEof.EofOnce | src/tcp.rs:489-499 | once FIN was taken and end of file reported, no run of that connection makes it pending again |
| TcpEof.StaleExact | src/tcp.rs:324-342 | every run of a connection accounts for its whole stream at end of file exactly when no end of file was pending as it opened |
| TcpEof.EofLosesData | src/tcp.rs:324-342 | an honest run from boot, closed in order by both sides, with end of file due and the peer's one byte never read |
| TcpRto.DueExact | src/tcp.rs:506-510 | the wrapped deadline test is exact for elapsed times under 2^63 |
| TcpRto.PollExact | src/tcp.rs:501-533 | nothing before the timeout, then the identical segment, then one RST and LISTEN |
| TcpRto.HandleOut | src/tcp.rs:536-713 | arbitrary bytes end what is outstanding only by its exact acknowledgement or a reset |
| TcpRto.StepRto | src/tcp.rs:353-533 | every event keeps at most eight sends, one timeout apart, and says why a segment stops being outstanding |
| TcpRto.NothingElse | src/tcp.rs:425-533 | nothing that carries data or FIN goes out but the segment on record |
| TcpRto.RunRto | src/tcp.rs:27-29 | over every run, every segment ever sent keeps to that |
| TcpConnection.AckMeans | src/tcp.rs:353-382 | only the exact acknowledgement has an effect; it empties the window and decides the next state |
| TcpConnection.FinMeans | src/tcp.rs:677-705 | an in-order FIN is acknowledged, counts one, and closes exactly in FIN-WAIT-2 |
| TcpConnection.SegmentMeans | src/tcp.rs:629-713 | unread data is never overwritten, and new data is taken only in order |
| TcpConnection.Connection.Arrive | src/tcp.rs:536-713 | `handle` in place on arbitrary bytes: what is in flight ends only by its exact acknowledgement or a reset, unread data survives, and the step is the one the run theorems use |
| TcpConnection.Connection.Send | src/tcp.rs:448-472 | refused without effect, or the first transmission of exactly this data and FIN from where the window ended |
| TcpConnection.Connection.Poll | src/tcp.rs:501-533 | silence, the identical segment with one more try, or after the last try one RST and LISTEN |
| TcpConnection.Connection.Eof | src/tcp.rs:489-499 | true exactly when an end of file is pending, nothing is unread and nothing is in flight; it is then no longer pending |
| TcpConnection.Connection.Read | src/tcp.rs:474-487 | what was waiting is handed out once |
| Trap.SavedTable | src/trap.rs:286-315 | the save block stores every register but the stack pointer, each at its own place |
| Trap.RestoredTable | src/trap.rs:360-388 | the restore block loads every register but the stack pointer and the scratch one |
| Trap.Hart.SaveAll | src/trap.rs:285-315 | the frame area holds those registers, memory outside is unchanged |
| Trap.Hart.Entry | src/trap.rs:273-343 | the frame holds the trapped context at the right stack, `sscratch` is zero in the handler |
| Trap.Hart.Return | src/trap.rs:350-409 | registers, `sepc` and `sstatus` come from the frame; to U the kernel stack top is parked in `sscratch` |
| Trap.Transparent | src/trap.rs:273-409 | entry then return restores everything, from U and from S, exactly unless user code trapped with a zero stack pointer |
| Task.Scheduler.constructor | src/task.rs:502-508 | the initial table of the default image |
| Task.Scheduler.NextReadyAfter | src/task.rs:628-636 | the first Ready slot going round, the same one last; none exactly when nobody is Ready |
| Task.Scheduler.Preempt | src/task.rs:661-673 | panics exactly without a current task or on a foreign frame; otherwise the next Ready task runs |
| Task.Scheduler.ExitCurrent | src/task.rs:735-752 | the task is Exited and the next Ready one runs; the end exactly when nobody is Ready |
| Task.RunOk | src/task.rs:651-752 | over every run from a good table at most one task is Running, `current` names it, and an Exited task never runs again |
| Task.Nearer | src/task.rs:628-636 | every switch runs a waiting task or brings the running one strictly nearer to it |
| Task.Fair | src/task.rs:658-673 | a task that stays Ready runs within three switches |
| Switch.HandlerSees | src/trap.rs:146-152 | in the handler `sscratch` is zero and the frame is the running task's own |
| Switch.StepInv | src/trap.rs:146-217 | every trap from U keeps the invariant, and whoever runs next sees exactly what it trapped with |
| Switch.EnterInv | src/task.rs:599-608 | the first return into a fabricated frame establishes the invariant |
| Switch.RunInv | src/trap.rs:268-412 | so in every state of every run `sscratch` is the running task's kernel stack top |
| Switch.ResumesIntact | src/task.rs:651-673 | after any number of switches a task sees the registers it trapped with, edited only by its own system call |
| Switch.FrameCheck | src/task.rs:663-668 | wherever the hart can be while a task is current, the frame check passes exactly for traps from U |
| Switch.Kernel.TimerTick | src/trap.rs:159-168 | entry and `preempt` as code: a tick panics exactly when it was taken in S |
| Switch.Kernel.EnterThenTick | src/task.rs:599-608 | `enter` to any point of its return path, then a tick: it panics exactly with interrupts on and `sstatus` not yet written |
| Switch.Kernel.UserTrap | src/trap.rs:146-217 | entry, dispatch and return as code are exactly one step of the model; only the last exit ends the run |
| Switch.Kernel.Edit | src/syscall.rs:66-68 | a system call or breakpoint edits only its results and the program counter in the frame |
| Switch.Kernel.Dispatch | src/trap.rs:159-211 | the handler's scheduling decision; the frame check never fails from U |
| Isolation.FrameIsKernel | linker.ld:165-209 | no byte at a trap frame is a user address, for every layout that passes the checks |
| Isolation.UserKeepsFrames | src/page.rs:374-384 | whatever user code stores under the finished map, every trap frame keeps its contents |
| Isolation.UserKeepsTables | src/page.rs:298-409 | nor does any page table of the map change |
| Isolation.MappedRunInv | src/trap.rs:268-412 | with user stores confined only by the page map, every state of every run keeps the switch invariant |
| Isolation.MappedResumes | src/task.rs:651-673 | and a task that runs again sees the registers it trapped with, edited only by its own system call |
| Uaccess.AcceptedIsMapped | src/uaccess.rs:58-84 | every byte of an accepted range is U and R, and W for a write, in the built map |
| Uaccess.RangeExact | src/uaccess.rs:43-84 | a nonempty range is accepted exactly when each byte is and it crosses no boundary between intervals |
| Uaccess.ClassifyExact | src/uaccess.rs:86-98 | the two errors are exactly starting outside, and starting inside but not staying in one interval |
| Uaccess.CopyIsMapped | src/uaccess.rs:135-168 | a copy touches at most 4096 bytes, each a user page with the permission it needs |
| Uaccess.UserTask.constructor | src/task.rs:457-469 | the break starts at its base |
| Uaccess.UserTask.Sbrk | src/syscall.rs:163-197 | the break moves exactly when it stays in its window; the old break is answered |
| Uaccess.BreakRuns | src/syscall.rs:159-197 | over every run of requests the break is in its window and is its start plus what was granted |
| Phase.Collect | src/phase.rs:110-120 | the set stamps, in table order |
| Phase.SortOrder | src/phase.rs:121-129 | the in-place sort gives stable time order of the same rows |
| Phase.Print | src/phase.rs:105-147 | rows in stable time order, each delta from the row before |
| Phase.PhaseLog.Stamp | src/phase.rs:80-89 | the first reading of a phase stays, nothing else changes |
| Phase.PhaseLog.PrintAfterResponse | src/phase.rs:97-148 | a dump at most once, and only with E3g stamped |
| Phase.SortedUnique | src/phase.rs:121-129 | the stable time order of a set of stamps is unique |
| Phase.Telescope | src/phase.rs:130-147 | at every row the deltas add up to the time since the start |
| Phase.SumExact | scripts/bench.py:769-782 | up to E3g's tick the sum check finds exactly the time to E3g, equal stamps or not |
| Phase.DumpAccepted | scripts/bench.py:714-782 | a dump is accepted exactly when every stamp is set, the start is earliest, and the wrapped deltas of the stamps that look no later than E3g add up to E3g's wrapped time within the tolerance: a condition on the stamps alone, summed in table order |
| Phase.PreviousIs | src/phase.rs:121-147 | the row printed before a phase's is the latest stamp before it |
| Phase.DumpNear | scripts/bench.py:714-782 | with E3g in range: exactly when every stamp is set, the start is earliest, and what later stamps wrap round to stays within the tolerance |
| Phase.DumpInNanos | scripts/bench.py:714-782 | with no stamp that late, exactly when every stamp is set and the start is earliest |
| Phase.LateDumpRejected | src/phase.rs:136-145 | whatever is printed for one set of stamps, all set and start first, is rejected |

## Left out

- Page.PageMapper.Map: takes physical addresses under 2^56 and flags with V set, as all LEAF constants have; a leaf without V would not be one.
- Page.PageMapper.Map2m: the same.
- PageMap.MapRange: takes ranges below 2^38 and flags with V set; the kernel maps no others.
- PageMap.MapRange2m: the same.
- PageCheck.Verify: printing is not modelled.
- PageCheck.Boot: `check_dtb` and `task::check_layout`, which check more of the same linker symbols, and `task::init`, which writes no frame of the pool, are not part of it; nor is the `satp` check of `init`.
- HeapAlloc.Allocator.constructor: takes a region that ends on an 8-byte boundary, as the linker script gives it.
- HeapAlloc.Allocator.InsertCoalesced: takes sizes that are multiples of 8, the only ones its two callers pass.
- HeapAlloc.Allocator.Dealloc: takes null or a live block; the checks on other pointers are corruption detectors.
- Net.RxLoop.PollRx: what `classify_rx` does with a frame, and the notify doorbell, are not modelled.
- Net.TxPort.Wait: the clock is assumed to pass the deadline at some poll.
- TcpConnection.Connection.Arrive: the drop counters and log lines are not modelled, nor the buffer bytes beyond the occupied part.
- Switch.Kernel.UserTrap: a breakpoint's instruction width is an input, its instruction read taken to succeed; unknown traps and S-mode faults, which panic, are not events.
- Switch.StepInv: the handler's own memory effects are any writes outside the trap frames.
- Phase.Print: lines are records, not text.
- Ipv4.RoundTrip: headers with options are parsed but none is written, so only 20-byte headers make the trip.
- Device tree check, `satp` and TLB behaviour, memory fences, MMIO and SBI access: hardware protocol outside this model.
- ARP, device handshake, ping and gateway waits, UDP receive queue: small next to the rest.
- The copies of `copy_from_user` and `copy_to_user`: only their range logic is here.
- The heap self-test, feature-gated images and console output.
- The user library and application: thin wrappers.
- The rest of the Python scripts: gates over external tools.
