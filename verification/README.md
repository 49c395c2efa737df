# Paged memory and time slots of the OS simulator, in Dafny

The simulator runs several processes on several CPU threads over one simulated
RAM. This project models its two cores and proves what they keep.

**Paged virtual memory.** Processes share a RAM of 256-byte frames and four swap
devices. Each has a page table of packed 32-bit entries, a replacement list used
as a FIFO, a table of regions with a free list, and a break. Allocation pops
frames from a shared free list and, when RAM is full, evicts the process's own
oldest page. The results:

- `FrameSafety.MapRamKeeps`: no allocation of absent pages, whatever its size and
  outcome, changes a byte of any page of any process or has a frame or slot held twice.
  `AllocSucceedsIff` says exactly when it succeeds.
- `FlatMemory.RunPeek` and `StartPeek`: over every run of process starts, allocations,
  frees, reads and writes on resident pages, memory is flat: a byte is the last one
  written since its page was mapped, or else what the frame held at that moment.
  `FlatMemory.RegionsIsolated`: two live regions never disturb each other.
- `System.RunKeepsIff`: with accesses anywhere in the address space, a run keeps frames
  and swap slots exclusive throughout if and only if no growth maps over a listed page;
  `TwoFrameRun.OvermapInRun` is a run that does. `BreakCoverage.RunTidyIff`: the mapped
  pages are those below the break throughout if and only if no access goes beyond it, and
  then no access faults (`NoFaultInRun`).
- `EnoughRam.ReadsLastDeposit`: if a run asks for no more pages than RAM has frames and
  stays below the break, every read below the break is right.
- `PageAccess.ReadRightIffResident`, `WriteRightIffResident` and `FaultKeepsIff`: accesses
  are right exactly for resident pages, and exactly which faults keep every byte.

**Time slots and scheduling.** A timer, a loader and any number of CPUs advance in
lock step through mutexes and condition variables, and pass processes through 140
bounded queues. Each critical section is one step of an interleaved relation. The
results:

- `Barrier.LockStep`, `NoLostWakeup`, `Progress` and `SlotEnds`: the barrier never lets
  a thread run ahead, loses no wakeup, is never stuck, and every slot is finite;
  `TimerEnd.TimerStops`: the timer ends once every thread has.
- `Conservation.StepPlaces`: a process is in exactly one place, in every interleaving, as
  long as at most ten share a priority; `Overflow.ElevenLoseOne` loses one of eleven.
- `Turns.DispatchedInTurn`: in every run the CPUs get the processes of a level in turn, and
  `LoadTimes.AddedWhenDue`: each is added in exactly the slot in which it is due.
- `Completion.NoAbandonedWork`, `AllStoppedAllComplete` and `BoundedCompletion`: no run
  leaves a loaded process unfinished with every CPU stopped, and all work is done
  within as many slots as there are instructions. This rests on the slot that passes
  between the loader's last `add_proc` and `done = 1`. `StepBound.CompleteWithinBound`
  bounds the steps of a whole configuration, and `SlotEnd.StopsIff` says which CPUs stop.

## How the files fit together

| files | what they hold |
|---|---|
| `Bits` | words, field macros, the two entry setters |
| `Paging`, `FrameSafety`, `PageAccess`, `Regions` | the memory operations as functions on values, and what each keeps |
| `Overmap`, `System`, `FlatMemory`, `BreakCoverage`, `EnoughRam`, `OneFrameRun`, `TwoFrameRun` | several processes in any order: growth over mapped pages, every run, the flat view, runs below the break, runs within RAM, and two concrete runs |
| `Memphy`, `FrameList`, `FifoList`, `PageTable`, `VmArea`, `Process`, `Library` | the same operations in place, on arrays, linked nodes and objects; every method is proved to compute the functions above, and the calls of the library to be steps of `System` |
| `Queue`, `Scheduler`, `Killall` | the array queue, the level scan and the removal loops, in place and proved against functions on sequences |
| `Barrier`, `TimerEnd` | `timer.c` as a step relation at the granularity of lock operations, and how the timer ends |
| `Simulator`, `SimulatorSafety`, `Conservation`, `Completion`, `LoadTimes`, `Turns`, `SlotEnd`, `StepBound`, `Overflow` | `os.c` over barrier and scheduler: steps, invariants, theorems, and one concrete run |
| `Options` | values that may be missing |

`Paging.GrabFrame`, `AllocPages`, `MapRange` and `MapRam` follow mm.c:87-253;
`PageAccess.Fault` follows libmem.c:217-299; `System.Step` puts the operations of
several processes together; `Barrier.Apply` follows timer.c:21-93; `Simulator.MoveOf`
and `LoaderMoveOf` follow os.c:53-98 and os.c:114-139. In `Barrier`, a device's number
is its position in the device list: the loader attaches last and is device 0.

## Assumptions

- Fields that `malloc` leaves unset (`pgd`, `fifo_pgn`, `vm_freerg_list`, the free list of
  a swap device of size 0) start as zero or NULL. The link of a new frame node is
  arbitrary, since the code never follows it.
- `active_mswp_id` is the index of `active_mswp`; the loader never copies it to a process.
- Devices are random access (`rdmflg` is 1, os.c:225).
- The system call for memory always reports success and ignores inner results
  (sys_mem.c:22-44), so that a mapping that failed still binds its symbol.
- Each memory operation is one step, and memory is sequentially consistent.
- RAM has at most 2^13 frames, each swap device at most 2^21, and the break stays within
  2^22. Allocation sizes are positive. A region is freed once, and region number 30, one
  past the table, is not used.
- Processes reach memory through the four calls of the library. A program's own system
  call 17 would reach `inc_vma_limit` and `MEMPHY_write` with any arguments
  (sys_mem.c:22-44), which breaks the aligned break and the flat view; `System.Op` has no
  such operation.
- `time_slot` is positive, priorities are below 140, programs have at least one
  instruction, and at most ten processes share a priority. Ten is always enough, since a
  level then never fills up; with more it depends on the run: a run keeps every process
  if and only if no put and no add meets a full level (`Overflow.RunPlacesIff`), and
  eleven can already fail (`Overflow.ElevenLoseOne`).

Where the code and its comments disagree, the model follows the code: the free-list walk
only ever looks at the first region (libmem.c:570-593), a page fault copies from RAM to
swap twice (libmem.c:243-281), and the swapped bit is not tested on access
(libmem.c:217, 301).

## Model

| member | source | states |
|---|---|---|
| `Bits.SetFpnWord` | submission/OS BTL/src/mm.c:74-82 | For every word and frame number, the entry comes out present and not swapped, its FPN field holds the low 13 bits of the number, and bits 13 to 29 are as before |
| `Bits.SetSwapWord` | submission/OS BTL/src/mm.c:58-67 | For every word, type and offset, the entry comes out present and swapped, the two fields hold the low 5 and 21 bits, and bits 26 to 29 are as before |
| `Bits.SetFpnEntry` | submission/OS BTL/include/mm.h:10-11 | Read back as numbers, a stored frame number is itself modulo 2^13, whatever the entry held |
| `Bits.SetSwapEntry` | submission/OS BTL/include/mm.h:42-53 | Read back as numbers, type and offset are themselves modulo 2^5 and 2^21, whatever the entry held |
| `Bits.FpnRoundTrip` | submission/OS BTL/include/mm.h:40-58 | A frame number comes back out of an entry if and only if it is below 2^13 |
| `Bits.SwapRoundTrip` | submission/OS BTL/include/mm.h:42-53 | A swap type and offset come back out of an entry if and only if they are below 32 and 2^21 |
| `Bits.FpnFieldOfPresent` | submission/OS BTL/include/mm.h:97 | What PAGING_FPN extracts from any present entry, including a swapped one, where it mixes the type with the low bits of the offset |
| `Bits.PgnOfWord` | submission/OS BTL/include/mm.h:95 | The page number field of a 32-bit address is the address divided by 256, modulo 2^14 |
| `Bits.OffstOfWord` | submission/OS BTL/include/mm.h:93 | The offset field of a 32-bit address is the address modulo 256 |
| `Bits.AddressRebuilt` | submission/OS BTL/include/mm.h:86-95 | Page number and offset give a 32-bit address back if and only if it is below 2^22 |
| `Bits.NBitsIsLog` | submission/OS BTL/include/bitops.h:30-35 | NBITS of a non-zero word n is the floor of its base-two logarithm: 2^NBITS(n) <= n < 2^(NBITS(n)+1) |
| `Paging.FirstFree` | submission/OS BTL/src/mm.c:196-203 | The search stops at the first swap device with a free frame, or past the last when none has one |
| `Paging.AllocPages` | submission/OS BTL/src/mm.c:143-211 | Codes are 0, -1 and -3000; success returns as many frames as asked for; the page table and replacement list stay well formed on every outcome |
| `FrameSafety.PopKeepsInv` | submission/OS BTL/src/mm.c:147-161 | A frame popped from the RAM free list is not mapped anywhere, and the pop keeps exclusiveness and every byte |
| `FrameSafety.SwapOutCell` | submission/OS BTL/src/mm.c:261-277 | Copying a frame to a free swap frame changes no byte any entry stands for, and the copy reads as the original |
| `FrameSafety.EvictedCells` | submission/OS BTL/src/mm.c:163-207 | After an eviction every mapped page of every process, the victim included, reads as before |
| `FrameSafety.EvictKeepsInv` | submission/OS BTL/src/mm.c:163-208 | An eviction keeps frames and swap slots exclusive, free lists distinct and the replacement list right; the frame it yields belongs to nobody |
| `FrameSafety.NoSwapKeepsInv` | submission/OS BTL/src/mm.c:167-206 | When no swap frame is free, the code is -3000, the oldest page has left the list, from its end, but stays resident, and no device or byte changes |
| `FrameSafety.GrabKeepsInv` | submission/OS BTL/src/mm.c:147-208 | One iteration, on every branch, keeps the frame invariant, every byte of every process, and the other processes' tables |
| `FrameSafety.AllocKeepsInv` | submission/OS BTL/src/mm.c:133-211 | The same over any number of iterations, with the frames obtained distinct and unmapped, on success and both failures |
| `FrameSafety.MapOneKeepsInv` | submission/OS BTL/src/mm.c:113-122 | Mapping an obtained frame at an absent page keeps the invariant and touches no other entry |
| `FrameSafety.MapRangeKeepsInv` | submission/OS BTL/src/mm.c:87-125 | Page start + j ends resident in the j-th frame of the list; every other entry is as it was; invariant and bytes are kept |
| `FrameSafety.MapRamKeeps` | submission/OS BTL/src/mm.c:222-253 | For any request size, on success and on both failures, vm_map_ram keeps frames and slots exclusive, every byte of every page of every process, and the other page tables |
| `FrameSafety.MapRamPages` | submission/OS BTL/src/mm.c:222-253 | Exactly the requested range becomes mapped on success, and nothing becomes mapped or unmapped on failure |
| `FrameSafety.AllocKeepsRam` | submission/OS BTL/src/mm.c:133-211 | Allocation writes no RAM cell, so that a fresh page shows what its frame held before |
| `FrameSafety.PickSwapRoom` | submission/OS BTL/src/mm.c:183-206 | Eviction finds no device if and only if the four swap free lists are all empty |
| `FrameSafety.PickSwapOrder` | submission/OS BTL/src/mm.c:183-204 | The device chosen is the active one while it has room, and otherwise the lowest-numbered one that has |
| `FrameSafety.GrabCapacity` | submission/OS BTL/src/mm.c:147-208 | One iteration succeeds if and only if free RAM frames plus evictable pages are positive, and uses up exactly one of them |
| `FrameSafety.AllocSucceedsIff` | submission/OS BTL/src/mm.c:133-211 | A request succeeds if and only if it is at most the free RAM frames plus the smaller of the process's listed pages and the free swap frames |
| `FrameSafety.FramesFromFreeList` | submission/OS BTL/src/mm.c:147-161 | With enough free frames, page j of n gets the (n-1-j)-th frame of the free list and no page is evicted |
| `FrameSafety.FirstRequestFrames` | submission/OS BTL/src/mm-memphy.c:121-147 | On a fresh device, page j of the first request of n pages gets frame n-1-j |
| `FrameSafety.FramesFromVictims` | submission/OS BTL/src/mm.c:163-208 | With RAM full, the victims are the n oldest listed pages, oldest first, and page j of n gets the frame of the (n-1-j)-th victim |
| `FrameSafety.FailedAllocDrains` | submission/OS BTL/src/mm.c:133-211 | A failed request leaves no free RAM frame and either no listed page or no free swap frame; all frames it had obtained are lost |
| `PageAccess.FaultInSteps` | submission/OS BTL/src/libmem.c:217-299 | The fault path is an eviction to the active device, a second copy from RAM to swap over a frame number that was meant for RAM, and a mapping |
| `PageAccess.FaultKeepsInv` | submission/OS BTL/src/libmem.c:213-304 | With a victim and a free active swap frame, the fault path keeps frames and slots exclusive for every process and leaves the page resident |
| `PageAccess.FaultTable` | submission/OS BTL/src/libmem.c:283-293 | After a fault the victim is swapped at the first free frame of the active device, and every other present page is where it was |
| `PageAccess.FaultCell` | submission/OS BTL/src/libmem.c:224-281 | Every byte after a fault, from the state before: a page at the active device's frame numbered like the victim's RAM frame, and the victim if it goes there, get RAM frame 0; all others keep theirs |
| `PageAccess.FaultKeepsIff` | submission/OS BTL/src/libmem.c:217-299 | A fault keeps every byte of every process, whatever the devices hold, if and only if beforehand no page is at that frame and the victim does not go there either, or its RAM frame is 0 |
| `PageAccess.WrittenKeepsInv` | submission/OS BTL/src/libmem.c:359-396 | A write keeps the frame invariant |
| `PageAccess.WrittenCell` | submission/OS BTL/src/libmem.c:376-391 | A write through any entry changes one byte of the page resident in the frame its low bits name, of whatever process, and nothing else |
| `PageAccess.WriteResident` | submission/OS BTL/src/libmem.c:359-396 | A write to a resident page changes exactly that byte of that page of that process |
| `PageAccess.ReadResident` | submission/OS BTL/src/libmem.c:312-351 | A read of a resident page returns the byte the page stands for |
| `PageAccess.SwappedReadsOther` | submission/OS BTL/src/libmem.c:217-301 | A read of a swapped page returns the byte of the page that is resident in the frame its type and offset spell, of whatever process |
| `PageAccess.SwappedMisread` | submission/OS BTL/src/libmem.c:217-301 | For every swapped page there are contents for which reading it returns a different byte, since the swapped bit is never tested |
| `PageAccess.ReadRightIffResident` | submission/OS BTL/src/libmem.c:312-351 | Reads of a mapped page are right for all contents of the devices if and only if the page is resident |
| `PageAccess.WriteRightIffResident` | submission/OS BTL/src/libmem.c:359-396 | Writes to a mapped page arrive for all values if and only if the page is resident |
| `Regions.AlignIdempotent` | submission/OS BTL/include/mm.h:17 | Rounding up to pages twice, as __alloc and inc_vma_limit do, is rounding once |
| `Regions.InitAreaOk` | submission/OS BTL/src/mm.c:284-309 | A new process starts with disjoint regions below the break |
| `Regions.ReusedOk` | submission/OS BTL/src/libmem.c:562-595 | Serving a request from the free list, by split or by exact fit, keeps all live and free regions disjoint and below the break |
| `Regions.GrownOk` | submission/OS BTL/src/libmem.c:90-128 | Growing the break keeps them disjoint and below it, whether or not the mapping succeeded |
| `Regions.TakeDivides` | submission/OS BTL/src/libmem.c:571-589 | Taking bytes divides the head: the request gets its first addresses, the list keeps exactly the others, and the regions behind stay listed |
| `Regions.SplitServesNext` | submission/OS BTL/src/libmem.c:576-580 | After m bytes are split off the head, a request of k bytes is served from the list, right behind, if and only if both together fit in the head; an exact second fit leaves the regions behind it |
| `Regions.ExactFitUnlinks` | submission/OS BTL/src/libmem.c:581-588 | After an exact fit the next request is tried on the old second region |
| `Regions.OneByteIsLost` | submission/OS BTL/src/libmem.c:37-38 | A region of one byte from the list is refused when it is freed, and lost |
| `Regions.FirstRequest` | submission/OS BTL/src/mm.c:291-296 | The first request of a process is served from the initial region if and only if it is for one byte, at address 0 with the break still at 0 |
| `Regions.GrownIsNewRange` | submission/OS BTL/src/libmem.c:93-126 | A request not served from the list gets exactly the addresses between the old break and the new, from a page boundary on, and the list stays |
| `Regions.AllocAreaOk` | submission/OS BTL/src/libmem.c:72-130 | Every allocation of positive size keeps all live and free regions pairwise disjoint and below a page-aligned break |
| `Regions.FreeAreaOk` | submission/OS BTL/src/libmem.c:139-157 | Freeing a live region keeps them so |
| `Regions.ApartMeansNoSharedByte` | submission/OS BTL/src/libmem.c:33-47 | Two half-open regions count as disjoint if and only if no address lies in both |
| `Regions.CoversRequestIffGrown` | submission/OS BTL/src/libmem.c:80-122 | The stored range covers the requested bytes if and only if the break grew; from the free list it is one byte short |
| `Regions.LastByteCanBeShared` | submission/OS BTL/src/libmem.c:571-588 | Three allocations and a free after which the last byte of one live region is the first of another |
| `System.AllocDefined` | submission/OS BTL/src/libmem.c:72-130 | In a state that satisfies the invariant, an allocation of positive size is defined whenever the break has room for it |
| `System.RegionIsItsPages` | submission/OS BTL/src/libmem.c:120-126 | A byte is in the region that growth hands out if and only if its page is one of those that the growth maps |
| `System.AllocKeepsIff` | submission/OS BTL/src/libmem.c:72-130 | __alloc keeps frames, slots and regions exclusive if and only if the free list serves it, or no frames can be had for its growth, or the new range holds no listed page but those that the request itself evicts |
| `System.SpawnKeeps` | submission/OS BTL/src/os.c:115-131 | Starting a process keeps the system invariant |
| `System.FreeKeeps` | submission/OS BTL/src/libmem.c:139-157 | __free keeps the system invariant |
| `System.StepKeepsIff` | submission/OS BTL/src/libmem.c:72-466 | An operation, with accesses anywhere in the 22-bit space and page faults included, keeps frames and swap slots exclusive and regions disjoint below an aligned break if and only if it is not such an unsafe growth |
| `System.RunKeepsIff` | submission/OS BTL/src/libmem.c:72-466 | A run of any processes keeps that invariant throughout if and only if every growth in it is safe |
| `System.RunKeepsInv` | submission/OS BTL/src/libmem.c:72-466 | So in particular at the end of every run whose growths are safe |
| `System.InitSysInv` | submission/OS BTL/src/os.c:227-246 | The freshly formatted devices satisfy the system invariant, within 2^13 RAM frames and 2^21 frames per swap |
| `System.FreshDeviceFrames` | submission/OS BTL/src/mm-memphy.c:121-210 | A fresh device has every whole frame free, once and in order, and holds zeros |
| `FlatMemory.GrowPeek` | submission/OS BTL/src/mm.c:222-253 | A page that an allocation maps, absent before or not, shows what its frame in the list held at that moment; no other page of the process appears, disappears or changes |
| `FlatMemory.StepPeek` | submission/OS BTL/src/libmem.c:72-466 | At every address of every process: a write to a resident page puts its value at its own address modulo 2^22, an allocation puts what the new frames hold at the pages it maps, and nothing else changes |
| `FlatMemory.ReadPeek` | submission/OS BTL/src/libmem.c:406-417 | A read of a resident page returns the flat byte at the symbol's start plus the offset, modulo 2^22, whether or not the offset is inside the region |
| `FlatMemory.RunPeek` | submission/OS BTL/src/libmem.c:72-466 | Over every run of process starts, allocations with safe growth, frees and resident accesses, every address holds the last value put there, or what it held before the run |
| `FlatMemory.StartPeek` | submission/OS BTL/src/libmem.c:72-466 | From the start: a byte is the last one written since its page was mapped, or else what the frame held when the page was mapped |
| `FlatMemory.RegionsIsolated` | submission/OS BTL/src/libmem.c:406-466 | A write inside one live region never changes a read inside another, of the same process or of two, while both pages are resident |
| `BreakCoverage.FaultsIffBeyondBreak` | submission/OS BTL/src/libmem.c:213-304 | In runs whose accesses stay below the break, pg_getpage would take its fault path exactly for a page beyond the break |
| `BreakCoverage.GrowthIsFresh` | submission/OS BTL/src/libmem.c:90-128 | There, growth finds all its pages absent and so is safe |
| `BreakCoverage.StepTidyIff` | submission/OS BTL/src/mm-vm.c:106-132 | A step keeps the coverage (mapped pages lie below the break and are all the pages below it, unless a mapping of the process has failed, and then it can have no further frame) if and only if it is not an access beyond the break |
| `BreakCoverage.RunTidyIff` | submission/OS BTL/src/mm-vm.c:106-132 | A run keeps the coverage throughout if and only if none of its accesses goes beyond the break |
| `BreakCoverage.NoFaultInRun` | submission/OS BTL/src/libmem.c:217-299 | From the start, no access below the break ever faults |
| `Overmap.GrowthKeepsInvIff` | submission/OS BTL/src/mm.c:113-122 | A vm_map_ram that gets its frames, over any range, mapped or not, keeps frames exclusive and the replacement list right if and only if the range holds no listed page that the request itself does not evict |
| `Overmap.GrowthReplaces` | submission/OS BTL/src/mm.c:113-117 | Whatever a page of the range held, it then shows a new frame with what is in that frame |
| `Overmap.GrowthLosesFrame` | submission/OS BTL/src/mm.c:113-122 | A page that is mapped over while it is still listed takes its frame with it: the frame is on no free list and in no page table |
| `OneFrameRun.MisreadInRun` | submission/OS BTL/src/libmem.c:213-351 | A run from the start, on one RAM frame, after which the first page holds 7 and reading it gives 9 |
| `OneFrameRun.FaultDamagesInRun` | submission/OS BTL/src/libmem.c:243-281 | The same run, after which an access to an absent page beyond the break changes the first page from 7 to 9 |
| `OneFrameRun.StrayWriteInRun` | submission/OS BTL/src/libmem.c:359-396 | The same run, after which a write to the first page leaves it as it was and puts its value in the second |
| `TwoFrameRun.OvermapInRun` | submission/OS BTL/src/mm.c:113-122 | A run from the start in which the invariant holds until an allocation maps a faulted page again, with success, and not after it |
| `EnoughRam.RunInRam` | submission/OS BTL/src/mm.c:147-161 | A run that stays below the break and asks for no more pages than there are free frames evicts nothing, and all its accesses are resident |
| `EnoughRam.ReadsLastDeposit` | submission/OS BTL/src/libmem.c:406-417 | From the start, after such a run, a read below the break returns the last value put at its address |
| `Library.LibAlloc` | submission/OS BTL/src/libmem.c:164-180 | liballoc on the objects of one process takes the system of all processes one allocation further |
| `Library.LibFree` | submission/OS BTL/src/libmem.c:188-204 | Likewise libfree |
| `Library.LibRead` | submission/OS BTL/src/libmem.c:420-445 | Likewise libread, and its byte is the one the system's read returns |
| `Library.LibWrite` | submission/OS BTL/src/libmem.c:469-486 | Likewise libwrite |
| `Memphy.Device.constructor` | submission/OS BTL/src/mm-memphy.c:196-210 | A new device is zeroed and lists every whole frame once, in order |
| `Memphy.Device.Format` | submission/OS BTL/src/mm-memphy.c:121-147 | The nodes appended one by one form a list of frames 0 to n-1 in order, ended by NULL, or no list for a device smaller than a frame |
| `Memphy.Device.GetFreeFp` | submission/OS BTL/src/mm-memphy.c:149-165 | The first node of the linked list is unlinked and its frame returned, the rest stays linked; -1 with nothing changed on an empty list |
| `Memphy.PutThenGet` | submission/OS BTL/src/mm-memphy.c:149-191 | A frame that put_freefp links in front of the list is what the next get_freefp unlinks, and the list is as before |
| `Memphy.Device.Read` | submission/OS BTL/src/mm-memphy.c:60-72 | The cell at an address inside the device; any other address is refused |
| `Memphy.Device.Write` | submission/OS BTL/src/mm-memphy.c:103-115 | Changes the one cell at an address inside the device; any other address is refused and changes nothing |
| `Memphy.SwapCopyPage` | submission/OS BTL/src/mm.c:261-277 | All 256 cells arrive at the destination frame and no other cell changes, even where the destination ends early |
| `FrameList.InFront` | submission/OS BTL/src/mm.c:149-158 | The new node leads the caller's list of frames in order, though on an empty list its link is left unset |
| `FifoList.PgnList.Enlist` | submission/OS BTL/src/mm.c:330-339 | The linked list gains the page at its head |
| `FifoList.PgnList.FindVictim` | submission/OS BTL/src/libmem.c:522-554 | The two-step walk ends, cuts off the last node and returns its page, or -1 on an empty list |
| `FifoList.VictimsInEnlistOrder` | submission/OS BTL/src/libmem.c:522-554 | For any interleaving of enlisting and victim search, victims come out in the order in which pages were enlisted |
| `PageTable.SetFpn` | submission/OS BTL/src/mm.c:74-82 | On the array of words: the entry becomes resident in the frame modulo 2^13 and no other entry changes |
| `PageTable.SetSwap` | submission/OS BTL/src/mm.c:58-67 | On the array of words: the entry becomes swapped at type and offset, and no other entry changes |
| `PageTable.Look` | submission/OS BTL/include/mm.h:33-34 | Presence and frame field of an entry agree with what the word encodes |
| `PageTable.Locate` | submission/OS BTL/src/libmem.c:315-316 | Page number and offset of an address |
| `VmArea.Area.constructor` | submission/OS BTL/src/mm.c:284-309 | A new area has an empty range and the free region [0, 0] |
| `VmArea.Area.GetFreeArea` | submission/OS BTL/src/libmem.c:562-595 | On linked nodes: the head of the free list is cut down in place or unlinked when it is large enough; otherwise -1 and nothing changes |
| `Regions.FreedServedFirst` | submission/OS BTL/src/libmem.c:33-47 | A freed region is what the next request gets if and only if it is large enough by its inclusive size; a larger request is served by no region of the list |
| `VmArea.Area.Reuse` | submission/OS BTL/src/libmem.c:80-88 | The symbol gets the region taken from the free list, or nothing changes |
| `VmArea.Area.Free` | submission/OS BTL/src/libmem.c:139-157 | On linked nodes: a node with a copy of the symbol's region leads the free list, unless the region is empty; a number outside the table is refused |
| `Process.Memory.SwapFrameOut` | submission/OS BTL/src/mm.c:182-206 | The active device is used if it has room, else the first that has; its index and frame are reported, or -1 with nothing changed |
| `Process.Memory.CopyOut` | submission/OS BTL/src/mm.c:196-203 | The device's first free frame is taken and becomes a copy of the RAM frame, and no other device changes; -1 with nothing changed when it has none |
| `Process.Process.constructor` | submission/OS BTL/src/mm.c:284-309 | A new process has no page mapped and none listed |
| `Process.Process.MoveOut` | submission/OS BTL/src/mm.c:169-207 | The victim's frame is copied out and its entry points to the copy; -3000 with nothing changed when swap is full |
| `Process.Process.Evict` | submission/OS BTL/src/mm.c:163-207 | In place, the eviction branch computes GrabFrame: code, frame, list, table and devices |
| `Process.Process.PopFrame` | submission/OS BTL/src/mm.c:147 | RAM's free list gives the frame that GrabFrame names, or is empty and nothing changes |
| `Process.Process.ThreadTwice` | submission/OS BTL/src/mm.c:149-160 | The caller's list still holds its frames in order, newest first, after the node's link has been overwritten to thread it onto the used list |
| `Process.Process.TakeFrame` | submission/OS BTL/src/mm.c:145-208 | One iteration on the aliased lists: whole state as GrabFrame, and the caller's list grows by the frame obtained |
| `Process.Process.AllocPagesRange` | submission/OS BTL/src/mm.c:133-211 | On success the first n nodes from the returned head hold exactly the frames obtained, newest first, wherever the used list leads on to; whole state as AllocPages |
| `Process.Process.MapPage` | submission/OS BTL/src/mm.c:115-121 | Entry set and page enlisted as newest |
| `Process.Process.VmapPageRange` | submission/OS BTL/src/mm.c:87-125 | Pages get the frames of the list in order, and the link after the last is never followed |
| `Process.Process.VmMapRam` | submission/OS BTL/src/mm.c:222-253 | In place, the whole mapping computes MapRam, on success and failure |
| `Process.Process.IncVmaLimit` | submission/OS BTL/src/mm-vm.c:106-132 | The break moves by the increment whatever the outcome, and the pages from the old break on are mapped |
| `Process.Process.Grow` | submission/OS BTL/src/libmem.c:93-126 | The symbol is bound to [old break, old break + aligned size) even when the mapping failed |
| `Process.Process.Alloc` | submission/OS BTL/src/libmem.c:72-130 | Whole new state of area, table, list and devices on both paths; always code 0, with the address of the region |
| `Process.Process.TradePlaces` | submission/OS BTL/src/libmem.c:224-286 | The two copies of a fault and the victim's new entry |
| `Process.Process.Vacate` | submission/OS BTL/src/libmem.c:226-286 | The oldest page leaves the list and RAM, and its frame number is returned |
| `Process.Process.Fetch` | submission/OS BTL/src/libmem.c:217-299 | In place, the fault path computes Fault |
| `Process.Process.GetPage` | submission/OS BTL/src/libmem.c:213-304 | The frame field of the entry, after the fault path if the page was absent; a swapped page counts as present |
| `Process.Process.ReadByte` | submission/OS BTL/src/libmem.c:312-351 | The RAM byte at frame and offset; a refused read leaves the byte unset and still reports success |
| `Process.Process.WriteByte` | submission/OS BTL/src/libmem.c:359-396 | The one RAM byte at frame and offset; a refused write changes nothing and still reports success |
| `Process.Process.Read` | submission/OS BTL/src/libmem.c:406-417 | The byte at the symbol's start plus offset; a symbol outside the table is refused with nothing changed |
| `Process.Process.Write` | submission/OS BTL/src/libmem.c:455-466 | Likewise for a write |
| `Queue.Queue.Enqueue` | submission/OS BTL/src/queue.c:10-16 | Appends, or drops the newcomer when ten are queued |
| `Queue.Queue.Dequeue` | submission/OS BTL/src/queue.c:18-30 | The array shift removes and returns the head of the sequence, or nothing when it is empty |
| `Queue.Queue.RemoveAt` | submission/OS BTL/src/sys_killall.c:72-76 | The shifting loop removes exactly the element at i |
| `Scheduler.FirstReady` | submission/OS BTL/src/sched.c:55-62 | The scan stops at the lowest-numbered non-empty level |
| `Scheduler.Mlq.GetProc` | submission/OS BTL/src/sched.c:49-65 | On the array of queues: the head of the lowest non-empty level leaves and is returned; nothing else changes |
| `Scheduler.Mlq.PutProc` | submission/OS BTL/src/sched.c:67-77 | The process joins the end of its own level, if there is room; nothing else changes |
| `Scheduler.GetIsHighest` | submission/OS BTL/src/sched.c:54-64 | A get returns the head of the first non-empty level and removes only it |
| `Scheduler.ReturnedInTurn` | submission/OS BTL/src/sched.c:49-77 | The process at position i of the highest waiting level is returned by exactly the (i+1)-th get, for any puts and adds to that level or lower ones in between |
| `Turns.DispatchedInTurn` | submission/OS BTL/src/os.c:55-76 | In every run of the simulator, the process at position i of the highest waiting level is the (i+1)-th that any CPU gets from then on, whatever is put or added meanwhile at that level or lower ones |
| `Turns.PutBackWaits` | submission/OS BTL/src/os.c:70-76 | A process that a CPU puts back is got again only after all that were waiting at its level, in their order |
| `Turns.RunningIsFirstTen` | submission/OS BTL/src/sched.c:83-107 | The running list holds the first ten processes that were added or put back, once for every time, and nothing leaves it |
| `Killall.SurvivorsExact` | submission/OS BTL/src/sys_killall.c:58-79 | Filtering removes every process of the name and keeps every other one as often as it was there |
| `Killall.SurvivorsInOrder` | submission/OS BTL/src/sys_killall.c:72-77 | And keeps their order: of any two parts of a queue the survivors of the first come first |
| `Killall.RemoveNamed` | submission/OS BTL/src/sys_killall.c:58-79 | The in-place loop ends, leaves exactly the others in their old order, marks every match with pid 0 and counts them |
| `Killall.KillLevels` | submission/OS BTL/src/sys_killall.c:85-109 | At every level exactly the others are left in their old order, every match has pid 0, and the count is the sum |
| `Killall.KillAll` | submission/OS BTL/src/sys_killall.c:55-110 | Running list and all levels are filtered, every process of the name in any of them has pid 0, and the returned count is the total removed |
| `Barrier.InitInv` | submission/OS BTL/src/timer.c:95-118 | The barrier starts in its invariant, for any number of devices |
| `Barrier.StepInv` | submission/OS BTL/src/timer.c:21-93 | Every critical section of timer and devices, spurious wakeups included, keeps the barrier invariant |
| `Barrier.LockStep` | submission/OS BTL/src/timer.c:44-53 | A working device has been released exactly once per tick, and no device is a slot ahead of one that has not posted |
| `Barrier.TickWhenAllWait` | submission/OS BTL/src/timer.c:29-45 | The time moves, by one, only while every device waits inside next_slot or has detached |
| `Barrier.StoppedAllGone` | submission/OS BTL/src/timer.c:54-56 | The timer thread ends only after every device has detached |
| `TimerEnd.TimerStops` | submission/OS BTL/src/timer.c:21-59 | Once every device has detached, every run of the timer is short, ticks at most twice, and can only end with the timer stopped |
| `TimerEnd.GoesOnIffNotStopped` | submission/OS BTL/src/timer.c:21-59 | There, a step other than the call of stop_timer is possible if and only if the timer has not stopped |
| `TimerEnd.GoneStep` | submission/OS BTL/src/timer.c:21-59 | There, only the timer acts, and every action uses up one of finitely many |
| `TimerEnd.StopsAfterLastRound` | submission/OS BTL/src/timer.c:22-56 | A round ends the timer if and only if every device it counted had finished, or stop_timer has been called |
| `Barrier.NoLostWakeup` | submission/OS BTL/src/timer.c:31-36 | Neither timer nor device ever sleeps on a condition that already holds |
| `Barrier.Progress` | submission/OS BTL/src/timer.c:21-93 | While some device has not detached, a thread can take a step other than a spurious wakeup |
| `Barrier.SlotEnds` | submission/OS BTL/src/timer.c:21-93 | Every such step but the tick brings the end of the slot nearer by a measure bounded below, whatever the schedule |
| `Barrier.ReachableInv` | submission/OS BTL/src/timer.c:21-118 | Every reachable state satisfies the invariant |
| `Simulator.RemainingZero` | submission/OS BTL/src/cpu.c:61-70 | No instructions are left in total if and only if none are left in any process |
| `SimulatorSafety.ThreadModes` | submission/OS BTL/src/timer.c:21-93 | Steps of the barrier keep each thread's place in its loop in agreement with its device, and the loader a slot behind its last add |
| `SimulatorSafety.CpuStepModes` | submission/OS BTL/src/os.c:53-99 | Steps of a CPU keep that agreement |
| `SimulatorSafety.LoaderStepModes` | submission/OS BTL/src/os.c:114-139 | Steps of the loader keep it; done is set only when the slot of the last add_proc is over |
| `SimulatorSafety.ThreadComes` | submission/OS BTL/src/os.c:131-138 | When the slot of the last add ends, no CPU is on its way to stopping |
| `SimulatorSafety.CpuStepComes` | submission/OS BTL/src/os.c:53-98 | A CPU gives up only on finding all levels empty |
| `Conservation.HasRoom` | submission/OS BTL/src/queue.c:12-13 | With at most ten processes per priority, the level of a process that is not queued has room |
| `Conservation.TakePlaces` | submission/OS BTL/src/sched.c:49-65 | get_proc moves one process from its queue to one CPU and leaves every other in its one place |
| `Conservation.FreePlaces` | submission/OS BTL/src/os.c:63-69 | A finished process leaves its CPU for good |
| `Conservation.EnqueuePlaces` | submission/OS BTL/src/sched.c:83-107 | put_proc and add_proc move one process to the end of its own level and no other anywhere |
| `Conservation.PutKeepsIffRoom` | submission/OS BTL/src/sched.c:83-94 | put_proc keeps its process in exactly one place if and only if the level has room at that moment |
| `Conservation.AddKeepsIffRoom` | submission/OS BTL/src/sched.c:96-107 | add_proc likewise |
| `Conservation.StepPlacesIff` | submission/OS BTL/src/sched.c:49-107 | With any processes, a step keeps each in exactly one place if and only if it does not put or add one to a full level |
| `Conservation.StepPlaces` | submission/OS BTL/src/sched.c:49-107 | With at most ten processes per priority, in every interleaving each added process is in exactly one place: once in the queue of its priority, with exactly one CPU, or finished and freed |
| `Overflow.RunPlacesIff` | submission/OS BTL/src/sched.c:49-107 | A whole run does so throughout if and only if none of its puts and adds meets a full level |
| `Overflow.ElevenLoseOne` | submission/OS BTL/src/queue.c:12-13 | A run from the start with eleven processes of one priority, in which put_proc loses a loaded, unfinished process |
| `Completion.QuietSlotMeansDone` | submission/OS BTL/src/os.c:53-98 | After loading, a slot that ends without an instruction having run proves that no work is left |
| `Completion.StepInv` | submission/OS BTL/src/os.c:47-141 | All invariants together are kept by every step of every thread |
| `Completion.ReachableInv` | submission/OS BTL/src/os.c:47-141 | And hold in every reachable state |
| `Completion.RunPrograms` | submission/OS BTL/src/cpu.c:61-70 | Over any run, programs only advance; size and priority never change |
| `Completion.FullSliceBeforePut` | submission/OS BTL/src/os.c:70-97 | A process leaves its CPU exactly when it has finished or has run time_slot instructions since its dispatch |
| `Completion.NotBeforeStart` | submission/OS BTL/src/os.c:119-135 | No process is queued, on a CPU or finished before the slot it is configured to start in |
| `LoadTimes.AddedWhenDue` | submission/OS BTL/src/os.c:114-135 | Every process is added exactly in its due slot: its start time, or the slot after the add before it, whichever is later; once that slot is over it has been added, and before it has not |
| `LoadTimes.LoadedIff` | submission/OS BTL/src/os.c:114-138 | Loading is over if and only if the due slot of the last process is |
| `Completion.NoAbandonedWork` | submission/OS BTL/src/os.c:53-98 | Once done is set, an unfinished process implies a CPU that is neither stopped nor on its way to stopping, in every interleaving |
| `Completion.AllStoppedAllComplete` | submission/OS BTL/src/os.c:79-100 | When all CPUs have stopped, every process has been loaded and has run to the end of its program |
| `Completion.BoundedCompletion` | submission/OS BTL/src/os.c:55-97 | After the slot of the last add, all programs are complete within as many slots as instructions were left then |
| `SlotEnd.StepNearer` | submission/OS BTL/src/os.c:47-141 | Every step of any thread inside a slot lowers one measure over barrier, CPUs and loader |
| `SlotEnd.SlotIsFinite` | submission/OS BTL/src/os.c:47-141 | Between two ticks there are at most that many steps, however the threads are scheduled |
| `SlotEnd.NeverStuck` | submission/OS BTL/src/os.c:47-141 | While some thread has not detached, a step other than a spurious wakeup is possible |
| `SlotEnd.IdleStays` | submission/OS BTL/src/os.c:55-62 | A CPU at the head of its loop without a process, with all work done, stays there after every step |
| `SlotEnd.IdleCpuNeverStops` | submission/OS BTL/src/os.c:55-62 | Such a CPU never stops in any run, since that branch does not test done, and so the timer never stops |
| `SlotEnd.StopsIff` | submission/OS BTL/src/os.c:55-82 | When all work is done, a CPU can still stop if and only if it does not stand at the head of its loop without a process |
| `SlotEnd.StopsBySecondAction` | submission/OS BTL/src/os.c:74-82 | And if it does not, it has stopped at its second action at the latest, whatever the other threads do |
| `SlotEnd.EmptyLoadNeverEnds` | submission/OS BTL/src/os.c:55-62 | A concrete case: with no process configured, no run ends |
| `StepBound.StepPotential` | submission/OS BTL/src/os.c:47-141 | Every step of any thread lowers one potential over slots and steps, but for a spurious wakeup, which adds two |
| `StepBound.CompleteWithinBound` | submission/OS BTL/src/os.c:47-141 | One bound per configuration: every run of that many steps, three more for each spurious wakeup in it, has all programs complete |
| `StepBound.GoesOnUntilComplete` | submission/OS BTL/src/os.c:47-141 | A run with an incomplete program can always be taken further by a step that is not a spurious wakeup |

## Left out

- Bringing a swapped page back: the code has no path that does (pg_getpage takes a swapped page for a present one), so the flat-memory theorem is about resident accesses; what happens on others is stated exactly.
- A page fault with an empty replacement list or a full active swap device: the source then goes on with uninitialised numbers (libmem.c:228-231).
- `free_pcb_memph`: its presence test is inverted (libmem.c:502), so that frame conservation does not hold across it.
- Completion.BoundedCompletion: speaks of the processes, not of CPUs stopping; SlotEnd.IdleCpuNeverStops shows that a CPU idle when the work ends does not stop.
- SlotEnd.SlotIsFinite: does not count spurious wakeups, which no bound limits; StepBound.CompleteWithinBound does.
- SlotEnd.StopsIff: speaks of the states in which all work is done; which of them a run reaches depends on the schedule.
- Killall.KillAll: leaves out the release of memory and the reading of the name, and is not interleaved with the scheduler's runs, where an instruction only advances the program counter.
- VmArea.Area.Free: enlists a new node with a copy of the region, where the source enlists a local variable of `__free`, whose lifetime is not modelled; the symbol table is a sequence.
- System.RunKeepsIff: follows a run through the step that breaks the invariant; a process whose replacement list then names a page twice takes no further growth or fault in the model.
- Process.Process.VmapPageRange: does not return the region it fills in, which no caller reads.
- The theorems about several processes are on values; each in-place method is about one process on the shared devices.
- The threads of os.c and timer.c are step relations and not methods, because their loops interleave.
- Lifetimes of freed process blocks, fifo nodes and frame nodes.
- Allocations of size zero or less, and arithmetic beyond the 22-bit space.
- `mem.c`, `paging.c`, the scheduler without levels, the unused `slot` array, `init_pte`, `validate_overlap_vm_area` (its loop never runs) and sequential devices.
- Loading and parsing of files, configuration, printing and dumping, the system call table, `libstd.c`.
