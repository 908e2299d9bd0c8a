# A verified model of the carpincho operating-system simulator

The simulated system is four processes that talk over sockets: a library used by programs
(*carpinchos*), a kernel that schedules them, a memory process with paging, a translation buffer
and a heap per process, and a swap process that keeps pages in files. This project models the
memory process, the swap process, the kernel's planners and semaphores, and the messages between
them, and proves what each promises to the others.

## What is proved

**Memory, whole runs (`Machine`).** For any interleaving of requests from any processes, from
their creation to their end, up to any point at which swap has refused no save, the paged, swapped,
header-linked memory does to every live allocation exactly what a table of independent byte arrays would
do (`RunRefines`) - for every process of which no page has left memory without settling in swap
(`Swap.Settles`: its row stands where its content goes), whatever becomes of the others. It follows that
an allocation of such a process keeps its bytes through every request that neither frees nor writes it
nor ends its process (`AllocationKeeps`) and that a read returns what was last written
(`ReadsLastWrite`), whatever pages were evicted and loaded in between. Whatever swap answers, frames
stay exclusive, the translation buffer agrees with the page tables and stamps order pages by last
access (`RunStructure`): every request is made of elementary changes (`Changes`), each of which keeps
the invariant, and the runs begin in the state the constructor leaves. `Handle` runs the original's
algorithms on fields and a byte array, is proved to answer only as the run theorem allows, and says when
it can be stuck.

**Swap, whole runs (`SwapRuns`).** In any run of saves and finishes, under either assignment and any
quota, a page is fetched with what was last saved and accepted, unless that save did not land
(`FetchGivesLastSave`); when a save lands is said exactly, and no save disturbs another page.

**Kernel, whole runs (`KernelRuns`, `KernelSems`, `KernelCpus`).** In every run each live process is in
exactly the queue of its state, tokens count queues, a live process is in a semaphore's queue exactly
while it waits for it (`RunWaiters`), a post wakes the first live waiter it meets (`PostWakes`), waiters
go through in order, and each semaphore's value is what it was made with plus posts minus waits
(`RunTally`).

The layers below it:

| module | what it holds |
|---|---|
| `Paging`, `Replacement`, `ClockM`, `ClockSteps` | the state of the memory process as a value, its invariant, LRU and Clock-M replacement, and the page fault |
| `FlatSpace`, `Spaces` | the flat byte string `Space` of each process: frame bytes of present pages, swap copies of the others |
| `Memory` | the same state in fields and one byte array, changed by the original's loops: replacement, `GetFrame`, `Edit`, `Read` |
| `Heap`, `HeapRuns` | the chain of nine-byte headers in a byte string, the live allocations, and runs of heap calls |
| `HeapOps`, `FreeFlag`, `HeapCalls`, `MemoryCalls` | process creation and deletion, memalloc, memfree, memread and memwrite on the paged memory |
| `Changes` | the elementary changes every state of the memory process comes about by |
| `ClockProgress` | when page replacement is never stuck |
| `PageBits`, `SwapTraffic` | the use and modified bits over runs and what they make of Clock-M; what is left in swap, and the roll-back flag |
| `Tlb`, `TlbRuns` | the translation buffer, and which page it gives up over runs |
| `Swap`, `SwapServer`, `SwapRuns` | the swap store as a value, in fields, and over runs |
| `Serialization`, `Requests`, `SwapLink`, `KernelRequests` | the encoder, the decoders, and the exchanges between memory and swap and between library and kernel byte for byte |
| `Kernel`, `KernelRuns`, `KernelMoves`, `KernelSems`, `KernelCpus`, `KernelFifo`, `Planner`, `KernelSuspension` | the six-state process machine as a step relation, where each step takes whom, its invariants over runs, semaphores and their waiters over runs, the planners that take the steps on fields, and two runs that show faults |
| `CounterExamples` | one run or input for each place where the heap, the buffer and the swap store fail |
| `Arith`, `Bytes`, `Options`, `Outcomes`, `Faults` | small helpers |

## Results about the code as it is

Where the code does not meet its intent, the model keeps the code, states when it does, and gives an
input for which it does not (`CounterExamples`, `KernelSuspension`):

* `Heap.ReuseKeepsChain`: reusing a free block keeps the header chain exactly when the block is not
  split; the split branch writes the new header four bytes past the address it records.
* `Heap.FreeKeepsChain`: memfree keeps the chain exactly when it does not give the last page back;
  that branch makes a live block the last header.
* `Replacement.LruDropsWrongEntry`: LRU drops the buffer entry under the requester's number, so the
  buffer keeps agreeing exactly when the victim is the requester's or was not in the buffer.
* `ClockM.SecondVictim`, `Replacement.ClockFreesOneOrTwo`: Clock-M evicts a second page exactly when
  the hand stands on a used, unmodified page, the page just behind it is unused and modified, and
  every other page is used. (Modified pages are evicted in the second sweep as soon as they are unused.)
* `Swap.DynamicComesBack`: under dynamic assignment a page whose save is accepted comes back exactly when it
  settles, that is, when its row stands at a frame of the file, or its file has no tombstone, or it is the
  first page of its process and its row takes the place of a tombstone that is not behind all live rows.
  Otherwise content and row go to different frames, and `Swap.DynamicNewPage` says what the fetch then gives.
* `Swap.FixedOverQuota`: past its quota a process is refused exactly while its file has no tombstone;
  otherwise the save is reported accepted and nothing is stored under its number.
* `Swap.SmallQuotaComesBack`: with a quota of one page a first page comes back exactly when the first free row
  is not the last row of the table; there content and row go to different frames.
* `Heap.FreeLastKeepsChain`: memfree accepts the last header too, and keeps the chain then exactly when the
  block before is busy and no page is given back.
* `KernelRuns.RunSlots`: the multiprogramming slots are conserved exactly in runs without a deadlock close
  of a suspended process; `KernelSuspension.CloseGivesSlotTwice` is a run with one.
* `KernelCpus.RunCpus`, `KernelCpus.RunCpuBalance`: the CPU hand-out is exclusive, and the CPUs are conserved,
  exactly at the points of a run before which the suspender has not posted liberar_CPU again.
  `KernelSuspension.SuspensionSharesCpu` is a run with such a post in which two processes execute on one CPU.
* `Requests.AnswerRead`: the answer to a read is cut to four bytes when the bytes start with the image
  of the fault code.
* `Serialization.BlockIsSentWhole`: a `%v` field is sent whole exactly when the four bytes before it hold its
  length.

Run `dafny verify dfyconfig.toml` to check the project.

## Model

| member | source | states |
|---|---|---|
| `Machine.RunRefines` | memoria/src/memory_utils.c:60-398 | up to any point of any run of interleaved requests, processes ending included, at which swap has refused no save: each request changes the live allocations of all processes as it would change independent byte arrays, and their heaps stay well formed - of all processes but those of which a page left memory without settling in swap, whose requests the others do not notice |
| `Machine.AllocationKeeps` | memoria/src/memory_utils.c:282-398 | an allocation keeps its bytes through any requests of any processes that neither free nor write it nor end its process, for as long as its own process has lost no page and no save was refused |
| `Machine.ReadsLastWrite` | memoria/src/memory_utils.c:349-398 | a memread gives back what the last memwrite at that address stored, whatever was asked of other allocations, whatever pages came and went and whatever other processes lost in between |
| `Machine.RunStructure` | memoria/src/memory_utils.c:620-1015 | whatever swap answers, at every point of a run from the initial state no two pages share a frame, present pages have frames and absent ones the marker, the i-th page is numbered i, buffer entries name present pages and their frames, stamps are the order of last accesses; by induction over the elementary changes each request is made of |
| `Machine.ServedMeans` | memoria/src/main.c:191-261 | one answered request does to the table of live allocations what it means and answers what it means: the process number for a creation, the address for a memalloc, the fault codes for addresses past the last header and 1 otherwise; a request of a process that has lost a page changes nothing for the others |
| `Machine.Handle` | memoria/src/main.c:191-261 | the handler's switch, run on the fields: its answer and new state are ones the run theorem allows, and the new state is reached by elementary changes; it is stuck only where a new process finds no free frame, where LRU may run out of stamps, or under Clock-M where some frame had no owner or a replacement of this request took two pages |
| `Machine.CloseTakesOut` | memoria/src/memory_utils.c:1317-1347 | once a process has ended it has no table, swap has it registered nowhere, fetches nothing of it, has tombstones for its rows and zeros for its frames in every file, and fetches every other page of every process as before |
| `Changes.ChangeKeeps` | memoria/src/memory_utils.c:282-1799 | each elementary change - a page accessed, bytes copied into a frame, a page sent, evicted, added or deleted, a process entered or deleted - keeps the whole invariant |
| `Changes.ReachedStructure` | memoria/src/memory_utils.c:3-1799 | in every state reached from the initial one by any elementary changes, whatever swap answers: exclusive frames, pages numbered by place, a buffer that agrees with the tables, stamps that order last accesses |
| `Paging.EvictKeeps` | memoria/src/memory_utils.c:1464-1492 | saving a page, dropping its buffer entry and freeing its frame keeps the invariant and changes no byte of any process that is sound afterwards: no save refused, and this page settled if it is its own |
| `Paging.LoadKeeps` | memoria/src/memory_utils.c:970-992 | bringing an absent page in puts it into the first frame that no page has, keeps the invariant and changes no byte any process sees |
| `Paging.TouchKeeps` | memoria/src/memory_utils.c:995-1002 | stamping a page keeps stamps equal to the positions of last accesses, and changes no byte |
| `Paging.RememberKeeps` | memoria/src/memory_utils.c:1007-1009 | after the buffer learns a page its lookup gives that page's frame, every entry still agrees with the tables, no byte changes |
| `Paging.WriteKeeps` | memoria/src/memory_utils.c:282-347 | writing into the frame of a present page patches that page's bytes and no other page's |
| `Paging.SendKeeps` | memoria/src/memory_utils.c:1820-1844 | sending a page to swap, settled or not, changes what its process sees only if the page is absent, and nothing of any other process |
| `Replacement.AccessIsInvisible` | memoria/src/memory_utils.c:941-1015 | a page access, hit or fault with eviction, leaves every byte of every sound process as it was and ends with the page present at the returned frame, its use bit set, stamped last and known to the buffer |
| `Replacement.StampsOrderPages` | memoria/src/memory_utils.c:999-1002 | stamps are pairwise distinct and ordered as the pages' last accesses |
| `Replacement.LruIsLeastRecent` | memoria/src/memory_utils.c:1407-1463 | every other present page was accessed after the chosen victim last was |
| `Replacement.LruIsUnique` | memoria/src/memory_utils.c:1407-1463 | there is one least recently used page to choose |
| `Replacement.LruDropsWrongEntry` | memoria/src/memory_utils.c:1478 | LRU keeps buffer and tables agreeing exactly when the victim belongs to the requester or is not in the buffer |
| `Replacement.ClockFrees` | memoria/src/memory_utils.c:1495-1679 | Clock-M replacement keeps every byte and frees the victim's frame, and the one under the hand exactly when a second page goes |
| `Replacement.ClockFreesOneOrTwo` | memoria/src/memory_utils.c:1495-1679 | with every frame owned, Clock-M frees one frame, or two exactly in the one configuration that TwoVictims describes, and the count of doubles says which |
| `Replacement.EvictedKeeps` | memoria/src/memory_utils.c:1393-1405 | either replacement leaves a free frame and no process sees a change |
| `Replacement.EvictedZeroes` | memoria/src/memory_utils.c:1747-1799 | either replacement leaves zeros in the frames it empties and touches no other frame |
| `Replacement.ClockMovesOn` | memoria/src/memory_utils.c:1555-1678 | the next Clock-M replacement meets the frame just emptied last, or last but one when the hand had to move past where it began |
| `Replacement.AccessedIsNewest` | memoria/src/memory_utils.c:941-1015 | after an access, hit or fault, the buffer holds the page as the one most recently used, whatever its replacement algorithm |
| `PageBits.ChangeBits` | memoria/src/memory_utils.c:282-1799 | an elementary change sets the use bit of the page it accesses or adds and clears those the clock passes; it sets the modified bit of the page it writes, marks or creates a process with, and clears that of a page it loads or evicts; it touches no other bit |
| `PageBits.UsedSince` | memoria/src/memory_utils.c:941-1015 | at every point of every run a page is used if and only if a change added or accessed it since which no clock has passed it |
| `PageBits.ModifiedSince` | memoria/src/memory_utils.c:282-1799 | at every point of every run a page is modified if and only if a change wrote, marked or created it since which it has neither been loaded nor evicted |
| `PageBits.AccessedGoesLast` | memoria/src/memory_utils.c:1495-1679 | in every run Clock-M takes a page accessed since the clock last ran only if every page in memory is used, except as the second page of a double replacement |
| `PageBits.OldestGoes` | memoria/src/memory_utils.c:1407-1463 | in every run a replacement under LRU takes one page only, and every other page in memory was accessed after that one last was |
| `PageBits.ReachedByHistory` | memoria/src/memory_utils.c:3-1799 | every state the elementary changes reach is the end of such a run |
| `SwapTraffic.EditedIsStored` | memoria/src/memory_utils.c:282-347 | a page written is stored in swap at once, with what its frame then holds, unless swap refuses it or has no place where it settles |
| `SwapTraffic.RefusedSince` | memoria/src/memory_utils.c:1838-1840 | at every point of every run the roll-back flag is up if and only if swap has refused a save since memalloc last put it down |
| `ClockM.ChooseByClass` | memoria/src/memory_utils.c:1505-1678 | the victim is a page neither used nor modified if there is one; otherwise an unused page if there is one; otherwise an unmodified one if there is one; otherwise the page the hand began on |
| `ClockM.ChooseFirst` | memoria/src/memory_utils.c:1505-1678 | the victim is the first page of its class in cyclic order from the hand |
| `ClockM.SecondVictim` | memoria/src/memory_utils.c:1590-1678 | a second page goes exactly when the hand began on a used, unmodified page, the page just behind is unused and modified, and all others are used |
| `ClockM.ClearedBelowIs` | memoria/src/memory_utils.c:1590-1676 | a use bit is cleared exactly when no page is neither used nor modified and every page met from the hand up to that one is used |
| `ClockM.FirstSeesAll` | memoria/src/memory_utils.c:1505-1588 | a sweep finds a page of the wanted class exactly when there is one |
| `ClockProgress.ClockServes` | memoria/src/memory_utils.c:1495-1679 | under Clock-M, while every frame is owned, no page access is ever stuck |
| `ClockProgress.AccessOwns` | memoria/src/memory_utils.c:941-1015 | such an access leaves every frame owned exactly when the page was present or replacement took one page only |
| `ClockProgress.AccessStays` | memoria/src/memory_utils.c:941-1015 | under either algorithm, an access after which no replacement more has taken two pages leaves every frame owned if every frame was |
| `FlatSpace.PagePatched` | memoria/src/memory_utils.c:282-347 | patching a page patches its process's address space at page start plus offset |
| `FlatSpace.PagePatchedElsewhere` | memoria/src/memory_utils.c:282-347 | and leaves every other address space as it was |
| `FlatSpace.PageSlice` | memoria/src/memory_utils.c:349-398 | a piece of a page is the piece of the address space it lies at |
| `FlatSpace.FlatPrefix` | memoria/src/memory_utils.c:620-739 | pages added at the end leave all addresses before them with their bytes |
| `Spaces.EditedWrites` | memoria/src/memory_utils.c:282-347 | access, copy, mark and send of one page sets exactly its piece of the range and no other byte of any process |
| `Spaces.AccessReads` | memoria/src/memory_utils.c:349-398 | access and copy out of one page gives exactly the bytes of the address space there |
| `Spaces.WrittenTwice` | memoria/src/memory_utils.c:316-346 | two writes side by side are one write, also when loading the second page evicts the first |
| `Spaces.PieceFits` | memoria/src/memory_utils.c:282-398 | the pieces a range is cut into follow one another page by page and end with the range |
| `Spaces.LruFinds` | memoria/src/memory_utils.c:1407-1463 | while stamps are below 99999 and some page is in memory, LRU has a victim |
| `Memory.Memory.constructor` | memoria/src/memory_utils.c:3-58 | a memory with no process, of zero or more whole frames, that meets the invariant |
| `Memory.Memory.FindOwner` | memoria/src/memory_utils.c:1681-1713 | the scan gives a page whose frame is the one asked for exactly when some page has it |
| `Memory.Memory.NewEmptyFrame` | memoria/src/memory_utils.c:741-806 | the first frame no page has, under dynamic assignment |
| `Memory.Memory.TlbFetch` | memoria/src/memory_utils.c:2024-2059 | a hit gives the entry's frame and refreshes its counter |
| `Memory.Memory.TlbAdd` | memoria/src/memory_utils.c:1882-1970 | the addition AddLosesLeast describes, computed by the original's scans: a blank entry, the end of the list or the oldest entry |
| `Memory.Memory.TlbDelete` | memoria/src/memory_utils.c:1993-2022 | the entry with exactly that process, page and frame becomes blank |
| `Memory.Memory.FreeFrameOf` | memoria/src/memory_utils.c:1747-1799 | the page of the frame becomes absent with the marker frame and the frame's bytes zero; no other page changes |
| `Memory.Memory.SelectLru` | memoria/src/memory_utils.c:1407-1493 | evicts the least recently used present page; has no result exactly when no present page is below the stamp limit |
| `Memory.Memory.SelectClock` | memoria/src/memory_utils.c:1495-1679 | evicts what the Clock-M rule chooses, in at most four sweeps, and is stuck exactly when it meets a frame without owner before its victim |
| `Memory.Memory.CleanSweep` | memoria/src/memory_utils.c:1505-1588 | the first loop evicts the first page neither used nor modified in cyclic order, or comes back to where it began |
| `Memory.Memory.UseSweep` | memoria/src/memory_utils.c:1590-1676 | the second loop clears the use bits it passes and evicts the first unused page, or comes back with every use bit clear |
| `Memory.Memory.MakeRoom` | memoria/src/memory_utils.c:1393-1405 | dispatch to the configured algorithm; defined exactly when CanEvict holds |
| `Memory.Memory.GetFrame` | memoria/src/memory_utils.c:941-1015 | the frame of the page, brought in if absent, present and with its use bit set; the new state is one AccessIsInvisible describes |
| `Memory.Memory.Edit` | memoria/src/memory_utils.c:282-347 | a write over any number of pages sets exactly [start, start+n) of the process and no other byte of any process, with one access per page touched |
| `Memory.Memory.Read` | memoria/src/memory_utils.c:349-398 | a read over any number of pages gives exactly those bytes and changes none |
| `Memory.ScanKey` | memoria/src/memory_utils.c:2024-2059 | the first entry of that process and page, or the length of the list |
| `Memory.ScanBlank` | memoria/src/memory_utils.c:1874-1880 | the first blank entry, or the length of the list |
| `Memory.ScanOldest` | memoria/src/memory_utils.c:1972-1991 | the entry with the smallest counter, the last of equals |
| `Tlb.AddThenLookup` | memoria/src/memory_utils.c:1882-1970 | after an addition keys stay unique, the size stays within the maximum, the page added is found at its frame, and any other page is found where it was or, if evicted, not at all |
| `Tlb.DropThenLookup` | memoria/src/memory_utils.c:1993-2022 | a deletion removes that page's entry if it names that frame, and no other page's |
| `Tlb.UsedThenLookup` | memoria/src/memory_utils.c:2024-2059 | a hit changes no lookup |
| `TlbRuns.AddLosesLeast` | memoria/src/memory_utils.c:1882-1991 | an addition to a full buffer costs exactly one page, one whose counter - arrival under FIFO, use under LRU - is least, and every other page is found as before; any other addition costs none, and a page already there changes nothing |
| `TlbRuns.RunLosesOldest` | memoria/src/memory_utils.c:1882-2059 | in every run of additions, lookups and deletions an addition to a full buffer costs exactly one page: under FIFO the one that came in longest ago, under LRU the one longest neither come in nor found |
| `Heap.ChainIsUnique` | memoria/src/memory_utils.c:512-595 | a heap has one header chain |
| `Heap.StoreKeeps` | memoria/src/memory_utils.c:1368-1391 | a write of at most its size into a live block changes that block's bytes and no header nor other block |
| `Heap.AppendKeeps` | memoria/src/memory_utils.c:98-141 | closing the last header and writing a new one behind n bytes extends the chain by one block of n bytes and leaves every other block as it was |
| `Heap.FlagKeeps` | memoria/src/memory_utils.c:190-199 | flipping a free flag changes whether that block is live and nothing else |
| `Heap.MergeKeeps` | memoria/src/memory_utils.c:1102-1107 | joining a freed block to the free block before it takes exactly its header out of the chain, both directions, and changes no live block |
| `Heap.FreeKeeps` | memoria/src/memory_utils.c:1017-1123 | memfree ends one allocation, keeps all others and the chain, when it does not give the last page back |
| `Heap.FreeJoins` | memoria/src/memory_utils.c:1094-1108 | a freed block joins a free block before it into one free block with room up to the next header, and otherwise becomes a free block by itself |
| `Heap.FreeKeepsChain` | memoria/src/memory_utils.c:1110-1117 | memfree keeps a chain exactly when it does not give the last page back |
| `Heap.ReuseKeepsChain` | memoria/src/memory_utils.c:186-275 | reusing a free block keeps a chain exactly when the block is not split |
| `Heap.FirstFit` | memoria/src/memory_utils.c:512-595 | the first free block with enough room, or the last header when there is none |
| `Heap.GrowthIsExact` | memoria/src/memory_utils.c:98-174 | growth adds exactly the pages up to the one the new last header ends on, the new header fits, and the roll-back loop's range is exactly the pages added |
| `Heap.FreeLastKeepsChain` | memoria/src/memory_utils.c:1034-1117 | memfree of the last header, which the code accepts, keeps a chain exactly when the block before is busy and the page is not given back, and then changes no allocation |
| `HeapRuns.CallRefines` | memoria/src/memory_utils.c:60-280 | each heap call keeps the chain and does to the live allocations exactly what it promises its caller |
| `HeapRuns.RunKeeps` | memoria/src/memory_utils.c:60-280 | the chain and those promises hold at every point of every run of one process's heap calls |
| `HeapRuns.OthersKeepBytes` | memoria/src/memory_utils.c:60-280 | in such a run an allocation not freed or written keeps its bytes |
| `HeapRuns.LiveApart` | memoria/src/memory_utils.c:60-280 | live allocations do not overlap, headers included |
| `HeapOps.CreatedKeeps` | memoria/src/memory_utils.c:1209-1250 | a new process has an empty heap on one page; no other process sees a change |
| `HeapOps.DeletedKeeps` | memoria/src/memory_utils.c:1317-1347 | deleting a process keeps the structure, frees its frames, and no other process sees a change |
| `HeapOps.DeletedTakesOut` | memoria/src/memory_utils.c:1334-1336 | and takes all its pages out of swap, and nobody else's |
| `HeapOps.DeletedMakesRoom` | memoria/src/memory_utils.c:1334-1336 | a file in which the ended process had every live row takes the first page of a process that is not registered yet |
| `HeapOps.AddedGrows` | memoria/src/memory_utils.c:620-690 | a page added lies behind the process's bytes in the first free frame, shows what that held, and changes no byte of anybody's |
| `FreeFlag.FlagOnPage` | memoria/src/memory_utils.c:1048-1059 | a flag set through the frame of one page is one byte of the address space set, and the links read are the header's |
| `FreeFlag.FlagAcross` | memoria/src/memory_utils.c:1062-1092 | a flag set through a copy of two pages is one byte of the address space set, even when bringing in the second page evicted the first |
| `HeapCalls.AllocatedMeans` | memoria/src/memory_utils.c:60-280 | memalloc returns an address that was not live, with at least the bytes asked for, and changes no other allocation of any process |
| `HeapCalls.AllocatedFirst` | memoria/src/memory_utils.c:60-280 | memalloc takes the first free block with room; only without one the block goes behind the last header, and only if it does not fit there the process grows, to less than a page more than it needs |
| `HeapCalls.FreedMeans` | memoria/src/memory_utils.c:1017-1123 | memfree ends that allocation and no other, unless it gives the last page back |
| `HeapCalls.FreedJoins` | memoria/src/memory_utils.c:1017-1123 | memfree leaves the block free on the paged memory, joined to a free block before it |
| `HeapCalls.FreedLastMeans` | memoria/src/memory_utils.c:1034-1117 | memfree of the last header ends no allocation where the block before is busy and no page is given back |
| `HeapCalls.StoredMeans` | memoria/src/memory_utils.c:1368-1391 | memwrite changes that allocation's bytes and nothing else |
| `HeapCalls.WriteThenRead` | memoria/src/memory_utils.c:463-495 | memread after memwrite gives the data back whatever faults lie between them |
| `HeapCalls.CutKeeps` | memoria/src/memory_utils.c:1125-1167 | deleting the pages after the k-th leaves the first k pages, their bytes and the invariant |
| `MemoryCalls.Calls.CreateProcess` | memoria/src/memory_utils.c:1209-1250 | an empty heap on a new page; stuck exactly when no frame is free |
| `MemoryCalls.Calls.DeleteProcess` | memoria/src/memory_utils.c:1317-1347 | the process's table goes, swap keeps nothing of it and everything of the others, and every other process keeps its bytes |
| `MemoryCalls.Calls.FindFit` | memoria/src/memory_utils.c:512-595 | while swap refuses nothing, the first free block with enough room, found by reading headers page by page; the bytes of no process change |
| `MemoryCalls.Calls.AddPages` | memoria/src/memory_utils.c:620-690 | grows the process by exactly the pages computed and changes no byte there was |
| `MemoryCalls.Calls.RollBack` | memoria/src/memory_utils.c:167-174 | deletes exactly the pages added |
| `MemoryCalls.Calls.AllocateGrowing` | memoria/src/memory_utils.c:142-185 | grows, writes the two headers, deletes the new pages again exactly when swap refused a save during this call, and moves the last header in any case |
| `MemoryCalls.Calls.Memalloc` | memoria/src/memory_utils.c:60-280 | a whole memalloc: reuse, append in place or grow; its result is one AllocatedMeans describes |
| `MemoryCalls.Calls.Memfree` | memoria/src/memory_utils.c:1017-1123 | a whole memfree of a block or of the last header, header on one page or across two; the fault code past the last header |
| `MemoryCalls.Calls.Memread` | memoria/src/memory_utils.c:463-495 | the bytes behind the header, nothing changed; the fault code from the last header on |
| `MemoryCalls.Calls.Memwrite` | memoria/src/memory_utils.c:1368-1391 | the bytes behind the header set, nothing else changed; the fault code from nine bytes before the last header on |
| `Swap.FixedSaveThenFetch` | swamp/src/swap.c:88-237 | fixed assignment: within its quota a process's save is accepted and fetched back, and every other page of every process is fetched as before; aligned blocks are kept |
| `Swap.FewerPagesThanQuota` | swamp/src/swap.c:200-234 | a process with fewer stored pages than its quota has a reserved row left |
| `Swap.FixedFirstSaveAccepted` | swamp/src/swap.c:91-110 | a first save is refused exactly when no file has a quota of free frames, and then changes nothing |
| `Swap.FixedOverQuota` | swamp/src/swap.c:209-221 | past its quota a save is refused exactly while the file has no tombstone; refused or accepted, it is never fetched back, keeps the aligned blocks and leaves every page of every process fetched as before |
| `Swap.FixedFinishKeeps` | swamp/src/swap.c:382-418 | finishing a process keeps the table in aligned blocks of one owner |
| `Swap.DynamicSaveThenFetch` | swamp/src/swap.c:240-348 | dynamic assignment, after any finishes: every save, settled or not, keeps the tables and leaves every other page of every process fetched as before, and an accepted save that settles is fetched back |
| `Swap.DynamicSaveAccepted` | swamp/src/swap.c:240-348 | a stored page can always be saved again, and settles; a new one is refused exactly when its file, or for a new process every file, is full of live rows; a refusal changes nothing |
| `Swap.DynamicNewPage` | swamp/src/swap.c:243-345 | dynamic assignment, after any finishes, for registered and new processes alike: a page stored for the first time is fetched back if it settles; otherwise the fetch gives what the frame of the last row held, or has no frame to read |
| `Swap.DynamicComesBack` | swamp/src/swap.c:243-345 | a page whose save is accepted comes back whatever its content if and only if it settles: its row stands at a frame of the file, or is new and its file has no tombstone, or is the first of its process and takes a tombstone's place |
| `Swap.FinishKeepsRowed` | swamp/src/swap.c:382-418 | finishing a process where rows are handed out one at a time keeps every other page where its row says |
| `Swap.SettlesUntilFinish` | swamp/src/swap.c:240-348 | until a process finishes every page settles |
| `Swap.SmallQuotaSaveThenFetch` | swamp/src/swap.c:88-237 | fixed assignment with a quota of one page: every save keeps the tables and every other page, and an accepted save that lands is fetched back |
| `Swap.SmallQuotaComesBack` | swamp/src/swap.c:145-170 | with a quota of one page a page whose save is accepted comes back whatever its content if and only if it lands: it has its row at a frame of the file, or it is the first of its process and the first free row is not the last row |
| `Swap.FinishIsExact` | swamp/src/swap.c:382-418 | exactly the process's rows become tombstones and exactly its frames zero; every page of every other process is fetched as before |
| `Swap.FinishTakesOut` | swamp/src/swap.c:382-418 | afterwards the process is registered nowhere, no file has a row of it, its frames hold zeros, nothing of it is fetched, and everything else is as before |
| `Swap.LeastUsed` | swamp/src/swap.c:420-443 | the earliest file with the most free frames, if any has one |
| `Swap.FirstGoesToEmptiest` | swamp/src/swap.c:91-110 | under either assignment the first page of a process goes to the earliest of the files with the most free frames, and to no other |
| `Swap.FrameNumber` | swamp/src/swap.c:490-515 | the first row of that process and page, or the length of the table |
| `Swap.FirstFree` | swamp/src/swap.c:459-488 | the first tombstone or row reserved for the process, or the length of the table |
| `SwapServer.TableSize` | swamp/src/swap.c:569-582 | the number of rows that are not tombstones |
| `SwapServer.FirstFreeFrame` | swamp/src/swap.c:459-488 | the loop computes FirstFree |
| `SwapServer.FindFrame` | swamp/src/swap.c:490-515 | the loop computes FrameNumber |
| `SwapServer.Server.LeastUsedFile` | swamp/src/swap.c:420-443 | the loop over the files computes LeastUsed |
| `SwapServer.Server.ReserveBlock` | swamp/src/swap.c:145-170 | the two loops lay down the block of reserved rows, replaced or added |
| `SwapServer.Server.SavePage` | swamp/src/swap.c:73-348 | answer and new tables, bytes and dictionary are those of the store's Save |
| `SwapServer.Server.FetchPage` | swamp/src/swap.c:350-380 | the bytes of the frame at the row's place, which is the page's stored copy where there is one; for a page without a row the frame behind the table, as the code reads it |
| `SwapServer.Server.FinishProcess` | swamp/src/swap.c:382-418 | the new tables, bytes and dictionary are those of the store's Finish, though each row's frame is looked up again by contents |
| `SwapRuns.SaveThenFetch` | swamp/src/swap.c:73-348 | under every assignment and quota, after any saves and finishes: a save disturbs no other page of any process, an accepted one that lands is fetched back, a refused one changes nothing |
| `SwapRuns.FetchGivesLastSave` | swamp/src/swap.c:73-418 | in every run of any saves and finishes from empty files, under every assignment and quota: a page is fetched with exactly the content last saved and accepted since its process began, and with none if there is none, unless that last save did not land - whatever became of other pages |
| `SwapRuns.NothingLostUntilFinish` | swamp/src/swap.c:240-348 | under dynamic assignment every accepted save of every run lands until a process finishes |
| `SwapRuns.NothingLostWithinQuota` | swamp/src/swap.c:88-237 | under fixed assignment with a quota of two or more no page is ever lost of a process that stays within it, whatever the others do |
| `Serialization.WellFormedIsSentWhole` | shared/src/serialization.c:60-137 | with each pointer behind its length, the stream is the fields one after the other |
| `Serialization.EncodedSize` | shared/src/serialization.c:60-137 | the stream is exactly as long as the sum of its field sizes |
| `Serialization.FieldAt` | shared/src/serialization.c:60-137 | each field lies at the sum of the sizes before it |
| `Serialization.FieldIsFound` | shared/src/serialization.c:60-137 | a field lies at an offset exactly when reading there finds its argument: an int or word its value, a char its byte, a double its eight bytes, a string its length and then its characters in order, a pointer its bytes |
| `Serialization.SentIsFound` | shared/src/serialization.c:60-137 | in what is sent a reader finds every argument at the sum of the sizes before it |
| `Serialization.BlockIsSentWhole` | shared/src/serialization.c:117-124 | a pointer's bytes arrive whole exactly when the four bytes before are their number |
| `Serialization.EncodingIsUnambiguous` | shared/src/serialization.c:14-147 | no bytes carry two different argument lists of the same kinds |
| `Serialization.IntRoundTrip` | shared/src/serialization.c:77-85 | four bytes are the image of an int exactly when reading them gives it |
| `Serialization.IntIsTwosComplement` | shared/src/serialization.c:77-85 | the int read is the word there, counted as negative from 2^31 on |
| `Serialization.FormatIsAccepted` | shared/src/serialization.c:3-58 | every non-empty argument list has a format that splitting and get_type read back as its kinds |
| `Serialization.NamesMean` | shared/src/serialization.c:3-12 | s, d, c, f, u and v announce a string, an int, a char, a double, a word and a pointer, and nothing else |
| `Serialization.CountFields` | shared/src/serialization.c:32-38 | the loop counts as many fields as splitting at the percent signs gives names |
| `Serialization.Append` | shared/src/serialization.c:60-137 | the switch on one field appends that field's bytes, which FieldIsFound describes, and moves the offset behind them |
| `Serialization.Serialize` | shared/src/serialization.c:14-147 | null exactly for a format that does not start with a percent sign or has an unknown name; otherwise a new buffer of the size asked for that starts with the fields, in which a reader finds every argument at its offset |
| `Requests.DeserializeMemAlloc` | memoria/src/main.c:294-301 | the pair decoded is the only one the payload can carry |
| `Requests.DeserializeMemFree` | memoria/src/main.c:303-310 | the pair decoded is the only one the payload can carry |
| `Requests.DeserializeMemRead` | memoria/src/main.c:312-322 | the triple decoded is the only one the payload can carry |
| `Requests.DeserializeMemWrite` | memoria/src/main.c:324-340 | the process, address and bytes decoded are the only ones the payload can carry |
| `KernelRequests.ArmarPaquete` | mate-lib/src/matelib.c:15-20 | the library's message is exactly as long as the encoding of its structure, and carries it |
| `KernelRequests.Deserializar` | kernel/src/main.c:220-256 | nothing for a process the kernel does not know; otherwise number, semaphore, value and device are the only ones the message can carry |
| `KernelRequests.CallArrives` | kernel/src/main.c:220-256 | packed, sent and read, the kernel has the names and the value the library was given |
| `Bytes.WordIsLittleEndian` | shared/src/serialization.c:105-113 | the first of a word's four bytes counts ones, the last 2^24s |
| `Requests.AnswerRead` | memoria/src/main.c:219-232 | the bytes are answered whole exactly when they do not start with the fault code's image or are just four; undefined exactly for fewer than four bytes |
| `SwapLink.Console.SavePage` | swamp/src/consola.c:75-112 | a save request is obeyed exactly when its length fits the page size; the answer is 1 or 0 as the store says |
| `SwapLink.Console.FetchPage` | swamp/src/consola.c:114-155 | the answer to a fetch is what obtener_pagina reads, behind the page size |
| `SwapLink.Console.Finish` | swamp/src/consola.c:157-169 | a finish request is obeyed exactly when it is one int long |
| `SwapLink.SendPage` | memoria/src/memory_utils.c:1820-1844 | serialized, decoded, stored, answered and read, sending a page is one call of the store; with another page size nothing happens and no answer comes |
| `SwapLink.AskForPage` | memoria/src/memory_utils.c:977-989 | asking for a page gives exactly the bytes obtener_pagina reads, the stored copy where there is one |
| `SwapLink.SendFinish` | memoria/src/memory_utils.c:1334-1336 | announcing the end of a process is one Finish of the store |
| `KernelRuns.StepKeeps` | kernel/src/main.c:261-1415 | every step keeps the invariant of queues, tokens, waiting, semaphores and CPUs |
| `KernelRuns.RunKeeps` | kernel/src/main.c:261-1415 | the invariant holds at every point of every run |
| `KernelRuns.RunQueues` | kernel/src/main.c:975-1273 | each live process is in exactly the queue of its state, once, and queues hold live processes only |
| `KernelRuns.RunSlots` | kernel/src/main.c:975-1273 | the arrival and ready tokens count their queues; free slots and processes in memory add up to the degree of multiprogramming plus one for each deadlocked process closed while suspended, so to the degree exactly without such a close |
| `KernelCpus.RunCpus` | kernel/src/main.c:1377-1415 | at a point of a run no CPU is free twice, no two executing processes share one and each is free, held by one or being released, if and only if the suspender has not posted a release again before; then no more processes execute than there are CPUs |
| `KernelCpus.RunCpuBalance` | kernel/src/main.c:1088-1415 | free CPUs, executing processes and pending releases add up to the number of CPUs plus the suspender's posts, so to that number exactly in runs without one |
| `KernelSuspension.SuspensionSharesCpu` | kernel/src/main.c:1214-1273 | a run of sixteen steps in which that post lets two processes execute on the only CPU |
| `KernelRuns.RunSemaphores` | kernel/src/main.c:500-689 | waiters queued are never fewer than minus the value, waits let through never exceed initial value plus posts, and queued live waiters are blocked |
| `KernelRuns.PostIsFifo` | kernel/src/main.c:563-689 | one post lets through at most one process, the first of the queue that is alive, as far as the code looks; only dead waiters before it leave with it |
| `KernelFifo.RunIsFifo` | kernel/src/main.c:500-689 | over whole runs: for as long as a live process is queued on a semaphore, whoever was queued after it stays queued behind it, so of two waiters the later is never let through first |
| `KernelFifo.RunLetsOneThrough` | kernel/src/main.c:500-689 | every step of a run lets at most one wait through on a semaphore, and none while it leaves the value negative |
| `KernelMoves.StepMoves` | kernel/src/main.c:261-1275 | every step takes at most one process somewhere, the one and to where its source says - first suspended or else new to READY, chosen to EXEC, caller to BLOCKED, last blocked to SUSPENDED-BLOCKED exactly if some arrive and none is ready, woken to READY or SUSPENDED-READY, closed out - to the end of that queue; every other process keeps its place, and number of CPU, waiting and held semaphore change as told |
| `KernelMoves.StepHands` | kernel/src/main.c:1028-1415 | every step's effect on each CPU's three semaphores, the list of free CPUs, the token of the suspender, posted exactly by a dispatch without a free slot, and the next process number |
| `KernelSems.PostWakes` | kernel/src/main.c:563-689 | the waiter a post meets alive once the value is not negative waits for nothing any more, is off the semaphore's queue and last in READY, or SUSPENDED-READY if it was suspended, with that queue's token posted; nobody else moves; for posts by a process and for a dead one alike |
| `KernelSems.PostWakesNobody` | kernel/src/main.c:563-689 | a post that meets no live waiter, or leaves the value negative, changes no queue of processes |
| `KernelSems.StepSem` | kernel/src/main.c:464-718 | what each step does to each semaphore: a new one has the number, value and empty queue it is made with, a wait and a post change value, queue and counts by one |
| `KernelSems.RunWaiters` | kernel/src/main.c:500-718 | at every point of every run a live process is in a semaphore's queue if and only if it waits for that semaphore |
| `KernelSems.RunTally` | kernel/src/main.c:464-718 | at every point of every run a semaphore's value is the one it was made with plus its posts minus its waits, and each wait has been let through, is queued, or was dropped with its dead process |
| `KernelSems.NumbersFromOne` | kernel/src/main.c:464-498 | the number 0, which stands for no semaphore, is never given to one |
| `KernelRuns.WaitsOnce` | kernel/src/main.c:500-544 | no live process waits on two semaphores |
| `Planner.Planner.constructor` | kernel/src/main.c:59-130 | the empty queues, tokens and CPUs at start |
| `Planner.Planner.MateInit` | kernel/src/main.c:261-329 | the new fields are the state the step relation gives: a process in NEW if memory accepts it |
| `Planner.Planner.AdmitOne` | kernel/src/main.c:975-1026 | a suspended process before a new one, into READY, for one slot |
| `Planner.Planner.DispatchOne` | kernel/src/main.c:1028-1086 | the process chosen moves to EXEC on the first free CPU |
| `Planner.Planner.TakeCpuOne` | kernel/src/main.c:1391-1400 | the CPU thread takes its CPU and waits for its release |
| `Planner.Planner.ReleaseCpuOne` | kernel/src/main.c:1400-1415 | and puts it back on the free list |
| `Planner.Planner.ExecToBlock` | kernel/src/main.c:1088-1116 | EXEC to BLOCKED, posting the CPU's release |
| `Planner.Planner.Wake` | kernel/src/main.c:1177-1212 | BLOCKED to READY, or SUSPENDED-BLOCKED to SUSPENDED-READY |
| `Planner.Planner.SemWait` | kernel/src/main.c:500-544 | lets through or queues and blocks; the answer is 0, none yet, or -1 |
| `Planner.Planner.SemPost` | kernel/src/main.c:563-689 | the new state is that of the step relation: the waiter met alive is woken as PostWakes says; 0, or -1 without such a semaphore |
| `Planner.Planner.SemPostForDead` | kernel/src/main.c:563-689 | the post made for a process closed to end a deadlock, which does not look behind a dead head; a live head is woken as PostWakes says |
| `Planner.Planner.MateSemInit` | kernel/src/main.c:464-498 | a new semaphore with the value given (StepSem), or -1 when the name exists |
| `Planner.Planner.MateSemDestroy` | kernel/src/main.c:691-718 | the semaphore goes and its waiters stay blocked |
| `Planner.Planner.CallIoOne` | kernel/src/main.c:727-779 | the caller blocks waiting for the device |
| `Planner.Planner.SuspendOne` | kernel/src/main.c:1214-1273 | the last blocked process is suspended when none is ready and some arrive; its slot returns and its CPU's release is posted again |
| `Planner.Planner.MateClose` | kernel/src/main.c:1119-1171 | an executing process ends: queue, slot and CPU are given back |
| `Planner.Planner.MateCloseDeadlocked` | kernel/src/main.c:331-416 | a process closed to end a deadlock leaves its queue and a slot returns, even if it had none |
| `KernelSuspension.CloseGivesSlotTwice` | kernel/src/main.c:331-416 | a run of fourteen steps in which a suspended process is closed to end a deadlock and one slot too many is free |
| `CounterExamples.SplitLosesChain` | memoria/src/memory_utils.c:227-268 | a block of 41 bytes freed and one byte asked for again: the block is split and no header chain is left |
| `CounterExamples.ReleaseLosesChain` | memoria/src/memory_utils.c:1110-1117 | two blocks on two pages: freeing the second gives its page back and no header chain is left |
| `CounterExamples.EntrySurvivesItsPage` | memoria/src/memory_utils.c:1474-1492 | from the beginning, two frames: two processes are created and access their pages, process 2 needs a frame, and the LRU victim's buffer entry stays after its page has gone |
| `CounterExamples.RegisteredPageLost` | swamp/src/swap.c:324-345 | a run from empty files in which, after a finish, a registered process saves its second page, accepted, and is given zeros for it |
| `CounterExamples.FirstPageLost` | swamp/src/swap.c:243-285 | a run in which, after a finish, a new process saves its first page, accepted, and is given zeros for it |
| `CounterExamples.FirstPageKept` | swamp/src/swap.c:269-272 | a run in which the tombstone has two live rows behind it and the new process gets its page back |
| `CounterExamples.OverQuotaAccepted` | swamp/src/swap.c:209-234 | a run in which a third page under a quota of two is reported saved after another process has finished, and cannot be fetched |
| `CounterExamples.SingleQuotaLost` | swamp/src/swap.c:145-170 | a run with a quota of one page in which, after a finish, the next process saves its page, accepted, and is given zeros for it |

## Left out

- Memory.Memory: dynamic assignment only. Under fixed assignment `getNewEmptyFrame` can hand out a frame reserved for another process.
- Memory.Memory.SelectLru: the configuration of LRU with a translation buffer is outside `Supported`; `Replacement.LruDropsWrongEntry` says exactly when that combination keeps the buffer right.
- Memory.Memory.SelectClock: where Clock-M meets a frame no page owns, the original goes on with an unrelated page; the model stops there (`Stuck`) and says exactly when.
- Machine.RunRefines: nothing is claimed of what a process sees once one of its pages has left memory without settling in swap, nor of anybody once swap has refused a save: the original then loses the page, or rolls back the memalloc that happens to run. Of those runs only the structure (`Machine.RunStructure`, `Changes.ReachedStructure`) is claimed. A process whose header chain is lost that way asks no more of its heap in the runs.
- Machine.Handle: requests for processes without a table, for addresses up to the last header that are not live allocations, or for more bytes than the block has, are left out; the original does not check them.
- MemoryCalls.Calls.Memalloc: excludes the split branch, which `Heap.ReuseKeepsChain` shows to break the chain, and sizes that leave signed addresses or page numbers from 9999 on.
- MemoryCalls.Calls.Memfree: not for a last header that ends with the last byte of the last page, where the original reads a page that does not exist. It models the branches that give the last page back and that join the last header to a free block, but `HeapCalls.FreedMeans` and `HeapCalls.FreedLastMeans` promise something only when they are not taken.
- HeapRuns.RunKeeps: a double free of a block and writes past a block's end are not allowed in the runs.
- Planner.Planner.MateCloseDeadlocked: the victim waits on a semaphore. The original's search can pick a READY or executing process through a stale `tiene_su_espera`; closing a READY one frees its record and leaves it in its queue.
- Planner.Planner.SemPost: a post that would look behind a dead head of a one-element queue reads past the list in the original and is not a step of the model.
- Planner.Planner: every handler and every planner turn is one atomic step; interleavings inside a step, and lists the original touches outside their mutex, are not modelled. A waiter that has died is looked up by number; that its freed record is read in the original is left out.
- SwapServer.Server.FetchPage: `None` where the original returns a freed buffer or reads past the end of the file.
- SwapLink.Console.FetchPage: only where there is a frame to read, for the same reason.
- Serialization.Serialize: arguments that do not match the format, strings longer than an int can say and buffers too small are undefined in C and excluded.
- SwapLink.Console: the request that sets the assignment is left out; the assignment is a setting.
- `suspend_process` of the memory process, which copies absent pages as if they were present.
- The page record's `isfree` field, which is always busy under dynamic assignment.
- The choice of the process to dispatch (SJF, HRRN): any ready process may be chosen.
- The search for deadlocks; only the closing of a process and the posts that follow are modelled.
- Device queues and times; names of semaphores are compared as given, not case-folded.
- Sockets, threads, logging, configuration files, signals, sleeps, metrics and dumps; the emptying of the translation buffer by signal.
- `mmap`, `open` and the file system: a swap file is a sequence of page-sized frames.
- The identifiers handed out to processes and the framing of messages.
- SwapLink.AskForPage: only where there is a frame to read.
- A save whose frame number lies behind the end of its swap file changes no frame in the model; the original writes past its mapping.
- KernelRequests.Deserializar: lengths that are negative or reach past the message are undefined in C and excluded; the terminator the original writes one byte past each of its copies is left out.
- TlbRuns.RunLosesOldest: counters are unbounded; the original's wrap round after 2^32 additions or hits.
