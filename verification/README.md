# Verified models of the kernel's memory management, scheduling and receive path

This project models the parts of the kernel whose correctness spans many operations, and proves what every run
of them keeps. `dafny verify dfyconfig.toml` checks all of it.

**Page tables and copy-on-write.** `PageTables` has the arena of 512-entry tables and the 4-level walk; every table
carries a ghost *role* (the address space it belongs to and the indices that lead to it), and `Linked` says that
pointers respect roles. `FrameTable` abstracts the tables to a *view*, a map from (cr3, virtual page) to (frame,
writable) together with the last table on the way to each address and the flags of every entry on that way, and states
the copy-on-write invariant `Booked`: the alias set of a user frame is exactly the set of (cr3, address) pairs that
translate to it, `refs` is its size, all aliases sit at one address, and leaves are read-only if and only if
`refs > 1`. `Mapping` is the mapper itself, a class whose methods update the tables in place. `Cloning`, `Forking`,
`ForkEffect` and `ForkExact` are the theory of `fork`. `Contents` gives the semantics that copy-on-write must be
indistinguishable from, in which `fork` copies every page at once. `Steps` says what one load, store, page fault or
fork does to the machine, and what a run of user programs is: a sequence of operations, each answered for the task
that names it. It proves that in every run the pages hold what they would hold in those semantics, that loads return
it, that no program's pages change but by its own stores, that no `expect` or `assert` fires as long as there is
memory, that user pages stay apart from what the kernel half maps, and that an aligned access which does not stop the
run is carried out, at the latest when it is made again. `Runs` is the code that performs such runs, and `Boot` starts
it. `Bits`, `PagingEntry` and `Addresses` tie entries and addresses to their 64-bit words.

**Page allocator.** `BuddyBlocks` is the theory of the eight free lists, on block numbers; `BuddyAddresses`,
`BuddyRanges` and `PhysicalPages` are the allocator on byte addresses; `AllocatorRuns` is about runs of it; and
`MemoryMap` is the boot code that feeds it.

**Scheduling and the receive path.** `Semaphores`, `Scheduling`, `LockHandoff` and `RxRing` are step systems on one
processor: a step is a section of code that runs with interrupts off, and a run is any interleaving of steps. What
every step keeps is proved together with what the steps lead to: locks are released, semaphore operations end in
order, frames are handled, runtimes add up. `Kernel` puts the scheduler, any number of semaphores and sleeping tasks
together, and `Delivery` puts the ring on the semaphores. `Packets` has the frame and ARP builders and parsers.
`Basics` has two types that several models share.

## Where the code departs from what it is for

Each of these is modelled as written, and the exact condition under which the code does what it is for is proved.

- `fork` ORs the source entry's flags into a new table pointer, and the flag mask contains bit 12 of the address.
  A mapped page of the child translates like the parent's if and only if no pointer below the root on its path
  has bit 12 set in the source and clear in the copy (`ForkExact.ForkExactness`; `ForkExact.OddFork` is an example,
  with two pages 2 MiB apart). The condition depends only on the source tables and the number of the next free
  table.
- A page fault at an address that is not page-aligned takes a page from the allocator but changes no user
  mapping, so the access faults again; at an aligned one the access is permitted afterwards (`Runs.PageFault`).
- `map` over a mapped user page leaves the record of the old frame behind, and `map` of a mapped frame walks every
  alias at the caller's address. The invariant is kept if and only if the page is not mapped and the frame is mapped
  at this address only (`Mapping.Mapper.Map`; `FrameTable.MapOver` is an example).
- `phys_addr` ORs the offset into the leaf's whole address field. It is the architectural translation if and only
  if the offset covers the field's bits below the page size (`Addresses.PhysAddrExact`; `Addresses.PatMoves` is an
  example, with the PAT bit of a 2 MiB page).
- `allocate` searches for a larger block with `list_idx + 1` in place of an order, so it never splits a block
  (`PhysicalPages.PageAllocator.AllocateWith` states both this and the repaired search).
- `free` removes the buddy before it looks whether there is a larger list. The free pages grow by exactly the
  freed block unless the 1 MiB chunk around it becomes free; then the other half of the chunk is lost
  (`BuddyBlocks.FreeEffect`; `BuddyBlocks.HalfLost` is an example).
- `init` skips every aligned 1 MiB chunk that lies inside one range, and loses exactly half of every chunk that
  several ranges fill together (`PhysicalPages.PageAllocator.Init`; `BuddyRanges.MegabyteLost` and
  `BuddyRanges.HalvesFill` are examples).
- `exclude_range` returns a block unchanged if the excluded range lies inside it (`MemoryMap.ExcludeExact`; `MemoryMap.HoleKept` is an example).
- `set_runnable` queues the task that it wakes. The queue stays exact if and only if that is not the running task
  (`Scheduling.TaskList.SetRunnable`); no run of the kernel ever does that (`Kernel.RunsKeep`).
- A frame whose ethertype is the tag identifier does not parse back (`Packets.FrameRoundTrip`; `Packets.TagForType` is
  an example), and an ARP reply
  repeats the target protocol address where RFC 826 swaps it, and parses back if and only if the request's hardware
  length is that of the local address (`Packets.ReplyRoundTrip`; `Packets.AskReply` is an example).

## What the models take for granted

- The table arena never runs out, and physical addresses have at most 52 bits.
- No large page lies on the path of `map` in the kernel half.
- The mapper starts once the boot identity map has been dropped, with a user half that maps nothing.
- cr3, the clock, the interrupt controller, and the bytes that a copy across a page boundary reads are parameters.
- A user frame is never one of the page tables; `Boot.NeverATable` derives this from the boot layout.
- A fork that would divert a pointer ends a run.
- Task 0 takes part in no semaphore operation and does not sleep in the scheduler: it is the idle task.

## Model

| member | source | states |
|---|---|---|
| `PageTables.WalkOnRoles` | arch/x86_64/src/paging/mapping.rs:483-514 | a walk of any address in any space stays on the tables whose roles spell that address, never leaves the arena, and ends in a 4 KiB leaf in the user half |
| `PageTables.TableUnique` | arch/x86_64/src/paging/mapping.rs:422-434 | separation: a table below the root serves one block of addresses, and in the user half one address space only |
| `PageTables.StoreUserPage` | arch/x86_64/src/paging/mapping.rs:105-108 | storing a leaf of a user page changes the translation of exactly that page of that space |
| `PageTables.StoreKernelPage` | arch/x86_64/src/paging/mapping.rs:105-108 | storing a leaf of a kernel page changes that page only, in exactly the spaces that share its page table |
| `PageTables.WalkAfterLink` | arch/x86_64/src/paging/mapping.rs:468-478 | hanging a new table below an absent entry changes no walk |
| `PageTables.LastAfterLink` | arch/x86_64/src/paging/mapping.rs:468-478 | and extends exactly the paths that ended there for want of it |
| `PageTables.PathsAfterLink` | arch/x86_64/src/paging/mapping.rs:468-478 | so the same spaces share the way to the address as before, and other PML4 slots are untouched |
| `PageTables.FlagsAfterPointer` | arch/x86_64/src/paging/mapping.rs:468-478 | the new pointer has present and RW added to what the entry had, in exactly the spaces that share the table it is in; the flags of no other entry change, and the new table has none |
| `PageTables.FlagsAfterLeaf` | arch/x86_64/src/paging/mapping.rs:105-108 | storing a leaf changes the flags of that entry only, in exactly the spaces that share its page table |
| `PageTables.UserWay` | arch/x86_64/src/paging/mapping.rs:422-434 | no two spaces share the way to a user address |
| `PageTables.SharedSlot` | arch/x86_64/src/paging/mapping.rs:269-283 | two spaces whose PML4 slots hold the same pointer translate everything below it alike |
| `PagingEntry.GetFlagsMeans` | arch/x86_64/src/paging/table.rs:35-44 | `entry & ALL_FLAGS` is the flags and bit 12 of the address |
| `PagingEntry.MaskMeans` | arch/x86_64/src/paging/table.rs:93-95 | `entry & flags` is those of the flags that are set, for any flags |
| `PagingEntry.PageFieldOf` | arch/x86_64/src/paging/table.rs:115-117 | the page field of the address of a page is its number |
| `PagingEntry.GetAddrMeans` | arch/x86_64/src/paging/table.rs:106-108 | `entry & MASK_51_12` is the address of the page |
| `PagingEntry.SetAddrMeans` | arch/x86_64/src/paging/table.rs:115-117 | `set_addr` on the word replaces the page field by bits 51 to 12 of any address and keeps the flags |
| `PagingEntry.SetFlagsMeans` | arch/x86_64/src/paging/table.rs:97-99 | setting flags on the word ORs the flag fields, and sets the lowest bit of the page number if bit 12 is among them |
| `PagingEntry.ClearFlagsMeans` | arch/x86_64/src/paging/table.rs:100-102 | clearing flags on the word clears those fields only, and the lowest bit of the page number if bit 12 is among them |
| `PagingEntry.RwFlag` | arch/x86_64/src/paging/table.rs:8 | setting or clearing `RW_FLAG` is the write permission and nothing else |
| `PagingEntry.FlagWords` | arch/x86_64/src/paging/table.rs:5-32 | each of the ten flags is the bit of the word that the source names |
| `PagingEntry.PresentRw` | arch/x86_64/src/paging/mapping.rs:108 | the two flags that `map` sets are the word 3 |
| `PagingEntry.SetRwMeans` | arch/x86_64/src/paging/table.rs:97-103 | changing the write permission of an entry is setting or clearing the RW flag alone |
| `PagingEntry.PagingStructEntry.SetFlags` | arch/x86_64/src/paging/table.rs:97-103 | the word keeps standing for its fields when any flags are set or cleared |
| `PagingEntry.PagingStructEntry.SetAddr` | arch/x86_64/src/paging/table.rs:115-117 | the word keeps standing for its fields when the address is replaced; stray bits of the address are ignored |
| `PagingEntry.PagingStructEntry.GetFlags` | arch/x86_64/src/paging/table.rs:93-95 | those of the asked flags that the fields have; bit 12 is read from the address |
| `PagingEntry.PagingStructEntry.GetAddr` | arch/x86_64/src/paging/table.rs:106-108 | the page address of the fields |
| `Addresses.EntryIdxField` | arch/x86_64/src/paging/table.rs:50-77 | masking and shifting extracts the nine bits of the level, for all four levels |
| `Addresses.ParseWord` | arch/x86_64/src/paging/table.rs:46-77 | any four indices and offset are those of a canonical address |
| `Addresses.WordParse` | arch/x86_64/src/paging/table.rs:46-77 | a canonical address is determined by its four indices and offset |
| `Addresses.UserTest` | arch/x86_64/src/paging/mapping.rs:110 | `virt_addr >> 51 == 0` holds exactly in the user half |
| `Addresses.PhysAddrExact` | arch/x86_64/src/paging/mapping.rs:255-263 | `phys_addr` equals the architectural 4-level translation if and only if the address covers the stray bits of the leaf |
| `Addresses.AlignedBase` | arch/x86_64/src/paging/mapping.rs:258-262 | it does so for all addresses of a page if and only if the base is a multiple of the page size |
| `Addresses.PatMoves` | arch/x86_64/src/paging/mapping.rs:258-262 | a 2 MiB page with the PAT bit set: `phys_addr` of its first byte is off by 0x1000 |
| `Addresses.SmallPagesRight` | arch/x86_64/src/paging/mapping.rs:258-262 | `phys_addr` is right about every address of a 4 KiB page |
| `FrameTable.MapKeepsBooks` | arch/x86_64/src/paging/mapping.rs:136-150 | mapping an unshared frame keeps the copy-on-write invariant if and only if the page was not mapped |
| `FrameTable.MapOver` | arch/x86_64/src/paging/mapping.rs:136-150 | a space with one page, and another frame mapped over it: the invariant is lost |
| `FrameTable.ShareKeepsBooks` | arch/x86_64/src/paging/mapping.rs:113-135 | mapping a frame again, with `virt` made read-only in the spaces of its aliases, keeps it if and only if the page was not mapped and all aliases are at `virt` |
| `FrameTable.UnmapKeepsBooks` | arch/x86_64/src/paging/mapping.rs:190-233 | dropping an alias, with a sole survivor made writable, keeps it |
| `FrameTable.KernelKeepsBooks` | arch/x86_64/src/paging/mapping.rs:110 | changes in the kernel half keep it |
| `FrameTable.WritableIsSole` | arch/x86_64/src/paging/mapping.rs:386-393 | a present user page is recorded, and permits writes if and only if its frame has `refs <= 1` |
| `FrameTable.CowComposed` | arch/x86_64/src/paging/mapping.rs:397-403 | map scratch, unmap, unmap scratch, map amounts to replacing the shared frame by the copy; the scratch page ends unmapped in exactly the spaces that shared the way to it; everybody and everything else is unchanged but a sole survivor made writable |
| `FrameTable.CowFlags` | arch/x86_64/src/paging/mapping.rs:397-403 | and the flags of every entry of every space: the private page has present and RW only, the scratch page none |
| `Mapping.Mapper.constructor` | arch/x86_64/src/paging/mapping.rs:70-89 | the invariant holds of a mapper whose user half maps nothing |
| `Mapping.Mapper.NewTable` | arch/x86_64/src/paging/mapping.rs:422-426 | the next table, all zero |
| `Mapping.Mapper.WalkOrCreateTable` | arch/x86_64/src/paging/mapping.rs:458-481 | the next table on the path exists and is linked; no translation of any space changes, and the same spaces share the way to the address; if the pointer was missing it gained present and RW and kept its other flags, and no other entry of any space changed its flags |
| `Mapping.Mapper.InstallPage` | arch/x86_64/src/paging/mapping.rs:100-108 | the page translates to the frame, writable: in that space alone in the user half, in exactly the spaces that shared the way to it before in the kernel half; every other page of every space is as before; the leaf, and every missing pointer to it, gained present and RW and kept its other flags, and no other entry of any space changed its flags |
| `Mapping.Mapper.SetLeafRw` | arch/x86_64/src/paging/mapping.rs:126-133 | the write permission of one page of one space changes, and no other flag of any entry |
| `Mapping.Mapper.Map` | arch/x86_64/src/paging/mapping.rs:91-155 | the alignment errors; the panic, if and only if a space with an alias of the frame does not map the address; otherwise the exact new view, with the flags of every entry, and the exact new frame table, for kernel pages, new frames and shared frames, and the invariant if and only if the page was not mapped and the frame is at no other address |
| `Mapping.MayMapAliases` | arch/x86_64/src/paging/mapping.rs:126-130 | where `map` keeps the invariant it does not panic |
| `Mapping.Mapper.ProtectAliases` | arch/x86_64/src/paging/mapping.rs:126-133 | the address becomes read-only in exactly the spaces that have an alias, unless one of them does not map it (the panic); no other flag of any entry changes |
| `Mapping.Mapper.Unmap` | arch/x86_64/src/paging/mapping.rs:157-238 | the panic on a page that is not mapped and the alignment error; otherwise the invariant and the exact new view, with the flags of every entry, and frame table; the entry is zero |
| `Mapping.Mapper.UnmapUser` | arch/x86_64/src/paging/mapping.rs:187-233 | the record exists, the alias is in it, the entry is zero, and a sole survivor gains RW and nothing else |
| `Mapping.Mapper.AllocPageAt` | arch/x86_64/src/paging/mapping.rs:240-248 | one page is taken off the free list in any case; on an aligned address that page, which was nobody's, is mapped there, writable; the invariant is kept if and only if no user page was mapped there |
| `Mapping.Mapper.Cow` | arch/x86_64/src/paging/mapping.rs:372-420 | the panics, if and only if the page is not mapped or is writable; otherwise the page taken off the free list becomes the faulting space's private writable frame, with the same bytes, the scratch page is unmapped again and maps the copy in no space, everybody else is unchanged but for a sole survivor; a misaligned address leaves the user half alone and loses the page |
| `Mapping.Mapper.Fork` | arch/x86_64/src/paging/mapping.rs:265-310 | the layout of the clone in every case; under the bit-12 condition the invariant and the fork of the address space |
| `Mapping.Mapper.CloneSpace` | arch/x86_64/src/paging/mapping.rs:265-310 | every source leaf of the user half, and no other entry, has lost RW, and exactly its frames have gained the child's alias |
| `Mapping.Mapper.ShareKernelHalf` | arch/x86_64/src/paging/mapping.rs:269-283 | the kernel half of the new root is that of the source |
| `Mapping.Mapper.RecursivelyClone` | arch/x86_64/src/paging/mapping.rs:312-370 | the new tables are the clone of the subtree, in depth-first order; the source leaves below it, and no others, are marked; no frame record is missing |
| `Cloning.AlignedFork` | arch/x86_64/src/paging/mapping.rs:285-370 | if the path is aligned, the clone translates the address to the same frame, read-only |
| `Cloning.ForkLinked` | arch/x86_64/src/paging/mapping.rs:285-370 | under the bit-12 condition every new table is linked into the child's own tree |
| `Cloning.ClonePrefixStep` | arch/x86_64/src/paging/mapping.rs:320-369 | one more entry of the clone, with all earlier subtrees intact |
| `ForkEffect.ForkIsStep` | arch/x86_64/src/paging/mapping.rs:265-370 | under the bit-12 condition, on all addresses of all spaces: parent and child map the parent's user frames read-only, the kernel half is shared, nobody else changes, and each record gains exactly the child's alias |
| `ForkEffect.ForkFlags` | arch/x86_64/src/paging/mapping.rs:265-370 | the flags of every entry of every space: the parent's user leaves lose RW and nothing else changes in the old spaces; the child's entries have the parent's flags, without RW in user leaves, or are zero |
| `ForkEffect.ForkKeepsBooks` | arch/x86_64/src/paging/mapping.rs:341-351 | the fork of an address space keeps the copy-on-write invariant |
| `ForkEffect.ChildKernelView` | arch/x86_64/src/paging/mapping.rs:269-283 | the child's kernel half translates like the parent's, bit-12 condition or not |
| `ForkExact.ForkExactness` | arch/x86_64/src/paging/mapping.rs:358-364 | a mapped user page is forked right if and only if no pointer on its path is diverted by bit 12 |
| `ForkExact.OddGood` | arch/x86_64/src/paging/table.rs:32-44 | a space with two pages 2 MiB apart is in the invariant |
| `ForkExact.OddFork` | arch/x86_64/src/paging/mapping.rs:358-364 | whatever `fork` produces for it, the child does not have the first page |
| `Contents.CowContents` | arch/x86_64/src/paging/mapping.rs:372-420 | copying a shared page changes no byte that any program sees |
| `Contents.WriteContents` | arch/x86_64/src/paging/mapping.rs:212-228 | a store through a writable leaf is seen by its own page only |
| `Contents.ForkContents` | arch/x86_64/src/paging/mapping.rs:337-351 | sharing the frames looks like copying them |
| `Runs.PageFault` | src/arch/x86_64/mm.rs:194-215 | what the machine is afterwards and which event this is, in each case (`Steps.Faulted`): halted, panicked, memory exhausted, the page filled, the page copied, or left as it was; afterwards the access is permitted if and only if the address is aligned |
| `Runs.Perform` | src/arch/x86_64/mm.rs:194-215 | an access is a load or a store of exactly the named byte if its leaf permits it, and a page fault otherwise |
| `Runs.Duplicate` | arch/x86_64/src/paging/mapping.rs:265-310 | a fork adds a fresh space that shares the parent's frames, or would divert a pointer |
| `Steps.FaultFacts` | src/arch/x86_64/mm.rs:194-215 | a fault changes contents by the page it fills at most, a page that was not there before; afterwards the access is permitted if and only if the address is aligned |
| `Steps.AccessFacts` | src/arch/x86_64/mm.rs:194-215 | an access changes what the eager-copy semantics changes; a store changes the page of its own space, a load returns what is there |
| `Steps.RunIsEager` | arch/x86_64/src/paging/mapping.rs:240-404 | after every operation of every run, all pages hold what they would hold if `fork` copied them at once |
| `Steps.LoadsAreEager` | arch/x86_64/src/paging/mapping.rs:240-404 | every load of every run returns the byte it would return then |
| `Steps.Isolation` | arch/x86_64/src/paging/mapping.rs:240-404 | between any two points of any run, a page keeps its bytes if no task of its space stores to it, whatever all others do |
| `Steps.ChildPages` | arch/x86_64/src/paging/mapping.rs:265-310 | a child starts with exactly the pages and bytes that its parent has at the fork |
| `Steps.StopsExactly` | arch/x86_64/src/paging/mapping.rs:240-404 | in no run does an `expect` or `assert` fire but for the one on exhausted memory; an answer is final if and only if the operation is an access to the unmapped address 0, another fault with no page left, or a fork that would divert a pointer, and which of them says which answer |
| `Steps.RunsToTheEnd` | arch/x86_64/src/paging/mapping.rs:240-404 | a run answers all operations, unless the last one it answers is one of these |
| `Steps.AccessDone` | src/arch/x86_64/mm.rs:194-215 | a permitted access is carried out: a store changes exactly its byte, a load returns it; any other aligned one is permitted afterwards, unless it stops the run |
| `Steps.TwiceIsEnough` | src/arch/x86_64/mm.rs:194-215 | in every run, an aligned access made twice in a row is carried out the first or the second time |
| `Steps.ForksHappen` | arch/x86_64/src/paging/mapping.rs:265-310 | in every run, a fork that does not stop it adds a task with a space that did not exist |
| `Steps.NeverAUserFrame` | arch/x86_64/src/paging/mapping.rs:240-404 | a frame that is neither free nor a user frame never becomes a user frame |
| `Steps.RunsApart` | arch/x86_64/src/paging/mapping.rs:240-404 | at every point of every run, what the kernel half of any space maps is neither free nor a user frame, if it was so at the start |
| `Steps.RunsPlain` | arch/x86_64/src/paging/mapping.rs:91-420 | at every point of every run, no entry of any user half has a flag other than present and RW, if it was so at the start |
| `Steps.PlainLeaf` | arch/x86_64/src/paging/mapping.rs:105-108 | so the leaf of a user page is its frame, present, and RW if it permits writes |
| `Runs.Execute` | arch/x86_64/src/paging/mapping.rs:240-404 | over any run of accesses and forks: every operation is answered, in order, for the space of the task that it names, until they are used up or an answer is final (`Steps.RunOf`); nothing panics, the copy-on-write invariant holds at every point, and the contents are those of the eager-copy semantics |
| `Runs.KernelStaysShared` | arch/x86_64/src/paging/mapping.rs:269-283 | a kernel mapping below a slot present at fork time is the same for parent and child after every later run |
| `Steps.ScratchAddress` | src/arch/x86_64/mm.rs:42 | the scratch address of the model is that of the source |
| `BuddyBlocks.FreeEffect` | paging/src/physical.rs:76-90 | lists stay disjoint and free of buddy pairs; the free pages grow by exactly the block, unless its 1 MiB chunk becomes free, when exactly the other half is lost |
| `BuddyBlocks.Merged` | paging/src/physical.rs:81-86 | merging is complete: a free aligned block lies in a listed block |
| `BuddyBlocks.NoFreeChunk` | paging/src/physical.rs:81 | no 1 MiB chunk is ever free as a whole |
| `BuddyBlocks.TakeHalf` | paging/src/physical.rs:66-73 | splitting takes exactly the lower half and lists the upper |
| `BuddyBlocks.TracksAll` | paging/src/physical.rs:22-52 | all pages handed in are free at the end if and only if they fill no 1 MiB chunk |
| `BuddyBlocks.FreeTracks` | paging/src/physical.rs:76-90 | handing in one more block: of a chunk that is not filled exactly the pages handed in are free, of a filled one exactly one half |
| `BuddyBlocks.HalfLost` | paging/src/physical.rs:76-90 | with the upper half of a chunk free, freeing the lower half loses the upper |
| `BuddyAddresses.BitOperations` | paging/src/physical.rs:79-82 | the buddy and merge addresses are the `^` and `& !` of the source |
| `BuddyRanges.BuddyInRangeIff` | paging/src/physical.rs:93-101 | the recursive test holds if and only if bit b of the start is 0 and 2b fits into the size |
| `BuddyRanges.FreedChunk` | paging/src/physical.rs:32-45 | a freed block adds exactly its pages to those kept of the range |
| `BuddyRanges.SkippedChunk` | paging/src/physical.rs:32-45 | a skipped chunk lies inside the range and adds none |
| `BuddyRanges.MegabyteLost` | paging/src/physical.rs:28-50 | of the range 0x900000 to 0xa00000 no page is kept |
| `BuddyRanges.HalvesFill` | paging/src/physical.rs:28-50 | as two ranges, its pages are all kept and fill the chunk |
| `BuddyRanges.BlockSizes` | paging/src/physical.rs:4-8 | eight sizes, from 4 KiB to 512 KiB, below 1 MiB |
| `PhysicalPages.PageAllocator.Init` | paging/src/physical.rs:22-52 | exactly which pages become free: those whose chunk is not inside their range, except that of each chunk which several ranges fill exactly one half becomes free; so all of them if and only if they fill no chunk |
| `PhysicalPages.PageAllocator.InitRange` | paging/src/physical.rs:28-50 | the loop ends without underflow and tiles the range into freed blocks and skipped chunks; exactly the kept pages are handed in |
| `PhysicalPages.PageAllocator.InitBlock` | paging/src/physical.rs:31-45 | the block freed is the largest that the test admits and lies in the range |
| `PhysicalPages.PageAllocator.Free` | paging/src/physical.rs:76-90 | on byte addresses, the specified merge on block numbers |
| `PhysicalPages.PageAllocator.AllocateWith` | paging/src/physical.rs:54-74 | as written: the least block of the order, or none and no change; repaired: a block if and only if any list from the order on has one, at the start of the least block of the first such list, taking exactly its pages |
| `PhysicalPages.PageAllocator.Allocate` | paging/src/physical.rs:54-74 | the same, as written |
| `PhysicalPages.Starved` | paging/src/physical.rs:65-66 | 128 free pages in one block, and no page is found |
| `PhysicalPages.OrderTwelve` | paging/src/physical.rs:4-5 | order 12 asks for one page |
| `AllocatorRuns.Serve` | paging/src/physical.rs:54-90 | over any run: every request is answered by what `allocate` finds and `free` takes back, the loans are exactly the blocks answered and not given back, and at every point they overlap neither each other nor the free blocks and lie in the pages handed in |
| `AllocatorRuns.NeverLentTwice` | paging/src/physical.rs:54-90 | two loans of a run overlap only if the first was given back before the second was made |
| `AllocatorRuns.GivenBackIsFree` | paging/src/physical.rs:76-90 | over any run, what is given back is taken back and free again, and what was free stays free, but for the half of a chunk that `free` loses |
| `AllocatorRuns.TakesAscend` | paging/src/physical.rs:60-64 | over any run of `allocate` as written, as long as nothing is given back, the blocks of an order are lent in ascending order of address |
| `AllocatorRuns.Boot` | paging/src/physical.rs:22-90 | the same from `init` on, with exactly the free pages that `init` leaves |
| `MemoryMap.ExcludeExact` | src/arch/x86_64/mm.rs:146-175 | the excluded addresses are removed exactly, if and only if they do not lie inside the block |
| `MemoryMap.HoleKept` | src/arch/x86_64/mm.rs:146-175 | a hole of 4 MiB inside a block of 16 MiB is not cut out |
| `MemoryMap.ExcludeAllExact` | src/arch/x86_64/mm.rs:177-191 | ranges that start at 0 are excluded exactly |
| `MemoryMap.ExcludeRanges` | src/arch/x86_64/mm.rs:177-191 | the loop computes the successive exclusions |
| `MemoryMap.EightMegabytes` | src/arch/x86_64/mm.rs:54 | the excluded span is the lowest 8 MiB |
| `MemoryMap.FreeBlocks` | src/arch/x86_64/mm.rs:49-60 | the blocks are exactly the usable memory from 0x800000 on, proper and disjoint |
| `MemoryMap.BootAllocator` | src/arch/x86_64/mm.rs:47-63 | from the memory map on, whatever is free or lent out at any point of a run is usable memory from 0x800000 on, and the loans are exactly those answered and not given back |
| `MemoryMap.InitAllocator` | src/arch/x86_64/mm.rs:47-63 | the free pages are usable memory from 0x800000 on, and exactly those that `init` leaves of it |
| `MemoryMap.TablesApart` | src/arch/x86_64/mm.rs:65-96 | such frames are never page tables |
| `Boot.InitMapper` | src/arch/x86_64/mm.rs:47-110 | with the allocator of the memory map and an empty user half the mapper starts in its invariant |
| `Boot.NeverATable` | src/arch/x86_64/mm.rs:65-96 | in the invariant, no user page is mapped to a page table |
| `Boot.BootAndRun` | src/arch/x86_64/mm.rs:47-110 | any run from boot on is a run in the sense of `Steps.RunOf`, in the invariant, maps no user page to a page table, and keeps user pages apart from what the kernel half maps |
| `Semaphores.AttemptKeeps` | src/locking/semaphore.rs:28-39 | the attempt on the counter, successful or blocking, keeps the invariant |
| `Semaphores.PopKeeps` | src/locking/semaphore.rs:80 | taking a task off the opposite queue keeps it |
| `Semaphores.WakeKeeps` | src/locking/semaphore.rs:81-83 | waking that task keeps it |
| `Semaphores.QuietMeansNone` | src/locking/semaphore.rs:27-105 | no lost wakeup: with tasks queued and no permit on its way to them, the counter admits none of them |
| `Semaphores.FirstInFirstOut` | src/locking/semaphore.rs:27-105 | over any interleaving, the tasks taken off a queue are those that were put on it, in the same order; what is left is the rest |
| `Semaphores.Completes` | src/locking/semaphore.rs:27-83 | an operation that finds a permit ends in four moves: the count changes by one and the task at the head of the opposite queue tries again |
| `Semaphores.Blocks` | src/locking/semaphore.rs:27-79 | one that finds none joins the end of its queue in two |
| `Semaphores.TryCompletes` | src/locking/semaphore.rs:46-53 | `try_wait` and `try_signal` do the same with a permit and change nothing without one |
| `Semaphores.Semaphore.constructor` | src/locking/semaphore.rs:17-25 | the invariant holds initially |
| `Semaphores.Semaphore.Attempt` | src/locking/semaphore.rs:61-79 | one turn of the loop, in place |
| `Semaphores.Semaphore.AttemptOnce` | src/locking/semaphore.rs:46-53 | `try_wait` and `try_signal` succeed if and only if the counter admits them |
| `Semaphores.Semaphore.Pop` | src/locking/semaphore.rs:40 | the task at the head of the queue is taken, if there is one (`Semaphores.FirstInFirstOut`) |
| `Semaphores.Semaphore.Wake` | src/locking/semaphore.rs:41-43 | the popped task will retry |
| `Semaphores.Semaphore.Run` | src/locking/semaphore.rs:27-105 | the state after any interleaving is the one that its moves lead to, in the invariant |
| `Semaphores.RunsKeep` | src/locking/semaphore.rs:27-105 | at every point of any interleaving of any number of tasks: 0 <= count <= max, permits are conserved, no wakeup is lost, and every blocked task is queued or about to be woken by exactly one other |
| `Semaphores.StepKeeps` | src/locking/semaphore.rs:27-105 | every move of every task keeps this |
| `Semaphores.GrownKeeps` | src/locking/semaphore.rs:17-25 | and so does a new task |
| `Scheduling.TaskList.UpdateRuntime` | src/kernel/sched/task.rs:76-91 | the running task is charged the time of its turn times the number of tasks (`Scheduling.RuntimeIs` sums this up over a run) and rejoins the queue if runnable |
| `Scheduling.TaskList.Next` | src/kernel/sched/task.rs:124-127 | a runnable task of least runtime leaves the queue; there is none if and only if no task is runnable |
| `Scheduling.TaskList.SetRunnable` | src/kernel/sched/task.rs:110-122 | the flag is set, and the queue stays exact if and only if the running task was not woken |
| `Scheduling.TaskList.NewTask` | src/kernel/sched/task.rs:129-176 | the new task is queued with runtime 0 |
| `Scheduling.TaskList.Switch` | src/kernel/sched/mod.rs:69-98 | the queue stays exact, and the task of least runtime runs next, or task 0 if and only if none is runnable |
| `Scheduling.TaskList.Block` | src/kernel/sched/mod.rs:137-140 | the same, for a task that stops being runnable; it goes on running if and only if it is task 0 and no other task is runnable |
| `Scheduling.TaskList.Wake` | src/kernel/sched/mod.rs:132-134 | the woken task is queued once, with its runtime; the queue stays exact if and only if it was not running |
| `Scheduling.TaskList.CheckRuntime` | src/kernel/sched/mod.rs:161-167 | a switch if and only if the slice has run out |
| `Scheduling.Run` | src/kernel/sched/mod.rs:68-141 | over any run up to an event that wakes the running task: it is a run in the sense of `Scheduling.IsRun`, so each switch charges the task that ran and chooses a runnable task of least runtime; and at every point the queue holds each runnable task that is not running exactly once, with its current runtime |
| `Scheduling.Happen` | src/kernel/sched/mod.rs:68-167 | one event, on the task list |
| `Scheduling.FallbackUnreached` | src/kernel/sched/mod.rs:78-82 | over any run in which task 0 never blocks, every switch finds a runnable task: the fallback to task 0 is never reached |
| `Scheduling.TimePasses` | src/kernel/sched/mod.rs:69-98 | every turn lasts at least 1 ns if time passes with every event that can end one |
| `Scheduling.RuntimeIs` | src/kernel/sched/task.rs:76-91 | accounting over any run: the runtime of a task is what it had at the start, or 0 if it was created since, plus the sum, over its turns, of the length of the turn times the number of tasks when it ended |
| `Scheduling.TurnLength` | src/kernel/sched/task.rs:100-108 | at any point of any run after the first switch, the running task was last scheduled when its turn began, and may run 20 ms divided by the number of tasks |
| `Scheduling.TurnsEnd` | src/kernel/sched/mod.rs:161-167 | a timer interrupt ends the turn if and only if that time is over; `switch` and `block` always end it, nothing else does |
| `Scheduling.BoundedWaiting` | src/kernel/sched/mod.rs:69-98 | over any run with turns of at least 1 ns, a task that stays runnable with runtime r is chosen within 1 + the sum of max(0, r + 1 - runtime) over the others + r + 1 for each task created meanwhile switches, whatever blocks and wakes in between |
| `Kernel.NeverWakesRunning` | src/locking/semaphore.rs:40-43 | `wake`, and the timer callback of `sleep`, always wake a task that is not runnable, and never the running one |
| `Kernel.StepKeeps` | src/locking/semaphore.rs:27-105 | every act keeps the invariant of scheduler and semaphores: a task is runnable if and only if it is neither blocked in a semaphore nor asleep, and the running task is runnable |
| `Kernel.RunsKeep` | src/kernel/sched/mod.rs:68-141 | so it holds at every point of every run of any number of tasks and semaphores, and no run wakes the running task or reaches the fallback to task 0 |
| `Kernel.HelpIsRunnable` | src/locking/semaphore.rs:27-105 | while tasks are queued and the counter admits one of them, a task that is about to see to it is runnable |
| `Kernel.WhoRunsNext` | src/kernel/sched/mod.rs:69-167 | after a yield, and after a timer interrupt at the end of the slice, a runnable task of least runtime runs; an earlier timer interrupt changes nothing; a new task is runnable |
| `Kernel.SleepAndTimer` | src/kernel/sched/mod.rs:104-129 | a task that goes to sleep gives up the processor and is not runnable; when its timer fires, it is, and the semaphores are as before |
| `Kernel.Starts` | src/kernel/sched/task.rs:178-216 | the invariant holds with task 0 alone |
| `Kernel.Run` | src/kernel/sched/mod.rs:68-141 | the same on the task list, whose queue is exact at every point |
| `Kernel.SchedulerRuns` | src/kernel/sched/mod.rs:68-141 | the scheduler's part of every run is a run in the sense of `Scheduling.IsRun` |
| `Kernel.KernelWaits` | src/kernel/sched/mod.rs:69-98 | hence bounded waiting in every run of the kernel |
| `LockHandoff.Processor.Lock` | src/kernel/sched/mod.rs:151-158 | each step of `lock`: the flag found is the one saved, the mutex is taken, nothing else changes |
| `LockHandoff.Processor.Drop` | src/kernel/sched/mod.rs:55-66 | each step of the drop; after it the interrupt flag is the one that the caller's own call of `lock` found (`LockHandoff.Releases`: three steps release the lock) |
| `LockHandoff.Processor.SwitchTo` | src/kernel/sched/mod.rs:86-97 | the resumed task holds the lock of the one that left; no saved flag changes, and no other task |
| `LockHandoff.Processor.NewTask` | src/kernel/sched/task.rs:318-326 | a task is added that enters through the drop of a guard, with interrupts on |
| `LockHandoff.Processor.Callback` | src/kernel/sched/mod.rs:118-123 | the timer callback takes and releases the mutex, which it finds free |
| `LockHandoff.Processor.Run` | src/kernel/sched/mod.rs:55-158 | the state after any run is the one that its steps lead to; interrupts are off while the lock is held, each acquisition is released exactly once, and each drop restores the flag found by the caller's own `lock` |
| `LockHandoff.RunsKeep` | src/kernel/sched/mod.rs:55-158 | the same of the step system, by induction over the run: for every caller, finding and restoring the flag alternate, and each drop restores what was last found |
| `LockHandoff.NextKeeps` | src/kernel/sched/mod.rs:55-158 | every step keeps the invariant: the flag still to be restored by the history is the one that the task's place in the code holds |
| `LockHandoff.DropRestores` | src/kernel/sched/mod.rs:55-66 | the drop leaves the flag that the caller's own `lock` found |
| `LockHandoff.Releases` | src/kernel/sched/mod.rs:55-66 | whoever holds the lock, by its own `lock` or by a switch, has released it after the three steps of the drop, with interrupts as in its saved flag |
| `LockHandoff.Acquires` | src/kernel/sched/mod.rs:151-158 | the four steps of `lock` end with the lock held, interrupts off, and the flag saved that was found |
| `LockHandoff.LockAndDrop` | src/kernel/sched/mod.rs:55-158 | `lock` and the drop leave the lock free, taken and released once, and interrupts as before |
| `LockHandoff.OwnFlagLasts` | src/kernel/sched/mod.rs:55-158 | so a task has the interrupt flag that it set outside the lock |
| `LockHandoff.HandsOver` | src/kernel/sched/mod.rs:86-97 | a switch gives the lock to any other task, and changes no saved flag |
| `LockHandoff.NewTaskEnters` | src/kernel/sched/task.rs:318-326 | a new task, once switched to, releases the lock that its creator took and runs with interrupts on |
| `LockHandoff.HandlerRuns` | src/kernel/sched/mod.rs:118-123 | an interrupt runs its handler with interrupts off and leaves the task as it was; the timer callback takes and releases the mutex once |
| `LockHandoff.MutexIsFree` | src/kernel/sched/mod.rs:118-158 | `lock` and the timer callback find the mutex free: they never spin |
| `LockHandoff.OthersKept` | src/kernel/sched/mod.rs:55-158 | a step changes the running task and the one it resumes at most |
| `RxRing.Interface.Receive` | src/net/mod.rs:84-87 | the frame is accepted if and only if there is a token |
| `RxRing.Interface.Produce` | src/net/mod.rs:88-94 | the exact new state of each section; the buffer is not locked by the consumer when it is written, and the signal finds room (`RxRing.ProducerFinishes`: three sections end the reception) |
| `RxRing.Interface.Consume` | src/net/mod.rs:96-133 | the exact new state of each section; the buffer is not locked by the producer when it is read, the next accepted frame is handled, and the signal finds room |
| `RxRing.Conserved` | src/net/mod.rs:76-77 | the tokens in both semaphores and in operations in progress are always four |
| `RxRing.LocksApart` | src/net/mod.rs:88-99 | the two sides never want the same buffer |
| `RxRing.BufferIsFree` | src/net/mod.rs:88-99 | a side that is about to lock its buffer finds it free |
| `RxRing.SignalsPass` | src/net/mod.rs:93-133 | a signal sent with a buffer locked does not block |
| `RxRing.NothingLost` | src/net/mod.rs:84-133 | when both sides rest, every accepted frame has been handled |
| `RxRing.AcceptsUpToFour` | src/net/mod.rs:76-87 | a frame is accepted if and only if fewer than four are waiting or being handled |
| `RxRing.FrameFits` | src/net/mod.rs:41-45 | a buffer takes any frame of up to 1526 bytes and gives it back |
| `RxRing.ProducerFinishes` | src/net/mod.rs:88-94 | left to itself, the producer is ready for the next frame after at most three sections, with every accepted frame stored and signalled |
| `RxRing.Interface.Run` | src/net/mod.rs:84-133 | the ring after any interleaving is the one that its events lead to; the accepted frames are the arrivals that found the producer ready and a token, in order, and the handled frames are a prefix of them |
| `RxRing.RunsDeliver` | src/net/mod.rs:84-133 | the same of the step system, at every point of every interleaving |
| `RxRing.StepKeeps` | src/net/mod.rs:84-133 | every section keeps the invariant |
| `Delivery.SignalWakes` | src/locking/semaphore.rs:60-83 | a signal with room makes the one waiting task try again |
| `Delivery.BlockedMeansEmpty` | src/net/mod.rs:84-133 | the network task is blocked only if there is no frame for it; with the producer at rest, all accepted frames are then handled |
| `Delivery.Starts` | src/net/mod.rs:68-82 | the invariant holds of a new interface |
| `Delivery.StepRefines` | src/net/mod.rs:84-133 | on the real semaphores, every section is one of the ring or invisible to it |
| `Delivery.RunsDeliver` | src/net/mod.rs:84-133 | at every point of every run the handled frames are a prefix of the accepted ones, and the network task is blocked only if there is no frame for it |
| `Delivery.Accepts` | src/net/mod.rs:76-87 | on the real semaphores too, a frame is accepted if and only if fewer than four are waiting or being handled, once the producer is at rest |
| `Delivery.Drains` | src/net/mod.rs:96-133 | left to itself, the network task handles every accepted frame within a fixed number of sections, and then blocks |
| `Delivery.EveryFrameIsHandled` | src/net/mod.rs:84-133 | from every reachable state, the producer left to itself and then the network task left to itself handle every accepted frame |
| `Packets.BuildFrame` | src/net/ethernet.rs:186-270 | the buffer holds the frame's fields in order, and is unchanged after them |
| `Packets.LayoutIs` | src/net/ethernet.rs:186-270 | destination, source, tags, ethertype and payload, in this order |
| `Packets.FindEtherType` | src/net/ethernet.rs:126-177 | the loop finds the first field that is not a tag |
| `Packets.FrameRoundTrip` | src/net/ethernet.rs:90-177 | parsing returns the addresses, and the ethertype and payload if and only if the ethertype is not the tag identifier |
| `Packets.TagForType` | src/net/ethernet.rs:126-177 | an empty frame with the tag identifier for its ethertype: no ethertype is found |
| `Packets.TagIdentifier` | src/net/ethernet.rs:110 | the tag identifier is 0x8100, high byte first |
| `Packets.BuildArp` | src/net/arp.rs:105-235 | the buffer holds the packet's fields in order |
| `Packets.ArpBytes` | src/net/arp.rs:105-235 | the nine fields in the order of RFC 826, numbers high byte first |
| `Packets.ArpRoundTrip` | src/net/arp.rs:49-96 | the accessors return every field if and only if the length fields are the lengths |
| `Packets.ReplyRoundTrip` | src/net/arp.rs:268-288 | the reply parses back if and only if the request's hardware length is that of the local address, and is the one of RFC 826 if and only if the request's two protocol addresses agree |
| `Packets.AskReply` | src/net/arp.rs:268-288 | a request of 1 for 2: the reply names 2 twice, and with a longer hardware address it does not parse back |

## Left out

- The accessed and dirty flags as the processor sets them: entries change by the kernel's own stores only.
- Arena exhaustion, TLB flushing, cr3 loads, pointer provenance and inline assembly; `_do_switch` is one step.
- Mapping.Mapper.constructor: the boot identity map, which is still in the user half when the source builds the mapper and which no record of the frame table covers; the model starts once it has been dropped.
- Boot.InitMapper: the tables before the identity map is dropped, as for the constructor; and the mappings that `init_mm` goes on to make, which are calls of `alloc_page_at` and `map_mmio`.
- Mapping.Mapper.WalkOrCreateTable: a large page on the path, which the code would follow as if its frame was a table of the arena.
- Mapping.Mapper.Map: large kernel pages, for the same reason; and what a run does after the panic.
- Mapping.Mapper.AllocPageAt: large kernel pages, for the same reason.
- Mapping.Mapper.Unmap: only for 4 KiB leaves; large pages exist in the kernel half only, and `unmap` is called by `cow` alone, for a user page and the scratch page.
- Mapping.Mapper.Cow: large pages, for which the code panics by design.
- PagingEntry.PagingStructEntry.SetFlags: words with bits that are no flags, which the code never passes.
- PagingEntry.PagingStructEntry.GetFlags: masks with bits that are no flags, which the code never passes.
- Runs.Duplicate: a fork that would divert a pointer is reported and not carried out; `Mapping.Mapper.Fork` and `ForkExact.ForkExactness` say what it does.
- Runs.PageFault: faults on a present kernel page, which user programs cannot cause here and kernel code does not.
- `map_mmio`, which adds a constant to the address and calls `map`.
- Semaphores.Semaphore.Run: fairness between tasks, which depends on the scheduler.
- RxRing.Interface.Run: the two semaphores are their counters; `Delivery` has the semaphores themselves.
- Scheduling.TaskList.Next: which of several tasks of least runtime is chosen, which the heap leaves open.
- Overflow of runtimes and of the clock.
- The clock's own bookkeeping of deadlines; a timer wake is a wake of any task that sleeps.
- `vlan_tags()` and `payload()` on built frames, which do not invert the builder.
- Device drivers, ACPI, the boot loader, fonts and the kernel heap.
