# YabroOS-32: memory, processes, files and installer, verified in Dafny

YabroOS-32 is a kernel in C and Rust that ships with Limine's BIOS installer. This project models
its hardest parts as Dafny programs and proves what they promise, over all inputs and all runs.
`dafny verify dfyconfig.toml` checks everything.

* **Copy-on-write address spaces** (`Pmm`, `Paging`, `Trees`, `Addresses`, `FlatMap`, `Supply`,
  `Vmm`, `Isolation`): the page allocator of `src/kernel/pmm.c` and the four-level page tables of
  `src/kernel/vmm.c`, as classes whose fields the methods change in place. Physical memory is a
  sequence of pages of 512 words; a word read as a table entry is given by its bit fields (section
  4.5 of the Intel SDM, volume 3A), and addresses of pages are page numbers. A ghost `World` says
  which frame holds which table, which entries own what they point to and which references kernel
  code has in its hands; `Paging.Inv` ties it to memory and to the reference counts. The main
  results: in any run of create, map, unmap, fork, copy-on-write fault, change of permissions, user
  store and destroy, every address space has exactly the contents and rights that a machine with
  private memory would give it (`Isolation.Kernel.Run`, `ForkThenRun`), as long as no shared page is
  made writable, where a page marked copy-on-write counts as one that may be written; a store goes
  through exactly when that machine allows it and a page is left if one has to be copied
  (`Isolation.Kernel.StoreMeans`, `ForkThenStore`); reference counts are exact and writable pages are
  private; fork changes nothing when it fails and fails exactly when a page cannot be shared or there
  are fewer free pages than the source has tables (`Vmm.AddressSpaces.CloneSpace`); the tables
  translate as a flat map that `Map` and `Unmap` update at one page (`FlatMap.FlatUpdate`).
* **Installer** (`Undo`, `BlockCache`, `Installation`): the one-block write-back cache of
  `limine-bin/limine.c` is a flat disk, and the undo log restores the device byte for byte after a
  failed installation, whatever had been flushed, and after a successful one from its file.
* **Process state** of `src/kernel/main.c`: lazy mappings and mmap placement (`LazyMmap`,
  `Placement`, `MemoryMap`), scheduler (`Scheduler`), input event rings (`Events`), socket streams
  (`Sockets`), descriptor tables and endpoint counts (`Descriptors`). Any run of the descriptor calls
  does what a machine without a single counter would do, and any run of the socket calls, which work
  on two rings, what a pair of unbounded queues with a limit would do.
* **File system** of `src/kernel/vfs.c` (`VfsTree`, `VfsPaths`, `VfsLinks`, `Vfs`): linked child
  lists, names, renaming, hard links and data slots; every operation is stated with what it does to
  all other paths and contents.
* **FAT32 reads** of `src/kernel/main.rs` (`Fat`), down to the bytes of the image.

"Exactly when" in the rows of the memory manager takes the direct map to cover all memory the
allocator tracks (`Supply.Covers`); where it does not, calls may also fail for that, with the same
guarantees for failure. Tables and records the source keeps in static arrays are fields of type
`seq` that methods reassign. Page allocation in `MemoryMap` and copies to and from user memory
elsewhere are parameters. `Common` holds what several modules share.

Three properties do not hold of the code everywhere; for each the model says exactly when they do.

* `vmm_user_protect` makes a page private before it becomes writable only if its entry has the
  copy-on-write mark. Fork shares read-only pages without it, and `vmm_user_protect` itself takes it
  away when it makes a page read-only, so a later request for write access leaves the page shared and
  writable and one space's stores are seen by another (`Isolation.SharedWrite`). Isolation is kept
  exactly when the page has no other user or has the mark (`Vmm.AddressSpaces.Protect`,
  `Addresses.RemapExactly`); `Isolation.Kernel.ForkReadOnly` gives the steps that lead there.
* `pmm_init` counts overlapping memory map entries twice: `Pmm.FrameAllocator.Init` is exact if and
  only if the regions are disjoint, as the Limine protocol promises them.
* Renaming the root of a mounted file system breaks the tree: `Vfs.FileSystem.Rename` says exactly
  when, and `Vfs.MountRootExample` gives the smallest case.

## Model

| member | source | states |
|---|---|---|
| `Pmm.FrameAllocator.ReservePage` | src/kernel/pmm.c:96-109 | A page is newly reserved exactly when it is nonzero, below 2^52, not reserved yet and the list has room; counter and bitmaps stay consistent. |
| `Pmm.FrameAllocator.ReserveRange` | src/kernel/pmm.c:111-120 | Exactly the pages the byte range touches become reserved while the list has room; nothing else does. |
| `Pmm.FrameAllocator.Init` | src/kernel/pmm.c:186-237 | For any memory map: the regions are those of its entries, 64 at most; the counter is never below the number of free frames, and equals it, with allocator and bitmaps consistent, if and only if no two regions overlap; every unreserved frame has count 0; the kernel image and active page tables are reserved. |
| `Pmm.SizesCount` | src/kernel/pmm.c:201-216 | The sizes of the regions add up to at least the number of frames they hold, and to exactly that if and only if they are disjoint. |
| `Pmm.OverlapExample` | src/kernel/pmm.c:201-216 | A page given twice in the memory map is counted twice. |
| `Pmm.RegionsOfCover` | src/kernel/pmm.c:201-216 | The regions hold exactly the pages whose bytes all lie in a usable memory map entry, between 16 MiB and 4 GiB. |
| `Pmm.RegionPages` | src/kernel/pmm.c:201-216 | The same for one entry. |
| `Pmm.FrameAllocator.Alloc` | src/kernel/pmm.c:239-273 | A ready allocator fails exactly when the counter is 0; a returned frame is usable, unreserved, was not allocated and now has one reference. |
| `Pmm.FrameAllocator.Free` | src/kernel/pmm.c:285-309 | One reference less; the frame becomes free, and is counted, exactly when the last one goes; reserved and foreign frames are untouched. |
| `Pmm.FrameAllocator.Retain` | src/kernel/pmm.c:321-330 | A reference is added exactly to managed frames in use with a count below 65535. |
| `Paging.EntryMeansTable` | src/kernel/vmm.c:144-159 | Between calls an upper entry is present exactly when there is a table below it, leads to it, and is writable and open to the user. |
| `Trees.UprootedUndone` | src/kernel/vmm.c:215-240 | Throwing away a partial clone restores all tables, owners and reference counts of the source state. |
| `Trees.ForkDone` | src/kernel/vmm.c:298-333 | After the three passes the child has the parent's tables, every leaf and its twin hold one and the same entry, and no other space or page changed. |
| `Isolation.ForkEntries` | src/kernel/vmm.c:306-325 | In both spaces a present writable managed entry becomes present, not writable and copy-on-write with the same address and all other bits; every other entry is as it was. |
| `Trees.DestroyDone` | src/kernel/vmm.c:391-413 | Teardown removes every table of the space and every reference its entries had, and nothing else. |
| `Addresses.PathInjective` | src/kernel/vmm.c:68-71 | Different user pages have different table indices. |
| `Addresses.WritableIsPrivate` | src/kernel/vmm.c:427-479 | A page some entry may write is mapped by no other entry of any space. |
| `Addresses.MayMapExactly` | src/kernel/vmm.c:525-550 | Mapping a held page keeps the invariant if and only if no other entry of the space maps it and, for a writable entry, nobody else uses it. |
| `Addresses.RemapExactly` | src/kernel/vmm.c:781-795 | New permissions in place keep the invariant if and only if no page with other users becomes writable. |
| `Supply.CloneCost` | src/kernel/vmm.c:242-274 | A complete clone takes exactly as many free pages as the source has tables. |
| `Supply.CloneStarved` | src/kernel/vmm.c:242-274 | A clone that runs out of pages needed more than there were. |
| `Supply.CoversExactly` | src/kernel/pmm.c:335-343 | The direct map covers all memory the allocator tracks exactly when it starts late enough to be a kernel address from the first page on and the last page below 4 GiB does not wrap around. |
| `Vmm.AddressSpaces.TakePage` | src/kernel/pmm.c:239-273 | Allocation seen from the page tables: none exactly when no managed page is unreferenced. |
| `Vmm.AddressSpaces.DropPage` | src/kernel/pmm.c:285-309 | Giving up a held reference keeps the invariant that ties counts to tables and entries. |
| `Vmm.AddressSpaces.NewUserTable` | src/kernel/vmm.c:126-142 | An empty table is linked below one entry; failure leaves everything and means no free page. |
| `Vmm.AddressSpaces.EnsureUserChild` | src/kernel/vmm.c:144-159 | The table below an entry exists afterwards, mappings and data are as before, and a page is taken exactly when it was missing; the flags an entry might lack are always there. |
| `Vmm.AddressSpaces.CreateSpace` | src/kernel/vmm.c:161-208 | A new space maps nothing in the user half and shares the kernel half; it fails exactly without a kernel root or free page. |
| `Vmm.AddressSpaces.DestroyCloneLevel` | src/kernel/vmm.c:215-228 | The tables of a partial clone below one table are freed, no page it points to is. |
| `Vmm.AddressSpaces.DestroyCloneRoot` | src/kernel/vmm.c:230-240 | The same for the whole partial clone. |
| `Vmm.AddressSpaces.CloneTables` | src/kernel/vmm.c:242-274 | A table tree is copied entry for entry, or nothing is left of it; it fails only when free pages are fewer than tables. |
| `Vmm.AddressSpaces.Probe` | src/kernel/vmm.c:289-290 | Retaining and freeing again changes no count and tells whether the page can take a reference. |
| `Vmm.AddressSpaces.Preflight` | src/kernel/vmm.c:276-296 | Succeeds exactly when every mapped page is reserved or has a reference to spare, and changes no count. |
| `Vmm.AddressSpaces.ShareEntry` | src/kernel/vmm.c:306-325 | One leaf is shared: one reference more, write permission traded for copy-on-write in both spaces unless the page is reserved; it cannot fail after preflight. |
| `Vmm.AddressSpaces.ApplyCow` | src/kernel/vmm.c:298-333 | After preflight, over tables that map no managed page twice, the pass cannot fail and shares every leaf. |
| `Vmm.AddressSpaces.CloneSpace` | src/kernel/vmm.c:335-389 | All or nothing: on failure tables, counts, data in use and the free counter are as before; on success the fork is complete and the child has the parent's kernel half; it succeeds exactly when every page can be shared and free pages cover the tables. |
| `Vmm.AddressSpaces.DestroyEntries` | src/kernel/vmm.c:391-413 | Every entry of a table is cleared and every table and managed page below it loses the reference it had there. |
| `Vmm.AddressSpaces.CowFault` | src/kernel/vmm.c:427-479 | Resolves exactly the faults on present user copy-on-write entries whose page is unshared or can be copied; the entry becomes writable with the same contents and all its other bits, no other entry changes, failure changes nothing. |
| `Vmm.AddressSpaces.DestroySpace` | src/kernel/vmm.c:481-498 | The space is gone with all its references; every other space and page in use is as before. |
| `Vmm.AddressSpaces.Map` | src/kernel/vmm.c:525-550 | The page's entry is present and open to the user with exactly the write, no-execute and cache bits asked for, and of the translations of all spaces exactly that page's in the active one changes; a failed call changes none; it succeeds exactly for aligned user addresses when free pages cover the missing tables. |
| `Vmm.AddressSpaces.MapFresh` | src/kernel/main.c:3378-3387 | A fresh page with given contents appears at an unmapped address and nowhere else, or nothing is seen to change. |
| `Vmm.AddressSpaces.Translate` | src/kernel/vmm.c:662-684 | Finds the leaf entry exactly when the user address is mapped. |
| `Vmm.AddressSpaces.Unmap` | src/kernel/vmm.c:767-779 | Clears exactly the entry of a mapped aligned user address, so that page alone no longer translates, and hands its reference to the caller; otherwise nothing changes. |
| `Vmm.AddressSpaces.UnmapFree` | src/kernel/main.c:7361-7365 | Unmapping and freeing removes exactly that page from that space. |
| `Vmm.AddressSpaces.Protect` | src/kernel/vmm.c:781-795 | The entry gets exactly the permissions asked for, its address and contents and all other entries stay; it succeeds exactly for mapped aligned addresses whose copy-on-write page, if it is to be writable, can be made private; afterwards writable pages are private if and only if no page shared without the copy-on-write mark became writable. |
| `Vmm.AddressSpaces.StoreWord` | src/kernel/vmm.c:427-479 | A user store, with the copy-on-write fault it may take, changes one word seen by one space; it goes through exactly for writable or resolvable user entries. |
| `FlatMap.WalkFinds` | src/kernel/vmm.c:662-684 | Following entries through raw memory, each of them present, writable and open to the user, finds exactly the tables of the space. |
| `FlatMap.TranslationFinds` | src/kernel/vmm.c:662-684 | The hardware walk translates exactly the addresses with a present leaf entry. |
| `FlatMap.FlatMapUpdate` | src/kernel/vmm.c:525-550 | A change of one leaf changes the translation of exactly one page of one space; `Map` and `Unmap` are stated through it. |
| `FlatMap.FlatGrown` | src/kernel/vmm.c:144-159 | New empty tables change no translation of any space. |
| `Isolation.ExactSharing` | src/kernel/vmm.c:298-333 | A managed page's count is the number of leaf entries that map it over all spaces, plus one for a table; a writable one has exactly one entry. |
| `Isolation.LeafEntriesWalk` | src/kernel/vmm.c:662-684 | The entries counted are exactly those the hardware walk reaches from the roots of the spaces. |
| `Isolation.ExposedElsewhere` | src/kernel/vmm.c:298-333 | Between calls a mapped page has a count other than 1 if and only if another space maps it too. |
| `Isolation.SharedWrite` | src/kernel/vmm.c:781-795 | Once a page is shared and writable, any store that changes a word is seen by another space. |
| `Isolation.ForkExposes` | src/kernel/vmm.c:306-325 | After a fork every read-only managed page of parent and child is shared without the copy-on-write mark. |
| `Isolation.OnlyOwnEvents` | src/kernel/vmm.c:298-389 | On the machine with private memory a space's memory depends on its own events alone. |
| `Isolation.ForkIsolation` | src/kernel/vmm.c:298-389 | After a fork, parent and child each evolve as a private copy taken at fork time. |
| `Isolation.Kernel.DoFork` | src/kernel/vmm.c:335-389 | Fork looks like copying the parent's memory with its rights, and is granted exactly when it can be done; every store granted before is granted after it, in parent and child, while a free page is left. |
| `Isolation.ForkStorable` | src/kernel/vmm.c:306-325 | An entry a store goes through to before the fork takes one after it, and so does its twin, while a free page is left. |
| `Isolation.Kernel.DoFault` | src/kernel/vmm.c:427-479 | A copy-on-write fault is never seen by anybody. |
| `Isolation.Kernel.DoStore` | src/kernel/vmm.c:427-479 | A store changes the storing space alone. |
| `Isolation.Kernel.StoreMeans` | src/kernel/vmm.c:427-479 | A store is granted exactly when private memory shows a page there with the right to write and, unless the page is this space's alone, there is a free page to copy it to. |
| `Isolation.Kernel.ForkThenStore` | src/kernel/vmm.c:335-389 | A store that would have been granted goes through after a fork, in the parent or the child, when one page more than the tables is free. |
| `Isolation.Kernel.DoMap` | src/kernel/main.c:3366-3388 | Mapping a fresh page changes one page of one space, which has the contents and rights given. |
| `Isolation.Kernel.MapThenStore` | src/kernel/main.c:3366-3388 | A page mapped writable takes a store at once, and then shows its contents with that word. |
| `Isolation.Kernel.DoUnmap` | src/kernel/main.c:7361-7365 | Unmapping removes one page from one space. |
| `Isolation.Kernel.DoDestroy` | src/kernel/vmm.c:481-498 | Destroying a space is not seen by the others. |
| `Isolation.Kernel.DoProtect` | src/kernel/vmm.c:781-795 | A change of permissions that exposes no page gives one page of one space exactly the rights asked for, contents unchanged, and is granted exactly when it can be done. |
| `Isolation.Kernel.Endangers` | src/kernel/vmm.c:781-795 | Entry, mark and reference count tell whether a change of permissions exposes a page. |
| `Isolation.Kernel.ForkReadOnly` | src/kernel/vmm.c:298-333 | Mapping a page read-only and forking always leads to a request that exposes it. |
| `Isolation.Kernel.Do` | src/kernel/vmm.c:298-498 | Every request acts as its event on private memory, is granted exactly when its condition holds, and new spaces are new. |
| `Isolation.Kernel.Run` | src/kernel/vmm.c:298-498 | Over any run, up to the first request that makes a shared page writable, all spaces see the contents and rights private memory would show, counts are exact and writable pages private. |
| `Isolation.Kernel.ForkThenRun` | src/kernel/vmm.c:298-389 | Fork isolation on the real tables, for every interleaving of later requests up to the first that makes a shared page writable. |
| `Isolation.Boot` | src/kernel/vmm.c:161-208 | After boot on a memory map with disjoint regions the first address space is created whenever a usable page is left, and nothing is mapped. |
| `Undo.ReplayMeets` | limine-bin/limine.c:484-512 | Replaying the log gives one result on all devices that agree on the bytes it does not cover. |
| `Undo.UndoesDevice` | limine-bin/limine.c:318-324 | Whichever blocks were flushed, replaying the reversed log on the device gives the original. |
| `Undo.RecordedWrite` | limine-bin/limine.c:433-482 | Logging the bytes before overwriting them keeps the log able to undo everything. |
| `Undo.FileRoundTrip` | limine-bin/limine.c:330-412 | What was stored is what is loaded, whatever follows in the file. |
| `Undo.LoadExactly` | limine-bin/limine.c:330-412 | A file loads as a log if and only if it begins with what storing that log writes. |
| `Undo.FileLayout` | limine-bin/limine.c:330-360 | Byte by byte: the number of entries, then for each its place, its length and its bytes, numbers in eight bytes, low byte first. |
| `Undo.DecodedStorable` | limine-bin/limine.c:362-412 | Loaded entries have at least one byte and word-sized fields. |
| `BlockCache.Installer.Flush` | limine-bin/limine.c:263-279 | The logical disk is unchanged and the device becomes equal to it. |
| `BlockCache.Installer.CacheBlock` | limine-bin/limine.c:281-302 | Succeeds exactly for blocks wholly on the device and leaves the logical disk unchanged; a failure has flushed first. |
| `BlockCache.Installer.Read` | limine-bin/limine.c:414-431 | Returns the logical bytes at every offset across blocks, exactly when all lie on whole blocks; nothing is written but the disk's own bytes. |
| `BlockCache.Installer.WriteChunks` | limine-bin/limine.c:460-478 | Changes exactly its range of the logical disk; a write past the end leaves exactly the part that fits. |
| `BlockCache.Installer.Write` | limine-bin/limine.c:433-482 | The same, and unless uninstalling the overwritten bytes are appended to the log; a refused write changes no byte of the disk. |
| `BlockCache.Installer.ReverseLog` | limine-bin/limine.c:318-324 | The log is reversed. |
| `BlockCache.Installer.Restore` | limine-bin/limine.c:497-511 | An entry is written back, with one retry, exactly when it lies on the device. |
| `BlockCache.Installer.Uninstall` | limine-bin/limine.c:484-531 | Succeeds exactly when every entry lies on the device, and then the device is the replay of the log. |
| `BlockCache.Installer.Store` | limine-bin/limine.c:330-360 | The file is the encoded log, and storing fails exactly when an entry has no bytes. |
| `BlockCache.Load` | limine-bin/limine.c:362-412 | Returns a log if and only if the file begins with what storing it writes, a log having at most 256 nonempty entries of word-sized place and length. |
| `Installation.Perform` | limine-bin/limine.c:414-482 | Every device access of an installation keeps the log able to undo everything. |
| `Installation.Attempt` | limine-bin/limine.c:533-541 | An installation succeeds exactly when every access fits and at most 256 writes are made; either way the reversed log undoes it. |
| `Installation.Install` | limine-bin/limine.c:1183-1192 | A failed installation leaves the device byte for byte as it was; a successful one does exactly its writes, and its stored log undoes them. |
| `Installation.UninstallMode` | limine-bin/limine.c:697-712 | The device becomes the replay of the loaded file, exactly when it can be loaded and fits. |
| `Installation.InstallAndBack` | limine-bin/limine.c:1171-1195 | Installing and uninstalling from the file in a later run gives the device back. |
| `LazyMmap.RebuiltLookup` | src/kernel/main.c:3287-3323 | Remove, set-protection and replace change the protection found exactly on the range, as specified, even where ranges overlap. |
| `LazyMmap.Transform` | src/kernel/main.c:3287-3323 | The same for the table of 128 slots; it is refused, untouched, exactly when the result does not fit. |
| `LazyMmap.Protection` | src/kernel/main.c:3338-3348 | The protection of the first range that holds the address; none exactly when no range in use does. |
| `Placement.RangeFree` | src/kernel/main.c:2770-2781 | Exactly the ranges in bounds none of whose pages is mapped. |
| `Placement.FindGap` | src/kernel/main.c:2783-2815 | Terminates with the lowest aligned place at or above the start that is in bounds, off the heap and unmapped, or says that there is none. |
| `Placement.FitsExactly` | src/kernel/main.c:2770-2815 | A place is in bounds, off the heap and unmapped exactly when it is aligned between 256 MiB and 2^47, clear of the heap above 5 MiB and no mapped address lies in it. |
| `MemoryMap.Tasks.TransformShared` | src/kernel/main.c:3325-3336 | All tasks of the space get the changed table, or none does. |
| `MemoryMap.Tasks.Cursor` | src/kernel/main.c:7102-7117 | Every sharing task gets the highest cursor among them. |
| `MemoryMap.Tasks.Advance` | src/kernel/main.c:7118-7128 | Every sharing task's cursor rises to at least the new end, and no reservation ends above a cursor. |
| `MemoryMap.Tasks.Place` | src/kernel/main.c:7198-7213 | Placement is first fit above the shared cursor and meets no page and no reservation of any sharing task. |
| `MemoryMap.Tasks.Mmap` | src/kernel/main.c:7130-7318 | An anonymous mapping lands at the fixed address or the first fit, changes look-ups and pages exactly on its range, moves the cursors of exactly the sharing tasks and is undone when memory runs out; without a fixed address it succeeds exactly when there is room, with one exactly when the range is free, in bounds and fits the table and memory. |
| `MemoryMap.Tasks.Munmap` | src/kernel/main.c:7322-7368 | Removes exactly the range from the tables of all sharing tasks and from the pages, or changes nothing; success and each refusal happen exactly in their cases. |
| `MemoryMap.Tasks.Mprotect` | src/kernel/main.c:7370-7407 | Refuses arguments exactly as its checks are ordered, without any change; else changes the protection found exactly on the range, whose pages are on success all mapped, or none for no access; it succeeds exactly when every page is mapped or reserved and memory suffices for those to be mapped. |
| `MemoryMap.Tasks.Fault` | src/kernel/main.c:3366-3388 | Maps one page exactly for an allowed access to an unmapped page of a lazy range. |
| `MemoryMap.ProtectionBits` | src/kernel/main.c:3366-3388 | Write with execute is refused, whatever other bits there are; a write needs PROT_WRITE, an instruction fetch PROT_EXEC, a read PROT_READ or PROT_WRITE. |
| `MemoryMap.Tasks.Clone` | src/kernel/main.c:9094-9102 | The first free slot becomes a task with its parent's space, table and cursor; there is none exactly when it fails. |
| `MemoryMap.Tasks.Fork` | src/kernel/main.c:9131-9153 | The child, in the first free slot, gets a space of its own with the parent's pages and ranges, or is gone again. |
| `MemoryMap.Tasks.Exec` | src/kernel/main.c:9402-9421 | The task starts over in a new space without lazy ranges; its old space stays as it was if task 0 or another task has it and is gone otherwise; other spaces and tasks are untouched. |
| `MemoryMap.Tasks.Reap` | src/kernel/main.c:3549-3561 | The task's slot is free; its space stays as it was if task 0 or another task has it and is gone otherwise; other spaces and tasks are untouched. |
| `MemoryMap.Tasks.Do` | src/kernel/main.c:7130-7407 | Each call has its effect, with its result. |
| `MemoryMap.Tasks.Run` | src/kernel/main.c:3325-3336 | In any run each call has its effect on the state the one before left; tasks that share a space find the same protections, and every reservation ends at or below their cursors. |
| `Scheduler.PickNext` | src/kernel/main.c:3821-3833 | Picks the ready task of least nice, then fewest switches, then first after the current one; none exactly when none is ready. |
| `Scheduler.OnePick` | src/kernel/main.c:3821-3833 | That task is unique. |
| `Scheduler.Cpu.Preempt` | src/kernel/main.c:3780-3797 | The timer makes the current task ready, hands the processor to the pick and counts the switch; a zombie with no ready task gives way to task 0, if that is alive, and else goes on itself. |
| `Scheduler.PassedOver` | src/kernel/main.c:3821-3838 | Each switch to another task uses up exactly one of the picks that can precede a waiting task. |
| `Scheduler.BoundedWait` | src/kernel/main.c:3780-3838 | With s switches a foremost task runs after at most the sum over its competitors of max(0, s - s_i + 1) other picks. |
| `Scheduler.StaysBalanced` | src/kernel/main.c:3821-3838 | Counts of foremost tasks that differ by at most one still do after a switch. |
| `Scheduler.BalancedRun` | src/kernel/main.c:3780-3838 | And so over any run. |
| `Events.EventRing.Push` | src/kernel/main.c:1298-1307 | The event is the next of the sequence and the latest 256 stay readable. |
| `Events.EventRing.Open` | src/kernel/main.c:2664-2669 | A new open state starts with the next event. |
| `Events.EventRing.Sync` | src/kernel/main.c:2024-2029 | A reader that fell behind goes on with the oldest event still there. |
| `Events.EventRing.Pop` | src/kernel/main.c:2035-2041 | Returns the event of the reader's number, or of the oldest still there, exactly when one is waiting; no other reader notices. |
| `Events.EventRing.Read` | src/kernel/main.c:5878-5887 | One read returns consecutive events and stops early only when drained. |
| `Events.Increasing` | src/kernel/main.c:1929-1951 | Through one open state events come out in strictly increasing order, each once. |
| `Events.NoneLost` | src/kernel/main.c:2021-2062 | An event is left out only when 256 newer ones had been pushed. |
| `Sockets.Connection.SendTo` | src/kernel/main.c:4857-4917 | Queues as many bytes as there is room for, in order; each refusal happens exactly in its case. |
| `Sockets.Connection.RecvFrom` | src/kernel/main.c:4918-4954 | Returns the oldest bytes, as many as there are; end of file, retry and blocking exactly in their cases. |
| `Sockets.CheckMessage` | src/kernel/main.c:4973-4984 | Accepts exactly messages of at most 64 parts of at most 1 MiB and 16 MiB in all. |
| `Sockets.Connection.RecvMsg` | src/kernel/main.c:4986-5045 | Returns the oldest bytes, cut into the parts in order, each full before the next gets any. |
| `Sockets.Connection.SendMsg` | src/kernel/main.c:5047-5088 | Queues the whole message or nothing, exactly when connected, well formed and fitting. |
| `Sockets.Connection.DropRef` | src/kernel/main.c:4561-4580 | An end is closed when its last descriptor goes. |
| `Sockets.Connection.Do` | src/kernel/main.c:4857-5088 | Each call answers and leaves the connection as a pair of queues would. |
| `Sockets.Connection.Run` | src/kernel/main.c:4857-5088 | Any run on the two rings gives the results and bytes, call by call, of the same run on a pair of queues. |
| `Sockets.FirstInFirstOut` | src/kernel/main.c:4857-5088 | Over any run, per direction, bytes received followed by those waiting are the bytes sent, and at most 16384 wait. |
| `Descriptors.Files.LiveCount` | src/kernel/main.c:6244-6256 | Counts the live descriptors of a pipe end. |
| `Descriptors.Files.Close` | src/kernel/main.c:6259-6271 | Frees the descriptor in the task's own table, leaves every other table alone and keeps counters and open flags exact. |
| `Descriptors.Files.ChildCloses` | src/kernel/main.c:2354-2365 | After a copying clone a close by the child frees the descriptor in its own table and leaves its parent's as it was. |
| `Descriptors.Files.Install` | src/kernel/main.c:6648-6662 | A new descriptor is one more reference to its end. |
| `Descriptors.Files.Pipe` | src/kernel/main.c:6597-6634 | Two ends of the first pipe nobody holds get the two lowest free descriptors of the task's own table, or nothing changes; it fails without a fault only for want of descriptors or pipes. |
| `Descriptors.Files.OpenMaster` | src/kernel/main.c:2615-2641 | The first terminal nobody has open is locked and opened in the task's own table; fails only without a descriptor or such a terminal. |
| `Descriptors.Files.OpenSlave` | src/kernel/main.c:2642-2661 | Opens the other side exactly of an unlocked terminal with an open master, in the task's own table. |
| `Descriptors.Files.Dup` | src/kernel/main.c:6663-6670 | The lowest free descriptor of the task's own table from the bound on refers to the same end. |
| `Descriptors.Files.Dup2` | src/kernel/main.c:6684-6697 | The target in the task's own table refers to the same end, after what it was is closed; the same descriptor is left alone. |
| `Descriptors.Files.Dup3` | src/kernel/main.c:6698-6712 | The same with the close-on-exec flag, refusing equal descriptors and other flags. |
| `Descriptors.Files.CloneTable` | src/kernel/main.c:3622-3678 | The child shares the table or gets a copy of it, each copied descriptor one reference more; it fails exactly when there is no table. |
| `Descriptors.Files.Release` | src/kernel/main.c:3563-3616 | The last user closes every descriptor; task 0 keeps table 0. |
| `Descriptors.Files.CloseOnExec` | src/kernel/main.c:9411-9413 | Exactly the close-on-exec descriptors of the task's own table are closed. |
| `Descriptors.CountHeld` | src/kernel/main.c:6244-6256 | A counter is above zero exactly when a task's table holds a descriptor of that end. |
| `Descriptors.Files.Do` | src/kernel/main.c:2615-2661 | Each call does to the tables what it does on a machine that has no counters and looks at the tables of all tasks instead. |
| `Descriptors.Files.Run` | src/kernel/main.c:2615-2661 | Any run does what it does on that machine; pipe and terminal counters equal the live descriptors of each end, and table counts the tasks that use them. |
| `VfsTree.AttachKeeps` | src/kernel/vfs.c:109-109 | Adding an entry under a new name keeps the tree. |
| `VfsTree.DetachKeeps` | src/kernel/vfs.c:277-280 | Unlinking an entry from its list keeps the tree. |
| `VfsTree.OneList` | src/kernel/vfs.c:109-109 | Every node with a parent, other than a mount's root, is in exactly one child list, once: its parent's. |
| `VfsTree.NoCycle` | src/kernel/vfs.c:298-301 | No node is its own ancestor. |
| `VfsPaths.FreshName` | src/kernel/vfs.c:139-147 | When a path leads nowhere but its directory exists, that directory has no child of the last name. |
| `VfsPaths.LeafName` | src/kernel/vfs.c:139-147 | What a path leads to and is no directory is the child of its last name. |
| `VfsPaths.WalkUp` | src/kernel/vfs.c:139-147 | A component that leads to a directory, followed by `..`, leads back to where the path was, also across a mount. |
| `VfsPaths.WalkDots` | src/kernel/vfs.c:139-147 | At the root `..` stays there; `.` never moves. |
| `VfsPaths.PathLeads` | src/kernel/vfs.c:139-147 | The names from the root down to a node, if none is a dot or over 31 characters, lead to it, or to what is mounted on it. |
| `VfsPaths.LongNames` | src/kernel/vfs.c:139-147 | Components that agree in their first 31 characters lead to the same node. |
| `VfsPaths.CaseOnly` | src/kernel/vfs.c:117-135 | Names match up to case exactly when they have one length and differ in the case of letters only. |
| `VfsPaths.FoldFirst` | src/kernel/vfs.c:123-132 | The second search finds the first directory of that name up to case. |
| `VfsPaths.RespellFinds` | src/kernel/vfs.c:123-132 | Giving a directory the spelling it was found under changes no look-up. |
| `VfsLinks.DropSlots` | src/kernel/vfs.c:87-108 | When the last link goes the slot is freed, and still every slot in use has one holder. |
| `VfsLinks.MovedLinks` | src/kernel/vfs.c:251-283 | A link count and the number of entries of an inode move together. |
| `Vfs.FileSystem.LookupChild` | src/kernel/vfs.c:117-135 | The child of the exact name, else the first directory of that name up to case, which is respelt only below the root and only as the system directory it names. |
| `Vfs.FileSystem.Lookup` | src/kernel/vfs.c:139-147 | Leads where the walk over the components leads, as the `VfsPaths` rows state it, and changes no look-up. |
| `Vfs.FileSystem.ParentForCreate` | src/kernel/vfs.c:178-190 | The directory of the last component, refusing names over 31 characters. |
| `Vfs.FileSystem.AllocSlot` | src/kernel/vfs.c:76-85 | An unused slot, zeroed; none exactly when all are used. |
| `Vfs.FileSystem.CreateFile` | src/kernel/vfs.c:192-218 | An existing file is returned, truncated if asked; else a new empty file is the first child of its directory, with one link and a slot nobody had, of full capacity, and the path leads to it; every path that led somewhere still does, and no other file's contents change; a new file is refused exactly without a directory for it, a node or a slot. |
| `Vfs.FileSystem.Mkdir` | src/kernel/vfs.c:236-249 | A new empty directory where the path led nowhere and now leads to it, all other paths as before; refused exactly when it exists, has no directory or the table is full; contents stay. |
| `Vfs.FileSystem.Link` | src/kernel/vfs.c:251-270 | The new path leads to a new name for the same inode with the same contents, all other paths as before; it succeeds exactly when the old path leads to a file, the new one names an entry of a directory, leads nowhere yet and the table has room, and each refusal has its own code. |
| `Vfs.FileSystem.DropLink` | src/kernel/vfs.c:99-108 | One link less; without any, size, slot and capacity go. |
| `Vfs.FileSystem.Unlink` | src/kernel/vfs.c:272-283 | Removes exactly an entry that is no directory, which its path no longer leads to; every path to another node still leads there, and contents under other names stay. |
| `Vfs.FileSystem.Rmdir` | src/kernel/vfs.c:285-296 | Removes exactly an empty directory that is in its parent's list; no path leads to it any more, every other path leads where it did, and contents stay. |
| `Vfs.FileSystem.IsAncestor` | src/kernel/vfs.c:298-301 | Whether a node is at or above another. |
| `Vfs.FileSystem.Rename` | src/kernel/vfs.c:303-329 | Succeeds exactly when the entry is there, the new path names a directory not below it and no other directory is in the way; then the entry is the first of that directory under the new name, replacing a file there, no other node moves, a new path without dots leads to it, paths without dots to nodes outside what moved stay, and so do contents except of an inode whose last name was replaced; the tree is kept if and only if the entry is not the root of a mount. |
| `Vfs.MountRootMoved` | src/kernel/vfs.c:303-329 | Renaming the root of a mount always breaks the tree. |
| `Vfs.MountRootExample` | src/kernel/vfs.c:303-329 | The smallest such case. |
| `Vfs.FileSystem.Mount` | src/kernel/vfs.c:150-150 | Succeeds exactly on a directory while the table has room; on an empty directory in the tree the tree is kept, the path leads to the new root and every other path leads where it did. |
| `Vfs.CreatedWalk` | src/kernel/vfs.c:192-270 | The path at which a node was made leads to it. |
| `Vfs.FileSystem.Write` | src/kernel/vfs.c:379-389 | What is written through one name, as much as fits, is seen through every name of the inode and through no other; refused exactly for what is no file and for offsets past the capacity. |
| `Vfs.FileSystem.Truncate` | src/kernel/vfs.c:356-363 | The same for a new length, with zeros where the file grows. |
| `Vfs.FileSystem.Read` | src/kernel/vfs.c:376-378 | Size and data of a name are those of its inode; nothing for what is no regular file. |
| `Vfs.FileSystem.Do` | src/kernel/vfs.c:192-389 | Each operation has its effect, with its result. |
| `Vfs.FileSystem.Run` | src/kernel/vfs.c:192-329 | In any run each operation has its effect on the state the one before left; the nodes stay a tree, link counts equal the entries sharing an inode, and a slot is used exactly when one inode with a name holds it. |
| `Fat.ClusterInside` | src/kernel/main.rs:1355-1374 | A valid cluster lies wholly in the image. |
| `Fat.InsideValid` | src/kernel/main.rs:1355-1374 | A cluster passes the check exactly when it is a data cluster below the reserved numbers and lies wholly in the image. |
| `Fat.EntryNext` | src/kernel/main.rs:1376-1386 | The next cluster is the entry of this one: four bytes of the table after the reserved sectors, low byte first, top four bits ignored; without one the chain ends. |
| `Fat.VisitedChain` | src/kernel/main.rs:1376-1386 | Following the table from the first cluster meets the clusters of the chain in order. |
| `Fat.GatherSlice` | src/kernel/main.rs:1666-1685 | Copying cluster by cluster is slicing their concatenation. |
| `Fat.GatherFaults` | src/kernel/main.rs:1666-1685 | A cluster off the volume faults when bytes of it are wanted. |
| `Fat.ReadOfChain` | src/kernel/main.rs:1666-1685 | On a chain of the volume the read is the slice of the file. |
| `Fat.DiskRead` | src/kernel/main.rs:1666-1685 | If entry by entry the table in the image names the next cluster, byte p of the file is byte p mod c of data cluster p div c of the chain, c being the cluster size. |
| `Fat.ReadRange` | src/kernel/main.rs:1666-1685 | For any volume and table: the slice of the clusters met on the way, nothing past an early end, a fault exactly when a cluster the range needs is off the volume; on a chain that covers the file, or ends before it does, each byte of the slice, cut at the file size, is the byte of the image at its place in its cluster. |
| `Fat.AdjacentReads` | src/kernel/main.rs:1666-1685 | Adjacent reads compose into one read. |

## Left out

- Vmm.AddressSpaces.StoreWord: the store itself is the processor's; `vmm.c` only has the fault it may take, and the model puts the two together.
- BlockCache.Installer.Uninstall: for entries that do not lie on the device it only states that failure is reported, because a second failed attempt leaves the cache unset for the entries that follow.
- Vmm.AddressSpaces.Map: what the page tables are like after a call that `Addresses.MayMapExactly` shows to break the invariant (a managed page the kernel holds no reference to, one the space maps already, or a shared one made writable); the callers in the source map fresh pages.
- MemoryMap.Tasks.Mprotect: which permissions a page that is mapped already gets; pages there are a set of addresses, and the entries themselves are `Vmm.AddressSpaces.Protect`.
- Vfs.FileSystem.Rename: where other paths lead is stated when the target directory has no directory of the new name up to case; one that was found under another spelling is then hidden by the exact name.
- Vfs.FileSystem.Run: skips the renaming of mount roots, which breaks the tree, and mounts on directories that are not empty.
- `sys_mremap`.
- Large pages: entries with the PS bit never become part of a user space, so the refusals for them in fork are shown unreachable rather than exercised.
- The walk of the boot loader's page tables in `pmm_init`: the pages it finds are a parameter.
- 64-bit words of page tables as bit patterns: masks and shifts are field accesses of a decoded entry.
- TLB flushes, CR3 loads, port I/O, PS/2, PIC, timers as hardware, framebuffer mapping and debug output have no state here; framebuffer pages are pages the allocator does not manage.
- `malloc` and host write failures in the installer, detection of the block size, partition probing and the boot image.
- File-backed and framebuffer `sys_mmap`, the heap calls and the framebuffer branch of `sys_munmap`; user pages in `MemoryMap` are a set of addresses, without contents.
- Switch counts wrap after 2^64 switches and event numbers after 2^64 events; both are unbounded here.
- Signals, blocking and wake-up of tasks, pipe contents and end-of-file, pseudo-terminal line discipline, `exec` loading.
- Socket reference counts under `socketpair` and `accept`, listening sockets, and user-copy faults of sockets.
- Splitting of path strings at slashes and the 260-character limit: paths are sequences of components. Mounting on directories that are not empty, the mount and file system tables, symbolic links, boot files, sockets as nodes, the Xorg log's static buffer, `vfs_read_file`.
- Zero-filling of the hole when a write starts past the end of a file: the bytes in between are whatever the slot held.
- FAT directory parsing, long names and volume geometry: the first cluster, size and layout are parameters.
