# Nachos kernel: a verified model

This project models the hard parts of a Nachos kernel (the CSCI 402 tree under `nachos-csci402/code`) in Dafny and
proves what they promise, over all runs, schedules, disks and operands. `dafny verify dfyconfig.toml` checks it.

- **Demand paging** (`Paging`, `Coherence`, `NoLostWrite`, `FlatMemory`, `LostWrite`, `SwapReached`, `ManyPrograms`,
  `Halting`, `PagingKernel`). TLB, inverted page table, eviction, swap file. The tables stay coherent over many address
  spaces. Whether a program sees a flat memory depends on the sizes, the replacement policy and context switches:
  `PagingExact` gives the exact condition. The loop that collects dirty bits at an eviction reads invalid slots too, so
  outside that condition a stale slot wins and a store is lost; the runs that lose it are constructed for every such
  configuration. For any number of programs at once `SharingExact` gives the condition on the machine. `Halting` says
  exactly when the machine halts.
- **File system** (`DiskLayout`, `BitMap`, `OpenFile`, `FileHeader`, `Directory`, `Volume`, `FileSystem`). Bitmap,
  directory and files live on one disk of sectors. Each operation is proved against a volume, the value a disk decodes
  to; the volume's invariant is that all headers and data sectors are pairwise disjoint and exactly the marked ones.
- **Threads** (`Threads`, `ThreadSafety`, `ThreadFrames`, `ThreadLaws`, `SynchList`, `SynchListCalls`, `SynchDisk`).
  Ready list, locks, semaphores and conditions as one step machine whose steps are the stretches of code that run with
  interrupts off. The synchronised list and the synchronous disk are programs on that machine.
- **Processor** (`Multiply`, `Mips`, `MipsRestart`, `MipsLaws`, `MipsDelay`, `MipsMachine`, `MipsAlu`, `SimulatorLaws`,
  `SimulatorMemory`). Multiplication, and instructions that can be restarted after a page fault in spite of load delay
  slots; `DelayExact` says exactly which instructions may follow a load whatever the word arithmetic; for the
  simulator's own, which here and there ignores an operand, its condition is sufficient. `SimulatorLaws` and
  `SimulatorMemory` say what each encoded instruction word does.
- **Lock server** (`LockServer`, `LockServerAnswers`, `LockServerTables`). One server, one message at a time.
- **Time** (`SortedList`, `Interrupts`, `InterruptLaws`, `InterruptOrder`, `InterruptMachine`, `DiskTiming`). The linked
  list of pending interrupts, the loop that runs them, and the latency of the disk.

Operations are functions on values where whole runs are reasoned about; classes with the source's fields carry out the
same operations in place and are proved equal to those functions. `Counting`, `Words`,
`DiskGeometry` and `Options` hold what several modules share.

What a reader might not expect of the code, and what the model keeps:

- `AddrSpace::allocateStack` builds a new page table without the places in the swap file, so a swapped page is lost
  track of. `GrowExact` states when growth is harmless, `GrowthCanFail` that every machine reaches the other case, and
  `AlwaysCoherent` what still holds after it.
- `Interrupt::CheckIfDue` puts an interrupt that is not yet due back behind others of the same time, so equal times do
  not fire in the order scheduled. `PutBackExact` says when the queue changes, `FiringOrder` in which order they fire,
  and `EqualTimesReversed` shows two that fire in reverse.
- In idle mode a timer alone in the queue is put back after the clock has already advanced to it, so it is left overdue;
  `IdleExact` says exactly when.
- An `LWR` into register 0 right after a load into register 0 merges with the value that was loaded; the delay-slot
  condition (`MipsRestart.DelaySafe`) names this case, and `DelayExactZero` that it is the only one for register 0.
- `OR` combines `rs` with itself and `SRL`, `SRLV` shift arithmetically; `MipsAlu` keeps them so. `OrExact` and
  `LogicalShiftExact` say for which operands that makes no difference.
- The server's conditions stay bound to the first lock they were waited on with (`StaysBound`).

## Model

| member | source | states |
|---|---|---|
| `Coherence.AlwaysCoherent` | nachos-csci402/code/userprog/exception.cc:943-1038 | In every state of every run over many address spaces (accesses, faults, evictions under either policy, context switches, exits, new programs, stack growth): every valid TLB slot matches a valid frame of the current space, frames and page tables are inverse partial maps, the memory bitmap marks exactly the valid frames, evicted frames have live owners, and, unless a stack has grown while its program had a page in the swap file, no two swapped pages share a swap slot; or the swap file filled up and the machine halted |
| `Coherence.StepCoherent` | nachos-csci402/code/userprog/exception.cc:943-1038 | Each event keeps those tables coherent or halts the machine |
| `Coherence.FaultCoherent` | nachos-csci402/code/userprog/exception.cc:1015-1038 | A handled fault leaves coherent tables with the page in a valid slot |
| `Coherence.UnhookCoherent` | nachos-csci402/code/userprog/exception.cc:962-981 | Invalidating the victim's slots leaves no valid slot on its frame, whatever dirty bit the scan picks up |
| `Coherence.WriteOutCoherent` | nachos-csci402/code/userprog/exception.cc:982-999 | Writing the victim out, or dropping it, frees the frame and gives a swapped page a slot of its own, or halts |
| `Coherence.IPTMissCoherent` | nachos-csci402/code/userprog/addrspace.cc:387-411 | Loading a page into the freed frame makes frame and page table entry point at each other again |
| `Coherence.UpdateTLBCoherent` | nachos-csci402/code/userprog/exception.cc:943-960 | Overwriting the next slot keeps the slots matching frames of the current space, one per page |
| `Coherence.SwitchCoherent` | nachos-csci402/code/userprog/addrspace.cc:262-273 | Invalidating all slots and changing the current space keeps the tables coherent |
| `Coherence.ExitCoherent` | nachos-csci402/code/userprog/addrspace.cc:293-306 | Clearing a space's memory and dropping the space leaves no frame owned by it |
| `Coherence.GrowExact` | nachos-csci402/code/userprog/addrspace.cc:322-367 | The new table of a grown stack does not carry over places in the swap file: growth is sure to keep the tables coherent if and only if the program has no page in the swap file |
| `Coherence.BootCoherent` | nachos-csci402/code/userprog/addrspace.cc:120-187 | The machine as set up, with a zeroed TLB and one program, is coherent |
| `NoLostWrite.VerdictRight` | nachos-csci402/code/userprog/exception.cc:974-979 | When every slot naming the victim counts, the last dirty bit the scan copies is the true one |
| `NoLostWrite.EvictContent` | nachos-csci402/code/userprog/exception.cc:962-999 | An eviction changes no page that can be read, except that the victim's own page falls back to its backing copy when the scan ends on a clean slot |
| `NoLostWrite.FaultContent` | nachos-csci402/code/userprog/exception.cc:1015-1038 | A fault changes no page of any space if and only if its victim is safe: the scan finds it dirty, or it equals its backing copy |
| `NoLostWrite.FaultTracked` | nachos-csci402/code/userprog/exception.cc:943-1038 | Frames that differ from their backing copy stay marked dirty in some slot or in the table |
| `NoLostWrite.AttemptContent` | nachos-csci402/code/machine/translate.cc:87-178 | A hit reads the page, or splices the stored bytes into that page and no other |
| `FlatMemory.AccessIsFlat` | nachos-csci402/code/machine/translate.cc:87-178 | One access, faults included, is the access of a flat memory when its eviction is safe |
| `FlatMemory.StaleGone` | nachos-csci402/code/userprog/exception.cc:943-981 | With first-in first-out victims and at least as many frames as slots, no stale slot names the frame that is about to be evicted |
| `FlatMemory.RunIsFlat` | nachos-csci402/code/userprog/exception.cc:943-1038 | Over a whole run the paged memory is the image of the flat one |
| `FlatMemory.NoLostWrites` | nachos-csci402/code/userprog/exception.cc:943-1038 | Every read of every run returns the last value written, or the initial image, whenever the program fits, or the TLB has one slot, or there are at least as many frames as slots with neither random victims nor switches |
| `LostWrite.MoreSlotsThanFrames` | nachos-csci402/code/userprog/exception.cc:974-979 | With more slots than frames and a page too many, some run loses a store |
| `LostWrite.SwitchesLose` | nachos-csci402/code/userprog/addrspace.cc:262-273 | With two slots, a page too many and context switches, some run loses a store |
| `LostWrite.RandomLoses` | nachos-csci402/code/userprog/exception.cc:962-970 | With two slots, a page too many and random victims, some run loses a store |
| `LostWrite.PagingExact` | nachos-csci402/code/userprog/exception.cc:943-1038 | Paging is invisible to a program if and only if that condition on sizes, policy and switches holds, whatever the size of the swap file |
| `SwapReached.SwapIsReached` | nachos-csci402/code/userprog/exception.cc:962-999 | On every machine with room in the swap file, a program with more pages than frames reaches a coherent state with a page in the swap file |
| `SwapReached.GrowthCanFail` | nachos-csci402/code/userprog/addrspace.cc:322-367 | There, growing the stack can leave tables that are not coherent: the failing case of growth is reached on every such machine |
| `ManyPrograms.AccessShows` | nachos-csci402/code/machine/translate.cc:87-178 | With any number of programs, an access whose eviction is safe is a flat access to the memory of the program that runs, and no other program's memory changes |
| `ManyPrograms.ExitShows` | nachos-csci402/code/userprog/addrspace.cc:293-306 | A program that ends takes its memory away and leaves every other program's as it was |
| `ManyPrograms.StepShows` | nachos-csci402/code/userprog/exception.cc:943-1038 | With a one-slot TLB every access, switch, exit, new program and stack growth leaves each program its own flat memory |
| `ManyPrograms.TogetherShows` | nachos-csci402/code/userprog/exception.cc:943-1038 | So does every run of any programs |
| `ManyPrograms.SharingExact` | nachos-csci402/code/userprog/exception.cc:943-1038 | Whatever programs are started, switched, grown and ended, each always reads back its own memory if and only if the TLB has one slot |
| `Halting.EvictHalts` | nachos-csci402/code/userprog/exception.cc:982-999 | An eviction halts the machine if and only if the scan leaves its frame dirty and every place of the swap file is taken |
| `Halting.EvictSwaps` | nachos-csci402/code/userprog/exception.cc:982-998 | Otherwise a dirty page goes to the least free place, whose bit and contents alone change, and its entry says so; a clean one leaves the swap file alone |
| `Halting.VictimsInTurn` | nachos-csci402/code/userprog/exception.cc:962-972 | First in, first out takes the frames in turn; at random any frame can be taken |
| `Halting.AccessHalts` | nachos-csci402/code/userprog/exception.cc:1015-1038 | An access halts the machine if and only if it is aligned, misses, finds no free frame and a victim left dirty, and the swap file is full |
| `Halting.HaltsOnlyFull` | nachos-csci402/code/userprog/exception.cc:943-1038 | In every run over any programs: the machine has halted only if the swap file has filled up, and a run with no more accesses than free places has not halted |
| `NoLostWrite.TranslateMarks` | nachos-csci402/code/machine/translate.cc:196-265 | A hit sets the use bit of its slot, and a store the dirty bit, and changes nothing else; a miss and a misaligned access change nothing |
| `ManyPrograms.StepCurrent` | nachos-csci402/code/userprog/addrspace.cc:262-306 | A switch runs the program it names, an exit takes the running one away and runs the next, a new program is added; nothing else changes who is there or who runs |
| `ManyPrograms.ClearMemZeroes` | nachos-csci402/code/userprog/addrspace.cc:293-306 | A program that ends leaves nothing in the frames it held |
| `PagingKernel.Kernel.LoadSlot` | nachos-csci402/code/userprog/exception.cc:943-960 | The slot update in place is the specified one: the outgoing dirty bit propagates first |
| `PagingKernel.Kernel.SaveOrDrop` | nachos-csci402/code/userprog/exception.cc:982-998 | A dirty victim goes to the first free swap slot, or the machine halts; a clean one is dropped |
| `PagingKernel.Kernel.InvalidateSlots` | nachos-csci402/code/userprog/exception.cc:973-981 | The loop over the slots invalidates all that name the frame and leaves the last one's dirty bit in the table |
| `PagingKernel.Kernel.HandleMemoryFull` | nachos-csci402/code/userprog/exception.cc:962-999 | The method is the specified eviction |
| `PagingKernel.Kernel.BringIn` | nachos-csci402/code/userprog/addrspace.cc:387-411 | The page comes from executable, swap file or zeros, as its entry says |
| `PagingKernel.Kernel.GetFrame` | nachos-csci402/code/userprog/exception.cc:1001-1009 | The first free frame, or the victim's |
| `PagingKernel.Kernel.HandleIPTMiss` | nachos-csci402/code/userprog/exception.cc:1001-1013 | Frame and load together |
| `PagingKernel.Kernel.FindResident` | nachos-csci402/code/userprog/exception.cc:1021-1030 | The scan finds the frame of the current space's page, if any |
| `PagingKernel.Kernel.PageFault` | nachos-csci402/code/userprog/exception.cc:1015-1038 | The handler is the specified one and keeps the tables coherent |
| `PagingKernel.Kernel.Lookup` | nachos-csci402/code/machine/translate.cc:196-265 | Translation finds the valid slot and sets its use and dirty bits, or reports the exception |
| `PagingKernel.Kernel.TryAccess` | nachos-csci402/code/machine/translate.cc:87-178 | One try moves the bytes or reports the exception |
| `PagingKernel.Kernel.UserAccess` | nachos-csci402/code/machine/translate.cc:87-178 | An access, with its fault handled and the instruction tried again, is one step of the machine and ends without a fault |
| `PagingKernel.Kernel.InvalidateAll` | nachos-csci402/code/userprog/addrspace.cc:262-273 | The loop invalidates every slot and nothing else |
| `PagingKernel.Kernel.ReleaseFrames` | nachos-csci402/code/userprog/addrspace.cc:293-306 | The loop frees exactly the frames of the space |
| `BitMaps.MarkAgrees` | nachos-csci402/code/userprog/bitmap.cc:46-51 | Or-ing a shifted one into a word sets that bit of its row and no other |
| `BitMaps.ClearAgrees` | nachos-csci402/code/userprog/bitmap.cc:60-65 | And-ing the complement clears that bit and no other |
| `BitMaps.BitMap.constructor` | nachos-csci402/code/userprog/bitmap.cc:20-27 | A new map stands for the empty set |
| `BitMaps.BitMap.Mark` | nachos-csci402/code/userprog/bitmap.cc:46-51 | Adds one number to the set the words stand for |
| `BitMaps.BitMap.Clear` | nachos-csci402/code/userprog/bitmap.cc:60-65 | Removes one number from the set |
| `BitMaps.BitMap.Test` | nachos-csci402/code/userprog/bitmap.cc:74-83 | Membership |
| `BitMaps.BitMap.Find` | nachos-csci402/code/userprog/bitmap.cc:94-103 | Takes the least clear bit; -1 exactly when every bit is marked, and then nothing changes |
| `BitMaps.BitMap.NumClear` | nachos-csci402/code/userprog/bitmap.cc:111-119 | The exact cardinality of the clear set |
| `BitMaps.BitMap.FetchFrom` | nachos-csci402/code/userprog/bitmap.cc:148-152 | The map becomes the set the file's bytes stand for |
| `BitMaps.BitMap.WriteBack` | nachos-csci402/code/userprog/bitmap.cc:161-165 | The file's bytes stand for the map's set afterwards; no sector outside the file changes |
| `BitMaps.MapRoundTrip` | nachos-csci402/code/userprog/bitmap.cc:148-165 | Writing the words and reading them back keeps the set |
| `DiskLayout.InodeRoundTrip` | nachos-csci402/code/filesys/filehdr.cc:77-94 | A header written to a sector and read back is the same header |
| `DiskLayout.TableRoundTrip` | nachos-csci402/code/filesys/directory.cc:63-80 | A directory table written and read back is the same table |
| `DiskLayout.HeaderLayout` | nachos-csci402/code/filesys/filehdr.cc:77-94 | The length, the number of sectors and the table stand one after the other in the sector, four bytes each, low byte first |
| `DiskLayout.EntryLayout` | nachos-csci402/code/filesys/directory.cc:63-80 | A row has twenty bytes: whether it is in use, the sector at 4, the name at 8 |
| `FileHeaders.FileHeader.Allocate` | nachos-csci402/code/filesys/filehdr.cc:41-52 | Succeeds if and only if enough bits are clear; then every search succeeds, the sectors are distinct, were free, are each the least free at the time, and exactly they become marked |
| `FileHeaders.SectorsForExact` | nachos-csci402/code/filesys/filehdr.cc:41-46 | A file takes the least number of sectors that hold its bytes |
| `FileHeaders.FileHeader.Deallocate` | nachos-csci402/code/filesys/filehdr.cc:61-68 | With its sectors marked, each is still marked when its turn comes, and exactly they are cleared |
| `FileHeaders.StoredHeader` | nachos-csci402/code/filesys/filehdr.cc:77-94 | A header with uninitialised table cells keeps its length and its sectors through the disk |
| `FileHeaders.FileHeader.FetchFrom` | nachos-csci402/code/filesys/filehdr.cc:77-81 | The header at the sector comes in |
| `FileHeaders.FileHeader.WriteBack` | nachos-csci402/code/filesys/filehdr.cc:90-94 | Exactly that sector changes, to the header |
| `FileHeaders.FileHeader.ByteToSector` | nachos-csci402/code/filesys/filehdr.cc:106-110 | The table's cell k, where k is the number of whole sectors below the offset |
| `Directories.SameNameIsSameKey` | nachos-csci402/code/filesys/directory.cc:90-97 | The bounded string comparison tells names apart exactly as far as their first nine characters, cut at the terminator, differ |
| `Directories.CopiedKey` | nachos-csci402/code/filesys/directory.cc:136-140 | The bounded copy stores a field that stands for the same name |
| `Directories.Directory.FindIndex` | nachos-csci402/code/filesys/directory.cc:90-97 | The first row in use with the name; -1 if and only if there is none |
| `Directories.Directory.Find` | nachos-csci402/code/filesys/directory.cc:108-116 | The header sector of that row, or -1 |
| `Directories.Directory.Add` | nachos-csci402/code/filesys/directory.cc:129-143 | Succeeds if and only if the name is new and a row is free; then the first free row changes, and no other |
| `Directories.Directory.Remove` | nachos-csci402/code/filesys/directory.cc:153-162 | Succeeds if and only if the name is listed; one row is freed and the rest stays |
| `Directories.Directory.FetchFrom` | nachos-csci402/code/filesys/directory.cc:63-67 | The table becomes what the directory file holds |
| `Directories.Directory.WriteBack` | nachos-csci402/code/filesys/directory.cc:76-80 | The directory file holds the table; no sector outside the file changes |
| `Files.OpenFile.ReadAt` | nachos-csci402/code/filesys/openfile.cc:117-145 | The slice of the file at any position and length, unaligned ends included, clipped at the file's end |
| `Files.OpenFile.WriteAt` | nachos-csci402/code/filesys/openfile.cc:147-187 | Slice update of the file, clipped at its end, old bytes kept at unaligned edges; no sector outside the file changes |
| `Files.OpenFile.Read` | nachos-csci402/code/filesys/openfile.cc:75-81 | Slice read at the seek position, which advances by what was read |
| `Files.OpenFile.Write` | nachos-csci402/code/filesys/openfile.cc:83-89 | Slice update at the seek position, which advances by what was written |
| `Files.OpenFile.Seek` | nachos-csci402/code/filesys/openfile.cc:56-60 | The next transfer starts there |
| `Files.ReadAfterWrite` | nachos-csci402/code/filesys/openfile.cc:117-187 | Reading what was written gives it back, as far as it fitted |
| `Files.WriteElsewhere` | nachos-csci402/code/filesys/openfile.cc:147-187 | A write does not show outside its range |
| `Files.ChunkedRead` | nachos-csci402/code/filesys/openfile.cc:75-81 | Any chunking of sequential reads is one large read |
| `Files.ChunkedWrite` | nachos-csci402/code/filesys/openfile.cc:83-89 | Any chunking of sequential writes is one large write |
| `Volumes.AddFile` | nachos-csci402/code/filesys/filesys.cc:174-215 | Adding a file on free sectors keeps headers and data of all files, bitmap and directory pairwise disjoint and exactly the marked sectors; every other file is untouched |
| `Volumes.RemoveFile` | nachos-csci402/code/filesys/filesys.cc:257-288 | So does removing one; exactly its sectors become free |
| `Volumes.RewriteFile` | nachos-csci402/code/filesys/openfile.cc:147-187 | Rewriting one file's bytes keeps the partition, the table, the set and every other file |
| `Volumes.CreateRemove` | nachos-csci402/code/filesys/filesys.cc:174-288 | Create then Remove gives back the free set and the map from names to contents |
| `Volumes.RunIsMap` | nachos-csci402/code/filesys/filesys.cc:174-288 | After any run of creates, removes, writes and failures from an empty file system, each name holds exactly what its own operations made of it |
| `FileSystems.DecodesOne` | nachos-csci402/code/filesys/filesys.cc:80-288 | A disk decodes to at most one volume |
| `FileSystems.CreateCommits` | nachos-csci402/code/filesys/filesys.cc:203-207 | Header, directory and bitmap flushed in that order leave a disk that decodes to the volume with the file added |
| `FileSystems.RemoveCommits` | nachos-csci402/code/filesys/filesys.cc:282-283 | Bitmap and directory flushed in that order leave a disk that decodes to the volume with the file removed |
| `FileSystems.WriteCommits` | nachos-csci402/code/filesys/openfile.cc:147-187 | A write to one listed file changes, on the disk, no other file, header, directory or bitmap |
| `FileSystems.FileSystem.Format` | nachos-csci402/code/filesys/filesys.cc:80-137 | On a disk with any contents, formatting establishes the partition with no files; its space assertions hold |
| `FileSystems.FileSystem.Mount` | nachos-csci402/code/filesys/filesys.cc:138-142 | Opening a formatted disk gives a valid file system |
| `FileSystems.FileSystem.Create` | nachos-csci402/code/filesys/filesys.cc:174-215 | Succeeds if and only if the name is new, a row is free and header and data fit; then exactly that file is added; otherwise the disk is unchanged |
| `FileSystems.FileSystem.Open` | nachos-csci402/code/filesys/filesys.cc:227-242 | Null if and only if the name is not listed; otherwise a handle on the file's contents |
| `FileSystems.FileSystem.Remove` | nachos-csci402/code/filesys/filesys.cc:257-288 | Succeeds if and only if the name is listed; then exactly that file is gone and its sectors are free; the "ought to be marked" assertion holds |
| `FileSystems.FileSystem.WriteThrough` | nachos-csci402/code/filesys/openfile.cc:147-187 | A write through a handle is a slice update of that file in the abstract file system and nothing else |
| `ThreadSafety.AlwaysSafe` | nachos-csci402/code/threads/synch.cc:64-230 | In every state that any schedule reaches: queues hold exactly the threads blocked on them, each once; a lock is free if and only if nobody owns it, and then nobody waits; a thread woken inside Acquire already owns the lock; a semaphore's value is initial plus Vs minus Ps, not negative, and while threads sleep at most the number of woken threads still to look; a condition records a lock if and only if somebody waits |
| `ThreadSafety.SafeSane` | nachos-csci402/code/threads/synch.cc:64-230 | In such a state every step that is enabled can be taken, and the current thread is the running one |
| `ThreadSafety.OnePlace` | nachos-csci402/code/threads/thread.cc:187-239 | Every started, unfinished thread is running, on the ready list or in one wait queue, and in exactly one of them |
| `ThreadSafety.ReturnsOwner` | nachos-csci402/code/threads/synch.cc:114-128 | A thread back in its own code from Acquire, even after sleeping, or from Wait owns the lock; Acquire sleeps only while another thread owns it |
| `ThreadFrames.OwnershipEnds` | nachos-csci402/code/threads/synch.cc:130-150 | Ownership ends only by the owner's own Release or Wait, and passes to the longest waiter, if any |
| `ThreadSafety.WakesFirst` | nachos-csci402/code/threads/synch.cc:87-212 | V, Signal and Release wake the longest waiter, if there is one, and nobody else; a Release with no waiter frees the lock |
| `ThreadSafety.WaitSleeps` | nachos-csci402/code/threads/synch.cc:166-187 | A wait that is not refused leaves the thread asleep on the condition, bound to the lock, which it no longer owns |
| `ThreadSafety.GrantsInOrder` | nachos-csci402/code/threads/synch.cc:130-150 | Waiters are granted the lock in the order in which they came |
| `ThreadSafety.AcquireSafe` | nachos-csci402/code/threads/synch.cc:114-128 | Acquire keeps the invariant; it ends owning the lock or asleep in its queue |
| `ThreadSafety.PassOn` | nachos-csci402/code/threads/synch.cc:141-144 | Handing the lock to the first waiter keeps the invariant |
| `ThreadSafety.PSafe` | nachos-csci402/code/threads/synch.cc:64-77 | P, first look or later, keeps value = initial + Vs - Ps >= 0 and, while threads sleep, value at most the number of woken threads still to look |
| `ThreadSafety.VSafe` | nachos-csci402/code/threads/synch.cc:87-98 | So does V |
| `ThreadSafety.WaitSafe` | nachos-csci402/code/threads/synch.cc:166-187 | Joining the condition, releasing and sleeping as one step keeps the invariant: a lock is recorded if and only if somebody waits |
| `ThreadSafety.SignalSafe` | nachos-csci402/code/threads/synch.cc:189-212 | So does Signal |
| `ThreadSafety.BroadcastTurnSafe` | nachos-csci402/code/threads/synch.cc:214-230 | So does each turn of Broadcast, with interrupts on in between |
| `ThreadSafety.YieldSafe` | nachos-csci402/code/threads/thread.cc:187-203 | So does giving up the processor |
| `ThreadLaws.YieldTurns` | nachos-csci402/code/threads/thread.cc:187-203 | Yield puts the thread at the end of the ready list and runs the first; alone, it goes on |
| `ThreadLaws.LifeSteps` | nachos-csci402/code/threads/thread.cc:100-166 | Fork puts the new thread at the end of the ready list; Finish ends the running one; dispatching runs the first of the list |
| `ThreadLaws.AcquireTakes` | nachos-csci402/code/threads/synch.cc:114-128 | Acquire by the owner changes nothing, takes a free lock at once, and otherwise sleeps at the end of its queue; nothing else in the kernel changes |
| `ThreadLaws.ReleasePasses` | nachos-csci402/code/threads/synch.cc:130-150 | Release by anybody but the owner changes nothing; the owner's passes the lock to the first waiter, who becomes ready, or frees it; nothing else changes |
| `ThreadLaws.PTakes` | nachos-csci402/code/threads/synch.cc:64-77 | P takes one from a positive value, or sleeps at the end of the queue |
| `ThreadLaws.VGives` | nachos-csci402/code/threads/synch.cc:87-98 | V adds one to the value and makes the first waiter ready, if any |
| `ThreadLaws.SignalWakes` | nachos-csci402/code/threads/synch.cc:189-212 | Signal without the waiters' lock changes nothing; with it the first waiter becomes ready, and the condition forgets the lock when the last one leaves |
| `ThreadLaws.WaitRefused` | nachos-csci402/code/threads/synch.cc:166-187 | A wait without a lock, or with another lock than the others', changes nothing |
| `ThreadLaws.ReturnGoesOn` | nachos-csci402/code/threads/synch.cc:64-187 | A thread woken in the kernel is back from Acquire, looks at the semaphore again, or reobtains the lock of its wait |
| `ThreadLaws.BroadcastBegins` | nachos-csci402/code/threads/synch.cc:214-226 | Broadcast without the waiters' lock changes nothing; with it the loop begins |
| `ThreadLaws.BroadcastTurns` | nachos-csci402/code/threads/synch.cc:227-229 | A turn wakes the first waiter, or ends the loop when nobody waits |
| `ThreadLaws.BroadcastWakesAll` | nachos-csci402/code/threads/synch.cc:214-230 | Left to itself, Broadcast wakes everybody who waits, in order, forgets the lock and returns; nothing else changes |
| `ThreadLaws.BroadcastLeaves` | nachos-csci402/code/threads/synch.cc:227-229 | Under any schedule a thread leaves the loop only in its own turn and when nobody waits any more |
| `SynchLists.RemoveSleeps` | nachos-csci402/code/threads/synchlist.cc:70-82 | A consumer that finds the list empty sleeps on the condition without the lock |
| `SynchListCalls.Channel` | nachos-csci402/code/threads/synchlist.cc:53-82 | Under any schedule what callers pass to Append is what is on record and what they still hold, each thread's in the order of its calls; and the record is what Remove has returned, in order, then the item about to be returned, if any, then the list |
| `SynchListCalls.RunPassedBy` | nachos-csci402/code/threads/synchlist.cc:53-60 | For each thread, what it passed is what it put on the list, in order, and the item it holds |
| `SynchListCalls.RunGivenBack` | nachos-csci402/code/threads/synchlist.cc:70-82 | What Remove has returned is what was delivered, in order, but for the item of the one thread about to return |
| `SynchLists.NextSafe` | nachos-csci402/code/threads/synchlist.cc:53-82 | Every line of Append and Remove, every interruption and everything else that threads do keeps the list's invariant; there is always an item to take, and the assertion fails if and only if that item is null |
| `SynchLists.NeverFails` | nachos-csci402/code/threads/synchlist.cc:53-82 | If nobody appends null, the assertion never fails under any schedule |
| `SynchLists.Exclusive` | nachos-csci402/code/threads/synchlist.cc:53-82 | Two threads past the list's lock are one |
| `SynchLists.Delivery` | nachos-csci402/code/threads/synchlist.cc:53-82 | Under any schedule in which nobody appends null the assertion holds throughout; what was appended is what was delivered followed by the list; and when the lock is free while consumers sleep, there are no more items than consumers already woken |
| `SynchDisks.NextSafe` | nachos-csci402/code/filesys/synchdisk.cc:72-109 | Every line of the disk calls, every interrupt and everything else keeps the disk's invariant; the disk is never asked while active, and a step fails if and only if it asks for a sector that does not exist |
| `SynchDisks.AtomicCalls` | nachos-csci402/code/filesys/synchdisk.cc:72-109 | Under any schedule and interrupt timing at most one request is outstanding, at most one thread is between request and release, and a thread about to return has seen its own interrupt |
| `SynchDisks.NeverFails` | nachos-csci402/code/machine/disk.cc:115-153 | If every call names a sector of the disk, no assertion of the disk fails under any schedule |
| `SynchDisks.CallsAreSequential` | nachos-csci402/code/filesys/synchdisk.cc:72-93 | Under any schedule and interrupt timing the disk and every caller's buffer are those of a disk that serves one call at a time, in the order in which it took them |
| `SynchDisks.AnsweredInside` | nachos-csci402/code/filesys/synchdisk.cc:72-93 | At its return a call's own request is the last the disk has taken, is what the thread asked for, was taken since the call began, and its interrupt has been seen: calls take effect one after the other, each between its beginning and its end |
| `SynchDisks.ReadsLastWrite` | nachos-csci402/code/filesys/synchdisk.cc:72-93 | In that order a read returns what the last write to its sector wrote |
| `SynchDisks.ReadsFirst` | nachos-csci402/code/filesys/synchdisk.cc:72-93 | And what the disk held at first when nothing has written the sector |
| `Multiplication.Mult` | nachos-csci402/code/machine/mipssim.cc:634-691 | hi:lo is the exact 64-bit product for all signed and all unsigned operands |
| `Multiplication.ShiftAdd` | nachos-csci402/code/machine/mipssim.cc:658-677 | The loop over the bits of a, early exit and arithmetic shift included, gives the exact unsigned product |
| `Multiplication.AddCarry` | nachos-csci402/code/machine/mipssim.cc:664-667 | Adding double words with the carry found by comparison |
| `Multiplication.Complement` | nachos-csci402/code/machine/mipssim.cc:681-687 | Two's complement of a double word |
| `Mips.DelayedLoad` | nachos-csci402/code/machine/mipssim.cc:574-581 | The pending load is applied, the next one recorded, register 0 zero, every other register kept |
| `Mips.ExecuteKeeps` | nachos-csci402/code/machine/mipssim.cc:92-564 | No instruction touches the pending load or the program counters before completion, and what it leaves pending names a general register |
| `MipsRestart.ExecuteFollows` | nachos-csci402/code/machine/mipssim.cc:92-564 | An instruction that leaves the pending register alone has the same effect whether or not the pending load was applied early |
| `MipsRestart.Transparent` | nachos-csci402/code/machine/mipssim.cc:92-581 | After each completed instruction, under any interleaving of interrupts and repaired faults, registers (but for the fault address) and memory are those of the undisturbed program |
| `MipsAlu.SimulatorTransparent` | nachos-csci402/code/machine/mipssim.cc:92-581 | The same for the simulator's own arithmetic and opcode tables |
| `MipsRestart.FaultLeaves` | nachos-csci402/code/machine/machine.cc:121-132 | A faulting attempt leaves program counters and memory alone and applies at most the pending load |
| `MipsRestart.AlwaysSound` | nachos-csci402/code/machine/mipssim.cc:574-581 | Register 0 is zero and the pending load names a general register in every state that instructions, faults and interrupts reach |
| `MipsRestart.Retires` | nachos-csci402/code/machine/mipssim.cc:553-581 | A completed instruction moves the program counters on, delivers the pending load, leaves its own load pending and changes no register but those it writes; only stores change memory |
| `MipsDelay.DelayExact` | nachos-csci402/code/machine/mipssim.cc:92-581 | For every instruction and pending register but 0: an interrupt in the delay slot is invisible for every arithmetic, memory and register contents if and only if the instruction does not use that register |
| `MipsDelay.DelayExactZero` | nachos-csci402/code/machine/mipssim.cc:279-343 | With register 0 pending an interrupt is visible for some arithmetic and memory if and only if the instruction is an LWL or LWR into register 0 and the pending value is not zero |
| `MipsRestart.ReadShows` | nachos-csci402/code/machine/mipssim.cc:352-354 | An instance: MTHI of the pending register leaves the old value in HI, or the loaded one after an interrupt |
| `MipsRestart.WriteShows` | nachos-csci402/code/machine/mipssim.cc:344-346 | An instance: MFHI into the pending register is overwritten by the load, or survives after an interrupt |
| `MipsLaws.StopsExactly` | nachos-csci402/code/machine/mipssim.cc:92-564 | Which instructions stop, for any arithmetic: loads and stores that are not aligned or have no translation, with their address; overflows; system calls and illegal instructions; all others complete |
| `MipsLaws.FetchStops` | nachos-csci402/code/machine/mipssim.cc:100-102 | A program counter that is not aligned or has no translation stops the fetch, with its address |
| `MipsLaws.RaiseRecords` | nachos-csci402/code/machine/machine.cc:121-132 | An exception records its address, applies the pending load and leaves none; no other register changes |
| `MipsLaws.FaultRaises` | nachos-csci402/code/machine/machine.cc:121-132 | A page fault is such an exception and leaves memory alone |
| `MipsLaws.InterruptApplies` | nachos-csci402/code/machine/interrupt.cc:345-348 | An interrupt applies the pending load, leaves none, and changes nothing else |
| `SimulatorLaws.OpRow` | nachos-csci402/code/machine/mipssim.h:117-134 | The opcode table, code by code |
| `SimulatorLaws.FunctionRow` | nachos-csci402/code/machine/mipssim.h:141-150 | The table of functions, code by code |
| `SimulatorLaws.Branches` | nachos-csci402/code/machine/mipssim.cc:160-192 | On encoded words: BEQ, BNE, BLEZ and BGTZ add four times the sign-extended immediate to the next program counter if and only if the comparison of integers holds, and 4 otherwise |
| `SimulatorLaws.SignBranches` | nachos-csci402/code/machine/mipssim.cc:165-187 | So do BLTZ, BGEZ, BLTZAL and BGEZAL; the last two leave the link in register 31 |
| `SimulatorLaws.Jumps` | nachos-csci402/code/machine/mipssim.cc:218-222 | J and JAL go to their index within the 256 megabytes of the delay slot's successor; JAL leaves the link |
| `SimulatorLaws.RegisterJumps` | nachos-csci402/code/machine/mipssim.cc:224-228 | JR and JALR go to the register; JALR leaves the link first |
| `SimulatorLaws.Shifts` | nachos-csci402/code/machine/mipssim.cc:394-449 | SLL multiplies and SRL and SRA divide by a power of two, in 32 bits |
| `SimulatorLaws.RegisterShifts` | nachos-csci402/code/machine/mipssim.cc:398-454 | So do SLLV, SRLV and SRAV, by the low five bits of rs |
| `SimulatorLaws.Sums` | nachos-csci402/code/machine/mipssim.cc:124-150 | ADD and SUB give the true result, which is a word; ADDU and SUBU give it in 32 bits |
| `SimulatorLaws.Comparisons` | nachos-csci402/code/machine/mipssim.cc:403-433 | SLT and SLTU compare as signed and as unsigned numbers |
| `SimulatorLaws.AndGives` | nachos-csci402/code/machine/mipssim.cc:152-154 | AND combines the registers bit by bit |
| `SimulatorLaws.OrGives` | nachos-csci402/code/machine/mipssim.cc:374-376 | OR combines rs with itself |
| `SimulatorLaws.XorGives` | nachos-csci402/code/machine/mipssim.cc:537-539 | XOR combines them bit by bit |
| `SimulatorLaws.NorGives` | nachos-csci402/code/machine/mipssim.cc:370-372 | So does NOR |
| `SimulatorLaws.AndImmediate` | nachos-csci402/code/machine/mipssim.cc:156-158 | ANDI combines rs with the 16 bits of the immediate |
| `SimulatorLaws.OrImmediate` | nachos-csci402/code/machine/mipssim.cc:378-380 | So does ORI |
| `SimulatorLaws.XorImmediate` | nachos-csci402/code/machine/mipssim.cc:541-543 | So does XORI |
| `SimulatorLaws.Immediates` | nachos-csci402/code/machine/mipssim.cc:134-146 | ADDI gives the true sum, which is a word, ADDIU the sum in 32 bits, SLTI and SLTIU the comparison, LUI the upper half |
| `SimulatorLaws.HighLow` | nachos-csci402/code/machine/mipssim.cc:344-368 | MFHI, MFLO, MTHI and MTLO move; MULT, MULTU, DIV and DIVU leave product, quotient and remainder in HI and LO |
| `SimulatorMemory.Loads` | nachos-csci402/code/machine/mipssim.cc:230-277 | LB, LBU, LH, LHU and LW leave the bytes at rs plus the immediate, low byte first and extended as named, pending for rt |
| `SimulatorMemory.PartLoads` | nachos-csci402/code/machine/mipssim.cc:279-342 | LWL and LWR, at word boundaries, leave the word, or its high byte in the low byte of the register or of a load pending for it |
| `SimulatorMemory.Stores` | nachos-csci402/code/machine/mipssim.cc:382-474 | SB, SH and SW put the low bytes of rt there, and change no other byte |
| `SimulatorMemory.PartStores` | nachos-csci402/code/machine/mipssim.cc:476-531 | SWL and SWR, at word boundaries, put the register, or its low byte in the high byte of the word |
| `SimulatorMemory.MemoryStops` | nachos-csci402/code/machine/mipssim.cc:230-531 | A load or store stops at an address that is not aligned or has no translation, and says which; otherwise it completes |
| `SimulatorMemory.SumStops` | nachos-csci402/code/machine/mipssim.cc:124-132 | ADD and SUB stop if and only if the result is not a word |
| `SimulatorMemory.ImmediateStops` | nachos-csci402/code/machine/mipssim.cc:134-142 | So does ADDI |
| `SimulatorMemory.FunctionStops` | nachos-csci402/code/machine/mipssim.cc:533-548 | SYSCALL and every unused function code stop |
| `SimulatorMemory.CodeStops` | nachos-csci402/code/machine/mipssim.cc:545-548 | So does every unused primary code |
| `MipsMachine.Machine.DelayedLoad` | nachos-csci402/code/machine/mipssim.cc:574-581 | The register array is updated as specified |
| `MipsMachine.Machine.RaiseException` | nachos-csci402/code/machine/machine.cc:121-132 | The fault address is recorded and anything pending applied |
| `MipsMachine.Machine.ReadMem` | nachos-csci402/code/machine/translate.cc:87-127 | The bytes, or the exception raised |
| `MipsMachine.Machine.WriteMem` | nachos-csci402/code/machine/translate.cc:142-178 | The bytes stored, or the exception raised and nothing stored |
| `MipsMachine.Machine.Compute` | nachos-csci402/code/machine/mipssim.cc:344-468 | The cases that compute from registers to registers, in place, have the specified effect, or raise the overflow exception |
| `MipsMachine.Machine.Go` | nachos-csci402/code/machine/mipssim.cc:160-228 | Branches and jumps, in place, have the specified effect, link register included |
| `MipsMachine.Machine.LoadValue` | nachos-csci402/code/machine/mipssim.cc:230-342 | Loads give the specified pending value, or stop as specified with the registers an exception or assertion leaves |
| `MipsMachine.Machine.StoreValue` | nachos-csci402/code/machine/mipssim.cc:470-531 | So do stores |
| `MipsMachine.Machine.Switch` | nachos-csci402/code/machine/mipssim.cc:122-551 | The whole switch over the opcode has the specified effect, or stops as specified |
| `MipsMachine.Machine.OneInstruction` | nachos-csci402/code/machine/mipssim.cc:92-564 | One call does to registers and memory what one attempt of the step machine does; after any exception the registers are flushed with the address recorded, after a failed assertion unchanged, and memory is unchanged |
| `MipsAlu.OverflowExact` | nachos-csci402/code/machine/mipssim.cc:124-142 | ADD, SUB and ADDI trap if and only if the true result does not fit, and otherwise give it |
| `MipsAlu.LogicalShiftExact` | nachos-csci402/code/machine/mipssim.cc:444-454 | SRL and SRLV, which shift arithmetically, are the logical shifts if and only if nothing is shifted or the operand is not negative |
| `MipsAlu.LogicBit` | nachos-csci402/code/machine/mipssim.cc:152-158 | Every logical operation works on each of the 32 bits by itself |
| `MipsAlu.OrExact` | nachos-csci402/code/machine/mipssim.cc:374-376 | OR, which reads rs twice, gives rs; it is the bitwise or if and only if rt has no bit that rs lacks |
| `MipsAlu.Differences` | nachos-csci402/code/machine/mipssim.cc:374-454 | Operands at which the shift and the OR differ from the architecture |
| `MipsAlu.SignedDivision` | nachos-csci402/code/machine/mipssim.cc:194-202 | Quotient and remainder put the dividend together; the remainder is smaller than the divisor and has the dividend's sign |
| `MipsAlu.UnsignedDivision` | nachos-csci402/code/machine/mipssim.cc:204-216 | Quotient and remainder of the unsigned operands |
| `MipsAlu.ProductIsMult` | nachos-csci402/code/machine/mipssim.cc:360-368 | The words MULT and MULTU leave in HI and LO are those of the multiplication routine |
| `MipsAlu.WordStored` | nachos-csci402/code/machine/translate.cc:87-178 | A stored word is loaded back and no other byte changes |
| `MipsAlu.DecodeI` | nachos-csci402/code/machine/mipssim.cc:588-607 | An immediate-format word decodes to its registers and its sign-extended immediate |
| `MipsAlu.DecodeR` | nachos-csci402/code/machine/mipssim.cc:588-609 | A register-format word decodes to its registers, shift amount and function |
| `LockServers.AlwaysExclusive` | nachos-csci402/code/network/nettest.cc:209-347 | For every message sequence, on each lock grants minus releases is 1 while it is taken and 0 otherwise, available if and only if the owner is -1, an available lock has no waiters, counts are queue lengths, waiters are served in the order they joined |
| `LockServers.AnswersConserved` | nachos-csci402/code/network/nettest.cc:486-652 | For every message sequence every request has been answered exactly once or its answer sits in exactly one queue, once |
| `LockServers.AlwaysNamed` | nachos-csci402/code/network/nettest.cc:176-192 | No two locks and no two conditions ever have one name |
| `LockServerAnswers.CreateLockAnswers` | nachos-csci402/code/network/nettest.cc:432-485 | An existing name is answered with the index of its lock, a new one with that of a free lock added at the end; nothing else changes |
| `LockServerAnswers.CreateCVAnswers` | nachos-csci402/code/network/nettest.cc:548-566 | The same for conditions |
| `LockServerAnswers.AcquireAnswers` | nachos-csci402/code/network/nettest.cc:486-513 | An available lock is granted and answered at once, a taken one puts the answer at the end of the queue, a missing one is answered without effect; no other lock or condition changes |
| `LockServerAnswers.ReleaseAnswers` | nachos-csci402/code/network/nettest.cc:514-534 | The owner's release answers the first waiter and makes it the owner, or frees the lock; anybody else's changes nothing; the sender is answered |
| `LockServerAnswers.WaitAnswers` | nachos-csci402/code/network/nettest.cc:607-640 | An accepted wait answers the first waiter for the lock and makes it the owner, or frees the lock, and sends nothing else; the condition is bound to the lock, and the answer parked at the end of its queue; no other lock or condition changes |
| `LockServerAnswers.WaitRefused` | nachos-csci402/code/network/nettest.cc:607-651 | Any other wait is answered at once and changes no table |
| `LockServerAnswers.SignalAnswers` | nachos-csci402/code/network/nettest.cc:567-586 | The owner's signal moves the first parked answer of a condition bound to the lock to the end of the lock's queue; any other changes nothing; the sender is answered |
| `LockServerAnswers.BroadcastAnswers` | nachos-csci402/code/network/nettest.cc:587-606 | A broadcast moves them all, in order, likewise |
| `LockServerAnswers.CharExact` | nachos-csci402/code/network/nettest.cc:432-606 | An index below 128 survives as the byte of the answer |
| `LockServers.SignalInOrder` | nachos-csci402/code/network/nettest.cc:270-296 | Signal moves the first waiting answer to the end of the bound lock's queue and sends nothing |
| `LockServers.MoveAllInOrder` | nachos-csci402/code/network/nettest.cc:298-321 | Broadcast moves the whole queue, in order, to the end of the bound lock's queue; ownership and counts stay |
| `LockServers.HandleOk` | nachos-csci402/code/network/nettest.cc:486-652 | Each message keeps the tables in order |
| `LockServers.HandleOwed` | nachos-csci402/code/network/nettest.cc:486-652 | Each message adds its own answer once and nothing else |
| `LockServers.StaysBound` | nachos-csci402/code/network/nettest.cc:323-347 | Once a condition is bound to a lock, no later messages bind it to another |
| `LockServerTables.LockServer.FindLock` | nachos-csci402/code/network/nettest.cc:184-192 | The index of the first lock with the name, or -1 |
| `LockServerTables.LockServer.CreateLock` | nachos-csci402/code/network/nettest.cc:176-192 | An existing name gives its index; a new one a fresh free lock at the end |
| `LockServerTables.LockServer.CreateCV` | nachos-csci402/code/network/nettest.cc:256-268 | The same for conditions |
| `LockServerTables.LockServer.Acquire` | nachos-csci402/code/network/nettest.cc:486-513 | Granted, queued or refused, as specified |
| `LockServerTables.LockServer.Release` | nachos-csci402/code/network/nettest.cc:225-254 | To the first waiter, whose answer goes out, or available again |
| `LockServerTables.LockServer.Signal` | nachos-csci402/code/network/nettest.cc:270-296 | The specified move |
| `LockServerTables.LockServer.Broadcast` | nachos-csci402/code/network/nettest.cc:298-321 | The loop is the specified move of all |
| `LockServerTables.LockServer.Wait` | nachos-csci402/code/network/nettest.cc:323-347 | Bind, release and park the answer |
| `LockServerTables.LockServer.Answer` | nachos-csci402/code/network/nettest.cc:486-652 | One message is one specified step and keeps the tables in order |
| `SortedLists.InsertSorted` | nachos-csci402/code/threads/list.cc:178-202 | Insertion keeps the list sorted and puts the element after all with its key |
| `SortedLists.InsertMembers` | nachos-csci402/code/threads/list.cc:178-202 | It adds one element and loses none |
| `SortedLists.List.Append` | nachos-csci402/code/threads/list.cc:76-88 | One element at the end |
| `SortedLists.List.Prepend` | nachos-csci402/code/threads/list.cc:102-114 | One element at the front |
| `SortedLists.List.SortedInsert` | nachos-csci402/code/threads/list.cc:178-202 | Before the first element with a larger key |
| `SortedLists.List.SortedRemove` | nachos-csci402/code/threads/list.cc:217-237 | The first element, or none when empty |
| `SortedLists.List.IsEmpty` | nachos-csci402/code/threads/list.cc:154-161 | Whether there is no element |
| `Interrupts.AlwaysOrdered` | nachos-csci402/code/machine/interrupt.cc:152-359 | In every run no handler runs before its due time, due times of fired handlers never decrease, no interrupt fires twice, and total time is idle plus system plus user time |
| `Interrupts.NoneLost` | nachos-csci402/code/machine/interrupt.cc:152-359 | In every run each interrupt ever scheduled is pending or has fired |
| `Interrupts.TickOk` | nachos-csci402/code/machine/interrupt.cc:152-189 | After OneTick outside idle mode nothing is overdue |
| `Interrupts.IdleSettles` | nachos-csci402/code/machine/interrupt.cc:220-244 | After an idle period the mode is system mode, and nothing is overdue unless a single timer is left; IdleExact says when one is |
| `InterruptOrder.IdleExact` | nachos-csci402/code/machine/interrupt.cc:220-244 | After an idle period a timer is left overdue, alone in the queue, if and only if all that was pending was due by the first due time, the last of it was a timer, and no handler before it schedules anything; otherwise nothing is overdue |
| `Interrupts.DueShrinks` | nachos-csci402/code/machine/interrupt.cc:304-359 | Each interrupt the loop runs leaves fewer due, since handlers schedule strictly in the future: the loop ends |
| `Interrupts.ScheduleOk` | nachos-csci402/code/machine/interrupt.cc:274-287 | Scheduling keeps the queue sorted and its interrupts apart |
| `InterruptLaws.ScheduleAdds` | nachos-csci402/code/machine/interrupt.cc:274-287 | Scheduling adds one interrupt, due as far in the future as asked, with a new number, and changes nothing else |
| `InterruptLaws.FireRecords` | nachos-csci402/code/machine/interrupt.cc:350-356 | An interrupt that runs is recorded with its time and the present one, and everything its handler asks for is pending, due as asked |
| `InterruptLaws.TickCharges` | nachos-csci402/code/machine/interrupt.cc:152-189 | A tick adds 10 to total and system time in system mode, and 1 to total and user time otherwise; nothing else is charged |
| `InterruptLaws.IdleCharges` | nachos-csci402/code/machine/interrupt.cc:220-244 | An idle period charges idle time alone, up to the first due time; the machine halts if and only if nothing, or nothing but a timer, is pending |
| `InterruptOrder.PutBackExact` | nachos-csci402/code/machine/interrupt.cc:304-333 | An unsuccessful check leaves the queue as it was if and only if the first interrupt is alone or earlier than the second |
| `InterruptOrder.PutBacksTurn` | nachos-csci402/code/machine/interrupt.cc:304-333 | k unsuccessful checks turn the group of the first due time by k modulo its size and leave the rest |
| `InterruptOrder.DrainInOrder` | nachos-csci402/code/machine/interrupt.cc:178-179 | Outside idle mode the loop fires exactly the interrupts due, in the order of the queue |
| `InterruptOrder.FiringOrder` | nachos-csci402/code/machine/interrupt.cc:152-189 | After n ticks without anything due, the tick that makes the first group due fires it turned by n modulo its size, and behind it whatever else is due, in order |
| `InterruptOrder.OrderKept` | nachos-csci402/code/machine/interrupt.cc:304-333 | That is the order of the queue if and only if n is a multiple of the size of the group |
| `InterruptOrder.EqualTimesReversed` | nachos-csci402/code/machine/interrupt.cc:304-333 | Two interrupts scheduled for the same time four user ticks away fire in reverse |
| `InterruptOrder.LoneTimerStays` | nachos-csci402/code/machine/interrupt.cc:335-340 | An instance: an idle period with a device and a timer due at one time ends with the timer overdue in the queue |
| `InterruptMachine.Interrupt.Schedule` | nachos-csci402/code/machine/interrupt.cc:274-287 | The linked list gains the interrupt at its place |
| `InterruptMachine.Interrupt.CheckIfDue` | nachos-csci402/code/machine/interrupt.cc:304-359 | Runs the first interrupt if due, or puts it back, as specified |
| `InterruptMachine.Interrupt.Drain` | nachos-csci402/code/machine/interrupt.cc:178-179 | The loop runs all that is due and ends |
| `InterruptMachine.Interrupt.OneTick` | nachos-csci402/code/machine/interrupt.cc:152-189 | Time advances by the mode's tick, then the loop |
| `InterruptMachine.Interrupt.Idle` | nachos-csci402/code/machine/interrupt.cc:220-244 | Time jumps to the next interrupt, or the machine halts |
| `DiskTiming.OrdinaryIsEarliest` | nachos-csci402/code/machine/disk.cc:179-253 | The transfer starts at the earliest sector boundary after the seek at which the head is over the target |
| `DiskTiming.BufferedExactly` | nachos-csci402/code/machine/disk.cc:232-247 | A seek-free read uses the track buffer if and only if its sector has gone by completely since the buffer began to fill |
| `DiskTiming.BufferNeverSlower` | nachos-csci402/code/machine/disk.cc:232-253 | The buffer never costs more than the ordinary path |
| `DiskTiming.SeekExact` | nachos-csci402/code/machine/disk.cc:179-196 | A seek takes 500 ticks for each track between the two, whichever way, and none if and only if the tracks are the same |
| `DiskTiming.StaysOnTrack` | nachos-csci402/code/machine/disk.cc:261-271 | A request leaves the head on its track; the buffer starts anew if and only if the track changed |
| `DiskTiming.LatencyExact` | nachos-csci402/code/machine/disk.cc:232-253 | A read on the same track takes 500 ticks if its sector has gone by since the buffer began to fill, and every other request the ordinary time |
| `DiskTiming.LatencyBound` | nachos-csci402/code/machine/disk.cc:232-253 | No request takes longer than 31999 ticks |
| `DiskTiming.LatencyBoundReached` | nachos-csci402/code/machine/disk.cc:232-253 | Some request takes exactly that |
| `DiskTiming.NextRound` | nachos-csci402/code/machine/disk.cc:202-209 | The modular difference is the number of sectors until the target comes round, and no fewer |
| `DiskTiming.AlwaysAtBoundary` | nachos-csci402/code/machine/disk.cc:261-271 | After any requests the buffer began to fill at a sector boundary that is not in the future |
| `DiskTiming.Disk.TimeToSeek` | nachos-csci402/code/machine/disk.cc:179-196 | Seek time and the time to the next boundary |
| `DiskTiming.Disk.Request` | nachos-csci402/code/machine/disk.cc:115-153 | The latency, the active flag and the head's record as specified |
| `DiskTiming.Disk.HandleInterrupt` | nachos-csci402/code/machine/disk.cc:161-166 | The disk is idle again and the kernel's handler is called once |

## Left out

Demand paging:
- Coherence.AlwaysCoherent: after a stack has grown while its program had a page in the swap file, speaks no more of places in the swap file, because they fail, as `GrowExact` and `GrowthCanFail` state.
- ManyPrograms.StepShows: a stack grows only while its program has no page in the swap file, for the same reason.
- The locks around the handlers, and interrupts inside them: each handler is one step.
- `lastUsed` stamps; the bus-error check, which no table entry can trigger; read-only pages, since no entry is ever read-only.
- Page numbers beyond the page table, on which the handler is undefined.
- `AddrSpace::clearStack`, which frees frames named by entries that may be invalid.
- The TLB is taken to start zeroed; its memory is not initialised in the source.
- The swap file is an array of pages, and the random choice of a victim is a parameter.

File system:
- FileSystems.FileSystem.Create: asks for a size between 0 and the largest file size, because `FileHeader::Allocate` does not check the length of its table.
- FileHeaders.FileHeader.Allocate: asks for the same sizes, beyond which the source writes past its table.
- Files.OpenFile.ReadAt: asks for a position that is not negative; the source would copy from before its buffer.
- Files.OpenFile.WriteAt: asks for a position that is not negative, for the same reason.
- Files.OpenFile.Seek: asks for a position that is not negative, so that `Read` and `Write` need not.
- FileSystems.FileSystem.WriteThrough: speaks of handles whose file has not been removed.
- `FileSystem::List`, `Print`, the stub variants over UNIX, and failures of the simulated disk.
- Padding bytes of a directory entry are written as zeros; they are never read.
- Concurrent use of the file system, which the source excludes.

Threads:
- ThreadSafety.AlwaysSafe: speaks of safety only; that a ready thread runs again and that Broadcast ends are not stated.
- Blocking calls are steps on values, not methods: a method cannot be suspended half-way. Updating wait queues in place is therefore not captured for `synch.cc`, `thread.cc`, `scheduler.cc`, `synchlist.cc` and `synchdisk.cc`.
- Stacks, `SWITCH`, deleting finished threads, and saving user registers across switches.
- `FileSystem` uses a disk whose transfers are atomic, which `SynchDisks.CallsAreSequential` and `SynchDisks.AnsweredInside` justify for threads.
- `SynchList::Mapcar`.

Processor:
- Mips.ExecuteKeeps: the word arithmetic is a parameter of the step machine, so this and the theorems about restarting hold for any arithmetic; `MipsAlu` instantiates them with the simulator's own.
- System calls, overflow and illegal instructions end the modelled run; their handlers are not modelled.
- MipsAlu.SignedDivision: excepts the most negative number divided by -1, which the source leaves undefined.
- Addresses outside the address space, the debugger and register dumps are not modelled.

Lock server:
- More than one server: forwarding of requests, pending-request tables and servers that ask each other.
- Destroying locks, conditions and monitor variables, and monitor variables as such.
- The network: a message sent is a message logged. Names are strings without terminators inside.

Time:
- Interrupts.AlwaysOrdered: handlers are an arbitrary function from an interrupt to what it schedules; what else they do is not modelled.
- `yieldOnReturn` and the interrupt level; the thread machine has its own steps for them.
- The UNIX file behind the disk.

Elsewhere: the passport-office programs, object-file tools, console, sockets, command line and debug printing.
