# xv6 course trees: models and proofs

This project models the kernel, user programs and tools of four xv6 trees, an image checker and
a threaded server, and proves what they promise.  `dafny verify dfyconfig.toml` checks all of it.
Identical files of the trees are modelled once, from Project4-2.

| file | what it models |
|---|---|
| Volume.dfy | blocks, the bitmap's bits, little-endian words |
| FileSystem.dfy | fs.c: block allocation, the block map, reading and writing, truncation, inodes |
| Directory.dfy | fs.c: directories as finite maps |
| Links.dfy, Sysfile.dfy | sysfile.c: link, unlink and create, and their link counts |
| DeadDirectory.dfy | two runs that work in a directory that was removed |
| Heap.dfy | umalloc.c: the Kernighan and Ritchie allocator |
| Scheduler.dfy | the multi-level feedback queue of Project2-2 |
| Vm.dfy | vm.c and kalloc.c: pages, page tables, fork's copy |
| StackHeap.dfy | the tree with a relocated stack: growth of heap and stack, fork, argument bounds |
| BufferCache.dfy | bio.c: the buffer cache and its list |
| ShellParser.dfy, ShellGrammar.dfy | sh.c: the command parser, and the language it accepts |
| Grep.dfy | grep.c: the pattern matcher |
| Pipe.dfy | pipe.c over sleep and wakeup |
| Server.dfy | the bounded buffer of the threaded server |
| Checker.dfy | the check mode of xv6_fsck.c |

Objects that the source changes in place are classes whose methods keep its loops and
assignments; ghost fields record what the source leaves implicit (who owns a block, what a page
is used for, what was written to a pipe), and each class has an invariant that every method
keeps.  The main results are these.

* File system: a file is a byte sequence and a directory a finite map; blocks are never shared,
  free blocks are always zero, and that is why a fresh indirect block is empty and why the scan
  past a directory's end is harmless; truncation frees exactly the file's blocks.  In any
  sequence of link, unlink, create, close and write that drives no link count above 32767, where
  the C short would overflow, no name but ".." ever comes to be of a free inode; and every link
  count equals the number of entries and the directories in use are a tree under the root
  exactly as long as no name is put into a directory that is unlinked but still somebody's
  current directory.  When a call panics is stated exactly, and no call changes the contents of
  a file it is not about.
* Allocator: the free list is always the one fully coalesced address-ordered ring over the free
  bytes, and free and live blocks always partition the heap; no call writes into a block that is in use.
* Scheduler: a constant bound on the dispatches that a RUNNABLE process can be passed over.
* Virtual memory: no page is ever used twice; fork needs exactly 13 pages plus the parent's and
  copies equal contents; what fails after setupkvm leaves every page as it was; any run of any
  family of processes keeps their images apart.
* Cache: for any interleaving of clients it cannot be told from a disk with a lock on each sector.
* Shell: the parser accepts exactly the sentences of a declared grammar and gives each its meaning.
* Matcher, pipe, server, checker: equality with a declared language, a stream, a queue without
  deadlock, and a tree.

Some promises do not hold of the code as it is.  The exact conditions are proved instead:

* Link counts equal the names there are (fs.c and sysfile.c): path resolution starts at the
  current directory and does not ask whether it is unlinked, so a file or directory can be made
  in one that is gone (`DeadDirectory.LostFile`); the counts and the tree stay right exactly as
  long as that does not happen (`Sysfile.Run`, `Sysfile.LinkedMeans`, `Sysfile.CreatedMeans`).
* If the parent of such a directory is gone too, creating ".." panics (`DeadDirectory.Trapped`);
  only such directories can cause it (`Sysfile.OnlyDeadDangles`, `Sysfile.Create`).
* malloc's arithmetic is right exactly up to 2^31 - 16 bytes (`Heap.HonestRequest`); what
  happens beyond is `Heap.WrappedRequest`.
* setupkvm that runs out of pages loses all free pages (`Vm.Machine.Setupkvm`).
* growproc keeps the image exactly unless it shrinks the heap into the first two pages; for
  n = -sz it frees the pages but reports failure and keeps the size (`StackHeap.Process.Growproc`).
* argptr accepts blocks that reach over the whole gap between heap and stack
  (`StackHeap.GapCanBeCrossed`); what it accepts, and when that is mapped, is stated exactly
  (`StackHeap.ArgptrMeaning`, `StackHeap.ArgptrIsMapped`).
* A writer that is killed while readers sleep may leave without waking them
  (`Pipe.ForgottenReader`): exactly when more than 512 bytes are left and the read end is open
  (`Pipe.Pipe.Pipewrite`, `Pipe.Pipe.Happen`); without kills nobody is forgotten (`Pipe.Pipe.Run`).
* The checker turns down trees whose walks meet earlier marks (`Checker.DeepTreeRejected`);
  which images pass is stated exactly (`Checker.FineImages`, `Checker.WalksMeaning`).

## Model

| member | source | states |
|---|---|---|
| `Volume.BitPutIn` | Kernel threads lib of xv6/Project4-2/kernel/fs.c:71-79 | setting or clearing bit `i` of a bitmap block with the mask `1 << (i % 8)` changes that bit and no other |
| `Volume.MarkPutMarked` | Kernel threads lib of xv6/Project4-2/kernel/fs.c:87-106 | marking or unmarking block `b` changes the mark of `b` and of no other block, across bitmap blocks |
| `Volume.WordPutGet` | Kernel threads lib of xv6/Project4-2/kernel/fs.c:345-350 | a word written into an indirect block is read back little-endian, and the other words are untouched |
| `Volume.ZeroWords` | Kernel threads lib of xv6/Project4-2/kernel/fs.c:345-347 | an all-zero block read as an indirect block has only null slots |
| `FileSystem.OwnerGrows` | Kernel threads lib of xv6/Project4-2/kernel/fs.c:328-353 | giving a free block to an empty slot keeps the ownership invariant: distinct blocks, exact bitmap, zero free blocks, zero block 0 |
| `FileSystem.AddressTaken` | Kernel threads lib of xv6/Project4-2/kernel/fs.c:334-344 | the direct-address case: after the bit is set and the address stored, exactly that slot owns exactly one more block |
| `FileSystem.WordTaken` | Kernel threads lib of xv6/Project4-2/kernel/fs.c:345-350 | the indirect case: storing the new address in the indirect block's word adds one owned block and touches no other slot |
| `FileSystem.IndirectGrew` | Kernel threads lib of xv6/Project4-2/kernel/fs.c:341-347 | a fresh indirect block contributes no blocks to the file, because every free block is zero |
| `FileSystem.FileGrew` | Kernel threads lib of xv6/Project4-2/kernel/fs.c:328-353 | allocating the next block extends the file's image by 512 zero bytes and changes no other byte |
| `FileSystem.OtherFilesKept` | Kernel threads lib of xv6/Project4-2/kernel/fs.c:434-471 | what the blocks and inode of one file undergo leaves type, size, links and contents of every other file alone |
| `FileSystem.ImageWritten` | Kernel threads lib of xv6/Project4-2/kernel/fs.c:459-462 | overwriting part of one data block overwrites exactly that part of the file's image |
| `FileSystem.WriteDone` | Kernel threads lib of xv6/Project4-2/kernel/fs.c:452-470 | when the blocks are written and the size updated, the contents are c[..off] + src[..k] + c[off+k..] |
| `FileSystem.SlotHolder` | Kernel threads lib of xv6/Project4-2/kernel/fs.c:368-384 | the block in any slot is a marked data block that no other slot holds, so that freeing it cannot hit "freeing free block" |
| `FileSystem.HeldAltogether` | Kernel threads lib of xv6/Project4-2/kernel/fs.c:362-389 | the direct slots, the indirect block's words and the indirect block are all the blocks an inode holds |
| `FileSystem.OwnerShrinks` | Kernel threads lib of xv6/Project4-2/kernel/fs.c:361-389 | freeing exactly the inode's blocks and clearing its addresses keeps the ownership invariant with those blocks free |
| `FileSystem.Fs.constructor` | Kernel threads lib of xv6/Project4-2/tools/mkfs.c:86-87 | a volume of zero blocks whose metadata blocks are marked satisfies every invariant |
| `FileSystem.Fs.FirstClear` | Kernel threads lib of xv6/Project4-2/kernel/fs.c:71-79 | the inner loop of balloc finds the first clear bit below the bound |
| `FileSystem.Fs.Balloc` | Kernel threads lib of xv6/Project4-2/kernel/fs.c:52-85 | takes the first unmarked block and marks only it; 0 exactly when every block is marked, also when the size is not a multiple of BPB |
| `FileSystem.GrewByOne` | Kernel threads lib of xv6/Project4-2/kernel/fs.c:326-356 | giving a block to a slot takes one free block, and only the indirect slot changes the indirect address |
| `FileSystem.CannotAfford` | Kernel threads lib of xv6/Project4-2/kernel/fs.c:452-463 | a file that cannot have its next block cannot grow to any larger size from where it started, the indirect block included in the cost |
| `FileSystem.Fs.Bmap` | Kernel threads lib of xv6/Project4-2/kernel/fs.c:326-356 | inside the file the address is there and nothing changes; at the end a zeroed block is appended exactly if enough blocks are free, two when the indirect block is needed and missing; else 0 is returned with the image unchanged; other inodes are untouched |
| `FileSystem.Fs.Readi` | Kernel threads lib of xv6/Project4-2/kernel/fs.c:402-432 | returns c[off..min(off+n, size)] or -1, changes nothing, and never reaches its panic |
| `FileSystem.Fs.Writei` | Kernel threads lib of xv6/Project4-2/kernel/fs.c:434-471 | returns k with contents overwritten by src[..k] at off; k is short exactly if fewer blocks are free than the write takes, and then ends at a block boundary at or past the old end; else exactly that many free blocks are gone; no other file changes |
| `FileSystem.Fs.Bfree` | Kernel threads lib of xv6/Project4-2/kernel/fs.c:87-106 | zeroes the block and clears its bit and no other; the panic is unreachable for a marked block |
| `FileSystem.Fs.Itrunc` | Kernel threads lib of xv6/Project4-2/kernel/fs.c:358-389 | exactly the inode's blocks, the indirect one included, become free and zero; the contents are empty and no other file changes |
| `FileSystem.Fs.Ialloc` | Kernel threads lib of xv6/Project4-2/kernel/fs.c:154-177 | takes the first inode of type 0 from number 1 on, cleared; -1 stands for the panic, exactly when there is none |
| `FileSystem.Fs.Iput` | Kernel threads lib of xv6/Project4-2/kernel/fs.c:289-309 | frees the inode and its blocks exactly when the last reference to an inode without links is dropped |
| `Directory.Namecmp` | Kernel threads lib of xv6/Project4-2/kernel/fs.c:475-479 | equal exactly when the first 14 bytes up to a NUL are equal |
| `Directory.PaddedKey` | Kernel threads lib of xv6/Project4-2/kernel/fs.c:537-538 | a name that strncpy padded or cut to 14 bytes compares equal to the name itself |
| `Directory.DirUpToMember` | Kernel threads lib of xv6/Project4-2/kernel/fs.c:494-512 | a name is bound in the directory's map exactly when a live entry has it, and to that entry's inode |
| `Directory.EntryAdded` | Kernel threads lib of xv6/Project4-2/kernel/fs.c:529-541 | a live entry for a new name in a free slot adds that one binding and keeps at most one live entry per name |
| `Directory.EntryRemoved` | Kernel threads lib of xv6/Project4-2/kernel/sysfile.c:198-200 | zeroing a live entry removes its binding and no other |
| `Directory.LinkedEntry` | Kernel threads lib of xv6/Project4-2/kernel/fs.c:529-541 | the entry dirlink writes in the first free slot yields the map with that one binding added |
| `Directory.Dirlookup` | Kernel threads lib of xv6/Project4-2/kernel/fs.c:481-513 | finds a name exactly when the map has it, with its inode and offset; scanning past the size within the last block finds nothing, since the tail of that block is zero |
| `Directory.EntryWriteCost` | Kernel threads lib of xv6/Project4-2/kernel/fs.c:523-540 | a new entry takes a block exactly when it comes after the last entry of a full block |
| `Directory.Dirlink` | Kernel threads lib of xv6/Project4-2/kernel/fs.c:515-543 | fails exactly when the name is present, else adds that one binding; panics exactly if the name is absent, no entry is free, the entries fill their blocks, and the file is at its limit or fewer blocks are free than the one or two needed, with the contents as before |
| `Links.LinkKeeps` | Kernel threads lib of xv6/Project4-2/kernel/sysfile.c:125-138 | one more entry and one more link keep every count equal to the entries that name the inode |
| `Links.CreateFileKeeps` | Kernel threads lib of xv6/Project4-2/kernel/sysfile.c:233-251 | a free inode taken for a file with one link and one name keeps all counts |
| `Links.CreateDirKeeps` | Kernel threads lib of xv6/Project4-2/kernel/sysfile.c:233-251 | a new directory with its dots, its name and the parent's extra link keeps all counts |
| `Links.UnlinkKeeps` | Kernel threads lib of xv6/Project4-2/kernel/sysfile.c:198-209 | removing a name, a link of its target and, for an empty directory, a link of its parent keeps all counts, and the target had a link to lose |
| `Links.FreeKeeps` | Kernel threads lib of xv6/Project4-2/kernel/fs.c:294-306 | freeing an inode without links keeps all counts: nothing names it |
| `Links.LinkKeepsTree` | Kernel threads lib of xv6/Project4-2/kernel/sysfile.c:125-138 | a name for a file moves no directory: from every directory in use ".." still leads to the root |
| `Links.CreateDirKeepsTree` | Kernel threads lib of xv6/Project4-2/kernel/sysfile.c:233-251 | a new directory is a leaf of the tree |
| `Links.UnlinkKeepsTree` | Kernel threads lib of xv6/Project4-2/kernel/sysfile.c:198-209 | only a leaf is taken away, never the root, and every other directory in use still climbs to the root |
| `Links.OneName` | Kernel threads lib of xv6/Project4-2/kernel/sysfile.c:109-255 | in a consistent rooted volume every directory in use but the root has exactly one name, in the directory its ".." names, and is not its own parent |
| `Links.FreshIsConsistent` | Kernel threads lib of xv6/Project4-2/tools/mkfs.c:97-116 | a lone root directory that holds itself is consistent and rooted |
| `Links.NamedIsSound` | Kernel threads lib of xv6/Project4-2/kernel/sysfile.c:125-138 | a new name with its links, for a file or a fresh inode and in any directory, unlinked or not, keeps every inode at no fewer links than names and every name but the dots on an inode in use |
| `Links.UnnamedIsSound` | Kernel threads lib of xv6/Project4-2/kernel/sysfile.c:198-209 | removing a name with its links keeps that too, and there was a link to lose |
| `Links.FreedIsSound` | Kernel threads lib of xv6/Project4-2/kernel/fs.c:294-306 | freeing an inode without links keeps that too, whatever a directory still held: nothing names it |
| `Links.ConsistentIsSound` | Kernel threads lib of xv6/Project4-2/kernel/sysfile.c:109-255 | where the counts are exact there are no fewer links than names |
| `Links.DeadGainsName` | Kernel threads lib of xv6/Project4-2/kernel/sysfile.c:125-138 | whatever is named in an unlinked directory, the counts are wrong from then on |
| `Sysfile.LinkedMeans` | Kernel threads lib of xv6/Project4-2/kernel/sysfile.c:125-138 | adding the entry and the link keeps soundness always, and exact counts and the tree if and only if the directory is not unlinked |
| `Sysfile.Link` | Kernel threads lib of xv6/Project4-2/kernel/sysfile.c:109-146 | refused exactly for a directory, a missing parent or a taken name, and then the rollback leaves the whole volume's nodes as before; panics exactly if it is not refused and the parent has no room; else exactly one entry and one link are added, soundness is kept, and order exactly if the parent is not unlinked; whatever it returns, every other inode keeps its contents and all but its link count |
| `Sysfile.IsDirEmpty` | Kernel threads lib of xv6/Project4-2/kernel/sysfile.c:148-162 | true exactly when the directory has no entry besides its dots |
| `Sysfile.UnlinkedMeans` | Kernel threads lib of xv6/Project4-2/kernel/sysfile.c:198-209 | removing the name and its links keeps soundness, and the exact counts and the tree |
| `Sysfile.DeadParentRefuses` | Kernel threads lib of xv6/Project4-2/kernel/sysfile.c:174-186 | while the counts are exact every unlink in an unlinked directory is refused |
| `Sysfile.TakeAway` | Kernel threads lib of xv6/Project4-2/kernel/sysfile.c:198-209 | the entry, the links it stood for and the inode with its last reference go, and nothing else changes; a referenced inode keeps all its blocks |
| `Sysfile.Unlink` | Kernel threads lib of xv6/Project4-2/kernel/sysfile.c:164-211 | refused exactly for a dot name, an absent name or a non-empty directory; else the nodes change exactly as link counting demands; the panics are unreachable in every run; soundness and order are kept, in any directory; every other inode keeps its contents, and the named one too unless it is freed |
| `Sysfile.DotEntries` | Kernel threads lib of xv6/Project4-2/kernel/sysfile.c:246-247 | an empty directory gets exactly "." and ".." if and only if a block is free, and they take one |
| `Sysfile.MakeDots` | Kernel threads lib of xv6/Project4-2/kernel/sysfile.c:242-248 | a new directory gets exactly "." and ".." and its parent one link, if and only if a block is free |
| `Sysfile.CreatedMeans` | Kernel threads lib of xv6/Project4-2/kernel/sysfile.c:233-251 | a new file or directory keeps soundness always, and exact counts and the tree if and only if the directory it is made in is not unlinked |
| `Sysfile.OnlyDeadDangles` | Kernel threads lib of xv6/Project4-2/kernel/fs.c:246-273 | only ".." can name a free inode, and while the counts are exact only in an unlinked directory |
| `Sysfile.Create` | Kernel threads lib of xv6/Project4-2/kernel/sysfile.c:213-255 | an existing file is opened, any other taken name refused with nothing changed; a new name gets a fresh inode; panics exactly if the name is ".." of a free inode, or new and there is no inode, no block for the dots or no room for the name; soundness is kept, and order exactly if the parent is not unlinked; the first free inode gets the type and device numbers asked for, and every inode but it and the parent keeps all it had |
| `Sysfile.Release` | Kernel threads lib of xv6/Project4-2/kernel/fs.c:289-309 | dropping the last reference frees exactly an inode without links and keeps soundness and order; no other file changes |
| `Sysfile.Write` | Kernel threads lib of xv6/Project4-2/kernel/file.c:108-125 | writing to an open file changes no node and no other file; the count is short exactly if too few blocks are free, the contents are overwritten by what was written, a device answers itself and a misplaced write is -1 |
| `Sysfile.Perform` | Kernel threads lib of xv6/Project4-2/kernel/sysfile.c:109-255 | one call with any arguments panics exactly under the stated condition on the state before it; else it changes the nodes exactly as its kind says, keeps soundness, and keeps an orderly volume orderly exactly if it puts no name into an unlinked directory; of the files only a written one, the parent of a name and an inode that is made or freed change in contents |
| `Sysfile.Run` | Kernel threads lib of xv6/Project4-2/kernel/sysfile.c:109-255 | any sequence of link, unlink, create, close and write, in any directories: every call does to the nodes what is specified, and no name but the dots ever comes to be of a free inode; from an orderly volume link counts are the numbers of names and directories a tree at every point if and only if no call puts a name into an unlinked directory; what every call does to all files is stated too |
| `Sysfile.Format` | Kernel threads lib of xv6/Project4-2/tools/mkfs.c:97-116 | a volume with a data block gets a root directory with its dots, which take one block, and is then sane; so every run starts somewhere |
| `DeadDirectory.LostFile` | Kernel threads lib of xv6/Project4-2/kernel/fs.c:588-612 | a run from a new volume: a directory is made, entered and removed, and a file created in it; the counts are wrong, and when the directory is left the file keeps a link that nothing stands for |
| `DeadDirectory.Trapped` | Kernel threads lib of xv6/Project4-2/kernel/sysfile.c:226-232 | a run from a new volume: two nested directories are removed from inside the inner one, and creating ".." there panics |
| `Heap.HonestRequest` | Kernel threads lib of xv6/Project4-2/user/umalloc.c:69-69 | the unit arithmetic and sbrk's signed argument are right exactly for nbytes up to 2^31 - 16 |
| `Heap.WrappedRequest` | Kernel threads lib of xv6/Project4-2/user/umalloc.c:46-69 | beyond that limit sbrk is asked for nothing or to shrink the process, and in the last seven cases the sum wraps to a single unit without payload |
| `Heap.FreeListIsCanonical` | Kernel threads lib of xv6/Project4-2/user/umalloc.c:24-44 | the invariant determines the list: equal free bytes give equal nodes, sizes and links, so the list is always fully coalesced |
| `Heap.RingReachesEveryNode` | Kernel threads lib of xv6/Project4-2/user/umalloc.c:74-89 | following the links from any node passes every node of the list: there is one cycle |
| `Heap.InsertedIsFreeList` | Kernel threads lib of xv6/Project4-2/user/umalloc.c:33-43 | the two conditionals of free give again an address-ordered ring with a single wrap and no two touching blocks |
| `Heap.FreedPartition` | Kernel threads lib of xv6/Project4-2/user/umalloc.c:33-43 | a freed block's bytes move from the live to the free ones and nothing else moves |
| `Heap.GrownListFits` | Kernel threads lib of xv6/Project4-2/user/umalloc.c:86-89 | after morecore the list has a fit, and every fit contains the bytes just granted; so one morecore suffices |
| `Heap.Allocator.FindGap` | Kernel threads lib of xv6/Project4-2/user/umalloc.c:30-32 | the search loop ends at the node below the block in ring order |
| `Heap.Allocator.Free` | Kernel threads lib of xv6/Project4-2/user/umalloc.c:24-44 | exactly the block becomes free, the invariant is kept, freep is the node below it, and no byte of a block still handed out is written |
| `Heap.Allocator.Morecore` | Kernel threads lib of xv6/Project4-2/user/umalloc.c:46-61 | the heap grows by exactly the units asked for, at least 4096 of 8 bytes each, all of them free; a refusal changes nothing; sbrk grants units only when its signed argument is their size |
| `Heap.FreeTouchesNothing` | Kernel threads lib of xv6/Project4-2/user/umalloc.c:33-43 | the two stores of free fall into no block that stays handed out |
| `Heap.Allocator.Carve` | Kernel threads lib of xv6/Project4-2/user/umalloc.c:75-85 | the upper `n` units of the node are handed out, the rest stays free, and base is never handed out |
| `Heap.Allocator.Malloc` | Kernel threads lib of xv6/Project4-2/user/umalloc.c:63-90 | hands out one block of exactly the units for nbytes, the top of the next fit after freep or of the run sbrk's bytes joined; NULL exactly when nothing fits and sbrk refuses; up to 2^31 - 16 bytes the payload holds nbytes, above 2^32 - 8 it is empty; free and live bytes stay a partition of the heap, and no byte of a block already handed out is written |
| `Scheduler.NoStarvation` | Robust bash shell/Project2-2/xv6/kernel/proc.c:289-368 | a process RUNNABLE throughout more than 980 + 64*1000 + 63*16 dispatches is dispatched among them |
| `Scheduler.WaitedIsPatient` | Robust bash shell/Project2-2/xv6/kernel/proc.c:318-324 | counting one more dispatch of waiting keeps the bound of waiting per level, and a boost to the top comes within 980 |
| `Scheduler.BoostedInTime` | Robust bash shell/Project2-2/xv6/kernel/proc.c:318-324 | in every reachable state a process passed over 980 times stands at priority 3 |
| `Scheduler.AgeIsBounded` | Robust bash shell/Project2-2/xv6/kernel/proc.c:303-365 | at every dispatch of a pass no process has been passed over more often than the bound |
| `Scheduler.TurnStep` | Robust bash shell/Project2-2/xv6/kernel/proc.c:311-338 | with the loop counter carried across a demotion, each dispatch of a turn has the level and tick counts given in closed form |
| `Scheduler.TurnLength` | Robust bash shell/Project2-2/xv6/kernel/proc.c:306-358 | a turn that starts at level 3, 2, 1, 0 makes at most 16, 32, 1000, 1 dispatches and leaves the process at its level or the one below; one that stays RUNNABLE above level 0 is a level lower, and only a used-up allotment demotes |
| `Scheduler.Cpu.AllocProc` | Robust bash shell/Project2-2/xv6/kernel/proc.c:43-74 | the first UNUSED slot, and no other, becomes EMBRYO at level 3 with the next pid and all counters 0 |
| `Scheduler.Cpu.CountWaiting` | Robust bash shell/Project2-2/xv6/kernel/proc.c:318-324 | every slot has waited one more at its level; it goes up one level, and no further, exactly if it is below level 3 and the count has come to 500, 320 or 160, and then starts at 0 there |
| `Scheduler.Cpu.ServeAndDemote` | Robust bash shell/Project2-2/xv6/kernel/proc.c:316-338 | a dispatched process has one tick more at its level and has waited 0 there; with 32, 16 or 8 ticks at level 1, 2 or 3 it goes one level down, where it starts at 0 |
| `Scheduler.Cpu.Turn` | Robust bash shell/Project2-2/xv6/kernel/proc.c:306-358 | never boosts its process, drops it at most one level, ends only when the process leaves or the limit is reached, and leaves other RUNNABLE processes waiting |
| `Scheduler.Cpu.Pass` | Robust bash shell/Project2-2/xv6/kernel/proc.c:293-366 | serves the highest level in slot order; whoever was RUNNABLE there is dispatched or boosted |
| `Scheduler.Cpu.Run` | Robust bash shell/Project2-2/xv6/kernel/proc.c:289-368 | after any number of rounds with any interrupts and any behaviour of the processes the accounting bounds and the waiting bound hold at every dispatch; in every round whoever is RUNNABLE at the highest level is dispatched or boosted above it, and the log is that of the rounds |
| `Vm.NoSharing` | Kernel threads lib of xv6/Project4-2/kernel/vm.c:226-326 | no page of user memory is mapped twice, in one space or two, or is free, a directory or a table |
| `Vm.StoredPte` | Kernel threads lib of xv6/Project4-2/kernel/vm.c:86-91 | a store through the table of one virtual page changes that entry and no other entry of any space |
| `Vm.UserMapped` | Kernel threads lib of xv6/Project4-2/kernel/vm.c:91-91 | mapping a held page at an unused address keeps the page invariant with the page in its new role |
| `Vm.UserFreed` | Kernel threads lib of xv6/Project4-2/kernel/vm.c:269-275 | kfree followed by clearing the entry keeps the page invariant with the page free |
| `Vm.TableAdded` | Kernel threads lib of xv6/Project4-2/kernel/vm.c:58-70 | a zeroed free page hung into the directory as a table changes no translation |
| `Vm.MissingDrops` | Kernel threads lib of xv6/Project4-2/kernel/vm.c:62-69 | a table that is added leaves exactly one fewer missing in a range of slots |
| `Vm.KernelStep` | Kernel threads lib of xv6/Project4-2/kernel/vm.c:126-146 | after each line of kmap the entries and tables are those of the lines so far and nothing else |
| `Vm.AllocUndone` | Kernel threads lib of xv6/Project4-2/kernel/vm.c:239-249 | taking pages and freeing them again leaves the role of every page as it was |
| `Vm.SpaceGone` | Kernel threads lib of xv6/Project4-2/kernel/vm.c:289-294 | freeing a space's tables and directory leaves exactly the other spaces, untouched |
| `Vm.SpaceUndone` | Kernel threads lib of xv6/Project4-2/kernel/vm.c:323-325 | a space made of free pages, once freed, restores the set of free pages |
| `Vm.Machine.constructor` | Kernel threads lib of xv6/Project4-2/kernel/kalloc.c:22-32 | every page from the end of the kernel to PHYSTOP is on the free list, once |
| `Vm.Machine.Kalloc` | Kernel threads lib of xv6/Project4-2/kernel/kalloc.c:56-70 | takes the first free page; 0 exactly when there is none |
| `Vm.Machine.Kfree` | Kernel threads lib of xv6/Project4-2/kernel/kalloc.c:34-54 | fills the page with junk and puts it first; its panic is unreachable for a managed page |
| `Vm.Machine.Walkpgdir` | Kernel threads lib of xv6/Project4-2/kernel/vm.c:49-72 | the table is found, or made from the first free page with every translation unchanged, or 0 with nothing changed |
| `Vm.Machine.Mappages` | Kernel threads lib of xv6/Project4-2/kernel/vm.c:74-98 | succeeds exactly if there are pages for the missing tables; then the range maps to consecutive pages and no other translation changes; with the tables present no page is used; "remap" is unreachable on unmapped pages |
| `Vm.Machine.Setupkvm` | Kernel threads lib of xv6/Project4-2/kernel/vm.c:122-149 | succeeds exactly with 13 free pages and uses them; then the I/O space, the kernel's data, memory above it and the devices are mapped at themselves for writing, the kernel's text for reading only, and nothing else is mapped; with fewer, all free pages are lost |
| `Vm.KernelProtection` | Kernel threads lib of xv6/Project4-2/kernel/vm.c:113-131 | no entry of a new address space has the user bit, and one has the write bit exactly if it is present and not for the kernel's text |
| `Vm.Machine.NewUserPage` | Kernel threads lib of xv6/Project4-2/kernel/vm.c:241-248 | one page is taken, filled and mapped; mapping a user page never needs a new table once slot 0 has one |
| `Vm.Machine.Allocuvm` | Kernel threads lib of xv6/Project4-2/kernel/vm.c:226-251 | succeeds exactly if there are enough free pages, and then the new pages are zero; otherwise every page has the role it had before |
| `Vm.Machine.Deallocuvm` | Kernel threads lib of xv6/Project4-2/kernel/vm.c:253-278 | exactly the user pages of the range become free and unmapped; everything else is kept |
| `Vm.Machine.Freevm` | Kernel threads lib of xv6/Project4-2/kernel/vm.c:280-295 | exactly the pages of the space become free: user pages, tables and directory; other spaces are untouched |
| `Vm.Machine.CopyPage` | Kernel threads lib of xv6/Project4-2/kernel/vm.c:310-320 | one page of the child with the parent's contents, exactly if a page is free; the panics are unreachable |
| `Vm.Machine.CopyRange` | Kernel threads lib of xv6/Project4-2/kernel/vm.c:309-320 | succeeds exactly if there is a page for each copied one; the copies are equal page by page and both panics are unreachable |
| `Vm.Machine.Copyuvm` | Kernel threads lib of xv6/Project4-2/kernel/vm.c:297-326 | succeeds exactly with 13 + pages(sz) free pages; equal contents in pages of its own; failing after setupkvm restores the role of every page |
| `Vm.Machine.CopyAndFree` | Kernel threads lib of xv6/Project4-2/kernel/vm.c:280-326 | copying a space and freeing the copy leaves the role and contents of every page in use and the number of free pages as before |
| `StackHeap.BoundsMeaning` | Shared memory/Stack relocation of xv6/xv6/kernel/syscall.c:17-24 | checkbounds accepts an access of up to four pages, so every one its callers ask about, exactly when it lies in one region; a larger one also when it reaches over the whole gap |
| `StackHeap.ArgptrMeaning` | Shared memory/Stack relocation of xv6/xv6/kernel/syscall.c:70-89 | exactly the blocks argptr accepts, its unsigned sums wrapping: blocks of one region, longer ones also over the whole gap, empty ones, and negative sizes with an end at or below the heap's end or in the stack |
| `StackHeap.ArgptrIsMapped` | Shared memory/Stack relocation of xv6/xv6/kernel/syscall.c:70-89 | an accepted block reaches unmapped memory exactly if it starts below the heap's end and ends above it |
| `StackHeap.GapCanBeCrossed` | Shared memory/Stack relocation of xv6/xv6/kernel/syscall.c:70-89 | a length passed to read or write for which argptr accepts a block over the whole gap |
| `StackHeap.FetchIsMapped` | Shared memory/Stack relocation of xv6/xv6/kernel/syscall.c:25-32 | fetchint accepts exactly the words inside [2 pages, sz) or [stack_head, USERTOP), and every byte of them is mapped |
| `StackHeap.ImageGrew` | Shared memory/Stack relocation of xv6/xv6/kernel/proc.c:113-140 | mapping the pages between the old and new end of either region gives the image of the new size |
| `StackHeap.ImageShrank` | Shared memory/Stack relocation of xv6/xv6/kernel/proc.c:116-119 | unmapping past the new end gives an image exactly if the heap still covers the first two pages |
| `StackHeap.Copyuvm` | Shared memory/Stack relocation of xv6/xv6/kernel/vm.c:297-341 | both regions are copied page by page into an image of the same shape; exact number of pages needed; failure restores the roles; the parent is untouched |
| `StackHeap.Process.Growproc` | Shared memory/Stack relocation of xv6/xv6/kernel/proc.c:104-123 | the result and size in every case, C's wrap-around included; the gap stays above four pages always, and the image invariant is kept exactly unless the heap is shrunk below the code; refused exactly if less than five pages would be left, or if the difference wraps around |
| `StackHeap.Process.Growstack` | Shared memory/Stack relocation of xv6/xv6/kernel/proc.c:124-144 | succeeds exactly for a stack fault with more than five pages of gap and a free page; then the stack is one zero page larger and the fault is cured; the invariant is kept |
| `StackHeap.Process.Fork` | Shared memory/Stack relocation of xv6/xv6/kernel/proc.c:149-168 | the child has the same size and stack, equal contents and pages of its own; null exactly for lack of pages |
| `StackHeap.Undisturbed` | Shared memory/Stack relocation of xv6/xv6/kernel/vm.c:226-278 | growing or shrinking one process leaves every other process's image and the contents of its pages alone |
| `StackHeap.Bystander` | Shared memory/Stack relocation of xv6/xv6/kernel/vm.c:297-341 | fork leaves the image and contents of every process that was there alone |
| `StackHeap.Process.Take` | Shared memory/Stack relocation of xv6/xv6/kernel/proc.c:104-168 | one step of a process keeps its own image and the images and contents of all others on the machine, and its child shares no space with any of them; the heap grows, the stack grows or the child is made exactly as growproc, growstack and fork say |
| `StackHeap.TakeTurn` | Shared memory/Stack relocation of xv6/xv6/kernel/proc.c:104-168 | one step by any process of the family changes no other's size, stack or memory, and does to its own what the step says |
| `StackHeap.Run` | Shared memory/Stack relocation of xv6/xv6/kernel/proc.c:104-168 | any run in which any process, however descended, grows its heap or stack or forks keeps every image and gap and no two processes in one space, as long as no heap is shrunk below the code; the shapes of all processes after every turn are stated |
| `BufferCache.WithoutAt` | Kernel threads lib of xv6/Project4-2/kernel/bio.c:126-127 | unlinking removes that one element from the order |
| `BufferCache.Moved` | Kernel threads lib of xv6/Project4-2/kernel/bio.c:126-131 | moving a released buffer to the front keeps the list ordered by last release |
| `BufferCache.PushFront` | Kernel threads lib of xv6/Project4-2/kernel/bio.c:50-54 | the four stores give the ring with the buffer first |
| `BufferCache.Unlink` | Kernel threads lib of xv6/Project4-2/kernel/bio.c:126-127 | the two stores give the ring without the buffer |
| `BufferCache.Cache.constructor` | Kernel threads lib of xv6/Project4-2/kernel/bio.c:39-56 | one ring of NBUF buffers, none of them for a device |
| `BufferCache.Cache.Find` | Kernel threads lib of xv6/Project4-2/kernel/bio.c:69-80 | the forward loop finds the buffer of a sector exactly when there is one |
| `BufferCache.Cache.LastIdle` | Kernel threads lib of xv6/Project4-2/kernel/bio.c:82-91 | the backward loop finds the least recently released buffer not in use, or none exactly when all are busy |
| `BufferCache.Cache.OneBufferPerSector` | Kernel threads lib of xv6/Project4-2/kernel/bio.c:10-14 | two buffers for the same sector are the same buffer |
| `BufferCache.Cache.Bget` | Kernel threads lib of xv6/Project4-2/kernel/bio.c:58-93 | the sector's buffer if it is free, sleeping exactly if it is busy, else the least recently released idle buffer recycled, panic exactly if all are busy; nobody else's buffer changes; the agreement with the disk is kept |
| `BufferCache.Cache.Iderw` | Kernel threads lib of xv6/Project4-2/kernel/ide.c:120-154 | one transfer with a disk that is there: a dirty buffer is written, an invalid one read; two of the three panics, on a buffer that is not busy and on one with nothing to do, exactly; the third, for a missing second disk, is outside the model |
| `BufferCache.Cache.Bread` | Kernel threads lib of xv6/Project4-2/kernel/bio.c:95-105 | a busy valid buffer that nobody had, with the block the disk holds now; the buffers that others hold keep sector, data and agreement |
| `BufferCache.Cache.Bwrite` | Kernel threads lib of xv6/Project4-2/kernel/bio.c:107-115 | the disk holds the buffer's data, no other buffer's agreement changes; panic exactly on a buffer that is not busy |
| `BufferCache.Cache.Brelse` | Kernel threads lib of xv6/Project4-2/kernel/bio.c:117-137 | the buffer is first in the list, and the cache agrees with the disk afterwards exactly if it did before and this buffer does |
| `BufferCache.Cache.Update` | Kernel threads lib of xv6/Project4-2/kernel/bio.c:8-14 | a client that reads, changes, writes and releases leaves the disk with exactly its block changed, the cache in agreement and all other buffers as they were |
| `BufferCache.Cache.NoneLeft` | Kernel threads lib of xv6/Project4-2/kernel/bio.c:82-92 | all buffers are busy exactly when clients hold NBUF sectors |
| `BufferCache.Cache.Step` | Kernel threads lib of xv6/Project4-2/kernel/bio.c:8-14 | one read, change, write or release by any client is the same step of a disk with a lock on each sector |
| `BufferCache.Cache.Run` | Kernel threads lib of xv6/Project4-2/kernel/bio.c:8-14 | for any interleaving of any clients the cache refines that locked disk: at every point each read returned the disk's current block, held buffers and disk are as specified, and it panics exactly when a free sector is wanted while NBUF are held |
| `BufferCache.NoInterference` | Kernel threads lib of xv6/Project4-2/kernel/bio.c:13-14 | no update is lost: whatever the others do while a client holds a sector, its buffer and the block on the disk stay as it left them |
| `BufferCache.Cache.NobodyHolds` | Kernel threads lib of xv6/Project4-2/kernel/bio.c:39-56 | an idle cache shows the bare disk |
| `BufferCache.Boot` | Kernel threads lib of xv6/Project4-2/kernel/bio.c:39-56 | from boot, any run of any clients refines the locked disk |
| `ShellParser.WordToken` | Kernel threads lib of xv6/Project4-2/user/sh.c:294-306 | a word followed by a delimiter is read whole, and the space after it is skipped |
| `ShellParser.LineOk` | Kernel threads lib of xv6/Project4-2/user/sh.c:343-445 | whatever the parser builds has non-empty words, at most 9 arguments per command and the redirections of the three operators |
| `ShellParser.LineParses` | Kernel threads lib of xv6/Project4-2/user/sh.c:343-445 | parsing a fully parenthesised printing, followed by the end or a ")", yields the command and stops there |
| `ShellParser.RoundTrip` | Kernel threads lib of xv6/Project4-2/user/sh.c:326-341 | for every well-formed command tree, parsing its printing yields the tree with no leftovers |
| `ShellParser.Reprint` | Kernel threads lib of xv6/Project4-2/user/sh.c:326-341 | a line that parses means the same as its command printed in full |
| `ShellGrammar.AcceptsExactlySentences` | Kernel threads lib of xv6/Project4-2/user/sh.c:326-445 | a line is accepted exactly if its tokens are a sentence of a declared grammar, and then means what the sentence means: so the grammar is unambiguous, and the spacing does not matter |
| `ShellGrammar.SentenceIsAccepted` | Kernel threads lib of xv6/Project4-2/user/sh.c:326-445 | every sentence of the grammar, however spaced, is parsed to its meaning with no leftovers |
| `ShellGrammar.LineIs` | Kernel threads lib of xv6/Project4-2/user/sh.c:343-358 | what parseline accepts from any line is a sentence, of which the rest of the tokens is left |
| `ShellGrammar.RestParses` | Kernel threads lib of xv6/Project4-2/user/sh.c:414-445 | words and redirections in any order are collected, and ten words are too many |
| `ShellGrammar.TenWordsAreTooMany` | Kernel threads lib of xv6/Project4-2/user/sh.c:436-439 | a command of ten words or more panics, whatever redirections are among them |
| `ShellGrammar.Redirections` | Kernel threads lib of xv6/Project4-2/user/sh.c:378-393 | a command with "< f" reads f as descriptor 0 with mode 0x000; with "> f" or ">> f" it writes f as descriptor 1 with mode 0x201 |
| `ShellGrammar.RedirectionText` | Kernel threads lib of xv6/Project4-2/user/sh.c:378-393 | the same of the text of the command, the operator and the file name |
| `ShellGrammar.OneMoreRedirection` | Kernel threads lib of xv6/Project4-2/user/sh.c:378-396 | one more redirection goes around the command with all the redirections before it, so the first is the innermost |
| `ShellGrammar.PipesGroup` | Kernel threads lib of xv6/Project4-2/user/sh.c:360-371 | "a | b | c" is a piped into b piped into c, grouped to the right |
| `ShellGrammar.ListsGroup` | Kernel threads lib of xv6/Project4-2/user/sh.c:343-358 | "a ; b ; c" is a and then b ; c |
| `ShellGrammar.AmpIsForThePipeline` | Kernel threads lib of xv6/Project4-2/user/sh.c:343-358 | "a | b & ; c" runs the whole pipeline in the background and then c |
| `ShellParser.Parser.GetToken` | Kernel threads lib of xv6/Project4-2/user/sh.c:264-307 | the loops read the token the grammar defines: kind, text and rest |
| `ShellParser.Parser.Peek` | Kernel threads lib of xv6/Project4-2/user/sh.c:309-319 | tells whether the next character that is not space is one of the given, and skips the space |
| `ShellParser.Parser.ParseRedirs` | Kernel threads lib of xv6/Project4-2/user/sh.c:373-396 | value, rest or panic as the grammar says, on every line |
| `ShellParser.Parser.ParseBlock` | Kernel threads lib of xv6/Project4-2/user/sh.c:398-412 | value, rest or panic as the grammar says; panic("parseblock") is unreachable |
| `ShellParser.Parser.ParseExec` | Kernel threads lib of xv6/Project4-2/user/sh.c:414-445 | value, rest or panic as the grammar says, the limit of arguments included |
| `ShellParser.Parser.ParsePipe` | Kernel threads lib of xv6/Project4-2/user/sh.c:360-371 | value, rest or panic as the grammar says |
| `ShellParser.Parser.ParseLine` | Kernel threads lib of xv6/Project4-2/user/sh.c:343-358 | value, rest or panic as the grammar says; the mutual recursion terminates on every line |
| `ShellParser.Parser.ParseCmd` | Kernel threads lib of xv6/Project4-2/user/sh.c:326-341 | the command a line means, or the panic, leftovers included |
| `Grep.OneBegins` | Kernel threads lib of xv6/Project4-2/user/grep.c:92-93 | the step over one character is what the language of the items demands |
| `Grep.StarMeaning` | Kernel threads lib of xv6/Project4-2/user/grep.c:97-105 | c* then the rest: some run of characters that fit c, then the rest |
| `Grep.Match` | Kernel threads lib of xv6/Project4-2/user/grep.c:71-81 | 1 exactly if some part of the text, or its beginning after '^', is in the language of the pattern's items, reaching the end for a final '$' |
| `Grep.MatchHere` | Kernel threads lib of xv6/Project4-2/user/grep.c:83-95 | 1 exactly if some beginning of the text is in the language; terminates |
| `Grep.MatchStar` | Kernel threads lib of xv6/Project4-2/user/grep.c:97-105 | the shortest-first loop misses nothing |
| `Grep.PlainMatches` | Kernel threads lib of xv6/Project4-2/user/grep.c:65-95 | a pattern without operators matches exactly the texts that contain it |
| `Pipe.CountersTell` | Kernel threads lib of xv6/Project4-2/kernel/pipe.c:82-111 | the tests on the wrapping 32-bit counters tell full and empty, and index the ring rightly, because 512 divides 2^32 |
| `Pipe.BytePut` | Kernel threads lib of xv6/Project4-2/kernel/pipe.c:90-90 | a byte put in the ring is appended to the stream |
| `Pipe.ByteGot` | Kernel threads lib of xv6/Project4-2/kernel/pipe.c:111-113 | a byte taken from the ring is the next of the stream |
| `Pipe.Pipe.Wakeup` | Kernel threads lib of xv6/Project4-2/kernel/proc.c:376-386 | exactly the processes asleep on the channel become RUNNABLE |
| `Pipe.Pipe.Pipewrite` | Kernel threads lib of xv6/Project4-2/kernel/pipe.c:75-94 | appends what fits; returns n, sleeps on a full pipe, or gives up exactly when there is no reader or the process was killed; afterwards a reader sleeps with bytes to read exactly if one slept before, the writer was killed, the read end is open and not all bytes fitted |
| `Pipe.Pipe.Piperead` | Kernel threads lib of xv6/Project4-2/kernel/pipe.c:97-118 | takes the next bytes of the stream, up to n, or sleeps exactly on an empty pipe with an open write end; it forgets no reader |
| `Pipe.Pipe.Pipeclose` | Kernel threads lib of xv6/Project4-2/kernel/pipe.c:57-73 | closes one end and wakes those the other side keeps asleep; no reader is left forgotten |
| `Pipe.Pipe.Happen` | Kernel threads lib of xv6/Project4-2/kernel/pipe.c:57-118 | whatever happens next, a reader comes to be forgotten exactly by the step of a killed writer with more than 512 bytes left while the reader sleeps and the read end is open; a running reader's step gets the next min(n, what is there) bytes, a writer's leaves what there is room for, and the other events change exactly one slot or flag and wake the sleepers |
| `Pipe.ReaderTakes` | Kernel threads lib of xv6/Project4-2/kernel/pipe.c:97-118 | a running reader's step takes the next bytes and wakes the writers, or sleeps exactly on an empty pipe with an open write end unless it was killed |
| `Pipe.WriterPuts` | Kernel threads lib of xv6/Project4-2/kernel/pipe.c:75-94 | a running writer's step puts in what there is room for and wakes the readers, or sleeps exactly on a full pipe with an open read end unless it was killed |
| `Pipe.AfterKeeps` | Kernel threads lib of xv6/Project4-2/kernel/pipe.c:75-118 | no event loses a byte, makes one up or overfills the pipe |
| `Pipe.Handover` | Kernel threads lib of xv6/Project4-2/kernel/pipe.c:75-118 | a reader that sleeps on an empty pipe gets the bytes that somebody then writes: the write wakes it, and its next step takes them |
| `Pipe.Pipe.Run` | Kernel threads lib of xv6/Project4-2/kernel/pipe.c:57-118 | for any interleaving of steps, closes and kills, the bytes received are a prefix of those written with at most 512 in between; without kills nobody sleeps who could go on; the end of the run is that of its events one after the other |
| `Pipe.Pipe.NotBothAsleep` | Kernel threads lib of xv6/Project4-2/kernel/pipe.c:82-109 | unless a reader is forgotten, a reader and a writer never sleep at the same time |
| `Pipe.ForgottenReader` | Kernel threads lib of xv6/Project4-2/kernel/pipe.c:82-86 | a run in which a killed writer leaves a reader asleep at a full pipe |
| `Server.Put` | Kernel threads lib of xv6/Project4-1/server.c:149-151 | storing at rear appends to the queue held in the circular buffer |
| `Server.Take` | Kernel threads lib of xv6/Project4-1/server.c:92-94 | reading at front takes the head of the queue |
| `Server.Server.Produce` | Kernel threads lib of xv6/Project4-1/server.c:144-154 | the connection is appended, or the main thread waits exactly when the buffer is full; the waiting invariant is kept |
| `Server.Server.Consume` | Kernel threads lib of xv6/Project4-1/server.c:88-96 | the oldest connection is taken, or the worker waits exactly when the buffer is empty; the waiting invariant is kept |
| `Server.Server.SignalFill` | Kernel threads lib of xv6/Project4-1/server.c:153-153 | one waiting worker is signalled if there is one |
| `Server.Server.NoDeadlock` | Kernel threads lib of xv6/Project4-1/server.c:86-155 | no reachable state has every thread waiting, nor work in the buffer and every worker waiting |
| `Server.Server.Happen` | Kernel threads lib of xv6/Project4-1/server.c:86-155 | one event, if it can happen: a worker's turn takes the oldest connection or waits on an empty buffer, the main thread's puts its own in or waits on a full one, and nobody else's state changes but that of the one signalled |
| `Server.Server.Run` | Kernel threads lib of xv6/Project4-1/server.c:86-155 | for any interleaving and any spurious wake-ups the workers together take a prefix of the accepted connections, in order, each once; what every event does is stated at every point |
| `Checker.AllReach` | File system checker&repairer/Project5-1/xv6_fsck.c:259-271 | when every directory passes the last loop, every directory's walk comes to the root |
| `Checker.CycleNeverEnds` | File system checker&repairer/Project5-1/xv6_fsck.c:262-269 | a walk that comes back to an inode never reaches the root |
| `Checker.WalkUp` | File system checker&repairer/Project5-1/xv6_fsck.c:260-270 | the inner loop terminates and fails exactly when the walk is endless or meets the mark of an earlier one |
| `Checker.DetectLoops` | File system checker&repairer/Project5-1/xv6_fsck.c:259-271 | passes exactly the parent tables in which every directory passes; each inode is marked at most once in all |
| `Checker.Checker.CountEntry` | File system checker&repairer/Project5-1/xv6_fsck.c:180-184 | the counters and the child table tell the entries counted so far |
| `Checker.Checker.ScanDirect` | File system checker&repairer/Project5-1/xv6_fsck.c:161-192 | counts exactly the entries in use, records the last "..", and fails exactly on a badly formed directory |
| `Checker.Checker.ScanIndirect` | File system checker&repairer/Project5-1/xv6_fsck.c:194-210 | counts all entries of the indirect blocks, unused ones included |
| `Checker.Checker.CheckRoot` | File system checker&repairer/Project5-1/xv6_fsck.c:86-107 | passes exactly if the root is a directory and the first ".." of each of its blocks names it |
| `Checker.Checker.ScanInodes` | File system checker&repairer/Project5-1/xv6_fsck.c:78-214 | passes exactly if types, root and directory formats are right, and has then counted every entry |
| `Checker.Checker.CheckCounts` | File system checker&repairer/Project5-1/xv6_fsck.c:216-245 | passes exactly if reference counts, link counts and directory references are right |
| `Checker.Checker.CheckParents` | File system checker&repairer/Project5-1/xv6_fsck.c:247-256 | passes exactly if every child directory's ".." is the directory it is in |
| `Checker.Fsck` | File system checker&repairer/Project5-1/xv6_fsck.c:71-271 | accepts exactly the images that meet all the conditions |
| `Checker.OneContainer` | File system checker&repairer/Project5-1/xv6_fsck.c:236-256 | in an accepted image every directory but the root is in exactly one directory, the one its ".." names |
| `Checker.AllUnderTheRoot` | File system checker&repairer/Project5-1/xv6_fsck.c:257-271 | in an accepted image going up from any directory leads to the root |
| `Checker.RootIsOnTop` | File system checker&repairer/Project5-1/xv6_fsck.c:238-242 | in an accepted image the root is in no directory |
| `Checker.WalksMeaning` | File system checker&repairer/Project5-1/xv6_fsck.c:259-271 | the last loop passes exactly the tables in which every directory reaches the root and, of the directories whose ways up share an inode, all lie on the way up from the lowest-numbered one |
| `Checker.FineImages` | File system checker&repairer/Project5-1/xv6_fsck.c:257-271 | an image that passed every test before the last loop is accepted exactly under that condition |
| `Checker.DeepTreeRejected` | File system checker&repairer/Project5-1/xv6_fsck.c:259-271 | an image of four nested directories that is a tree, passes every test before and is turned down |
| `Checker.RootAccepted` | File system checker&repairer/Project5-1/xv6_fsck.c:257-271 | the image of an empty root directory is accepted |
| `Checker.ShallowTreesPass` | File system checker&repairer/Project5-1/xv6_fsck.c:259-271 | the last loop passes every tree nested no deeper than a directory in a directory of the root |

## Left out

- Locks and interleavings inside fs.c and sysfile.c: each call runs alone, inode locks and I_VALID are not modelled, buffers reach the disk at once, and a crash in the middle of a call is not modelled.
- iget, the inode cache and path resolution (namei, nameiparent): the calls of Sysfile.dfy are given the inodes that were found, any inodes of the right types.
- The on-disk inode table: the in-memory inodes are the authority, as if always valid and written back.
- Sysfile.Link: where the source panics the call never returns, so the link counts are not promised there, only the block and file invariants and the reason; the overflow of the 16-bit link count at 32767 is not modelled.
- Sysfile.Create: the same holds where create panics; inode numbers fit in 16 bits because at most 65536 inodes are assumed.
- Sysfile.Format: uses the kernel's own calls, where mkfs.c has copies of them.
- FileSystem.Fs.Readi: the device drivers' answers are a parameter, here and in FileSystem.Fs.Writei.
- mkfs.c beyond its initial layout, whose directory-size rounding is not assumed.
- Heap.Allocator.Malloc: sbrk's answer is a parameter, fresh memory above the static header or a refusal, and no grant of units that its argument does not ask for; what shrinking the process under a request over 2^31 - 16 bytes does is not modelled.
- Scheduler.Cpu.AllocProc: the branch for a full table, which writes past the table, returns -1 and changes nothing here; the rest of allocproc (kernel stack, trap frame) is not modelled.
- More than one CPU, and yield, sleep and exit as code: they appear as what a process did when it gave the CPU back.
- Vm: the hardware's walk of the tables, segment descriptors, inituvm, loaduvm, copyout and exec's reading of a file; flags are sums because addresses are page-aligned.
- Vm.Machine.Mappages: user pages are mapped one at a time, as all its callers do.
- StackHeap.Process.constructor: stands for exec's allocations for one segment; the arguments pushed on the stack are not modelled.
- StackHeap.Process.Fork: the process table entry, open files and kernel stack are not modelled; fetchstr is left out.
- BufferCache.Cache.Iderw: a sector that is asked for is on a disk that is there, so the panic for a missing second disk is not modelled.
- BufferCache.Cache.Bget: a caller that finds the buffer busy gets Sleeps and calls again; the wake-up itself is not modelled. In BufferCache.Cache.Run nobody releases a buffer whose data is not on the disk; what such a release does is BufferCache.Cache.Brelse. Device -1 is never asked for, and a transfer has no errors.
- ShellParser: nulterminate, which ends the words in place, and runcmd; words are slices of the line. A redirection wraps the command when its words are complete, where the source wraps the node first and fills it later.
- Grep: the loop that reads lines into a buffer.
- Pipe: pipealloc's failures, and freeing the pipe when both ends are closed.
- Server: errors of the mutex and condition calls, which end the program, and the handling of a request.
- Checker.Fsck: the tests of block addresses and of the bitmap, which only turn down more images, and the repair mode; inode numbers stay below ninodes, inode 0 is free and names end within their 14 bytes.
- clone, join, cond_wait, cond_signal, the console, the loader and all hardware code.
