# Hypnos kernel: verified models

This project models the stateful parts of the Hypnos kernel in Dafny and proves what they promise.

* **The in-memory file system** (`kernel/fs/fs.c`, with `kmalloc.c`, `crypto.c`, the shell's `cd ..`
  and the editor). `FsNodes`, `FsResolve`, `FsClone` and `FileSystem` are the linked node objects and
  the calls that rewire them. Every call is proved equal to a step of the state machine of `FsState`,
  whose states hold the graph that the links spell (`NodeGraph`, `GraphEdits`). On that machine
  `FsInvariant`, `FsPaths`, `FsMoves`, `FsAbsolute` and `FsRuns` prove the tree invariant, the effect
  of every call on the map from paths to entries, snapshot isolation and the survival of contents.
  `FsListing` proves what every call does to the order of listings. `FsCwd`, `Shell` and `FsDeep`
  treat the path printer and `cd`, `FsSearch` with `Preorder` the recursive searches, `Editor` an
  editing session from first key to saved file, `FsBoot` the layout that `fs_bootstrap` makes. `FsFailures` has concrete runs in which something is lost.
* **The cooperative scheduler and the context switch** (`task.c`, `context_switch.S`). `Machine` has
  registers and byte-addressed memory and runs `switch_task` instruction by instruction; `TaskRuns` is
  the step system of any interleaving of tasks; `Scheduler` is the circular list of task objects.
* **The text console** (`console.h`): `Console` is an 80 by 25 array shown to be a window onto an
  unbounded scrollback.
* **Memory managers**: `KernelHeap` (bump allocator), `PhysMem` (frame bitmap as a set), `Paging`
  (two-level tables as a flat map, by "32-Bit Paging" in the Intel 64 and IA-32 Architectures Software
  Developer's Manual, volume 3A).
* **The audit log** (`log.c`): `LogRing` agrees with an unbounded history.

`dafny verify dfyconfig.toml` checks the whole project.

How the model reads the C code:

* A C string is the sequence of its bytes before the NUL. A name buffer is the string it holds. A NULL
  path takes the same branches as the empty path everywhere, so both are the empty sequence.
* A node's `data` and `size` are one byte sequence. NULL data and empty data are both `[]`; no code
  tells them apart. Buffers that are written once and never again (file contents) are values; the path
  buffers, the editor buffer, the screen, the bitmap, the page tables and the log are arrays.
* The snapshot list, which only ever grows at its head, is a sequence.
* The heap is shared. Runs of file system calls may contain allocations by other parts of the kernel
  (`OtherOp`), and a running task may allocate between its switches, as file system calls do.
* New nodes and the heap offset after a clone are parameters of the state machine, constrained to be
  memory not handed out before; the methods supply them and prove the constraint.
* Sizes are those of i386: 56 bytes a node, 40 a snapshot, 84 a task.
* Data passed to `fs_write` is shorter than 4 GB less the heap size, so that no size passed to
  `kmalloc` wraps 32 bits. `KernelHeap.GrantsIffFits` says what happens otherwise.
* Interrupts, port I/O, `invlpg` and console messages have no counterpart.

## Model

| member | source | states |
|---|---|---|
| CTypes.LowestBit | kernel/arch/i386/mm/physmem.c:15-25 | setting, clearing and testing the lowest bit of a 32-bit word, as halving and doubling |
| CTypes.HigherBit | kernel/arch/i386/mm/physmem.c:15-25 | the same for a higher bit, by the halved word and the mask one bit lower: the equations that define the bit operations of the bitmap |
| Text.NextComponent | kernel/fs/fs.c:123-141 | returns the first component and the rest of the path, or says that none is left; iterating it gives exactly `Tokens` |
| Text.TokensValid | kernel/fs/fs.c:123-141 | components are 1 to 31 bytes and hold no slash |
| Text.TokensConcat | kernel/fs/fs.c:123-141 | the components concatenated are the path without its slashes: nothing else is lost |
| Text.TokensAreChoppedSegments | kernel/fs/fs.c:123-141 | the components are the segments between slashes, each cut into pieces of at most 31 bytes |
| Text.TokensAreSegmentsIff | kernel/fs/fs.c:123-141 | they are the standard split if and only if no segment is longer than 31 bytes |
| Text.TokensOfPrinted | kernel/fs/fs.c:123-141 | tokenizing the printed form of valid names gives the names back |
| Text.PrintedInjective | kernel/fs/fs.c:314-347 | different valid name lists print differently |
| Text.PrintedIsCanonical | kernel/fs/fs.c:314-347 | a printed path has one slash before every name, none behind the last and never two in a row; the root is the slash alone |
| Text.ClipIs | kernel/fs/fs.c:53-58 | a stored name is the first 31 bytes of the one given, or all of it |
| KernelHeap.GrantsIffFits | kernel/arch/i386/mm/kmalloc.c:16-20 | the 32-bit limit test grants a request exactly when it fits or its size wraps |
| KernelHeap.Heap.Kmalloc | kernel/arch/i386/mm/kmalloc.c:16-27 | blocks handed out lie in the heap and are pairwise disjoint; a request fails exactly when it does not fit, and then nothing changes |
| Crypto.CipherTwice | kernel/fs/crypto.c:20-35 | decrypting what was encrypted under the same key gives it back |
| Crypto.CipherOfZeros | kernel/fs/crypto.c:20-25 | the cipher of zero bytes is the key repeated |
| Crypto.CipherDiffers | kernel/fs/crypto.c:20-25 | two texts of one length differ after encryption exactly as before: with the line above this determines every byte |
| Crypto.CipherHidesIff | kernel/fs/crypto.c:20-25 | a byte is stored unchanged if and only if the key byte at its place is 0 |
| Crypto.KeyOfIs | kernel/fs/crypto.c:6-18 | a key of 1 to 32 bytes is used whole, a longer one up to byte 32, an empty one is 0x42 |
| Crypto.Engine.SetKey | kernel/fs/crypto.c:6-18 | the key is the first 32 bytes of the string, or one fallback byte when it is empty |
| Crypto.Engine.Apply | kernel/fs/crypto.c:20-25 | the output buffer starts with the cipher of the input, which `Crypto.CipherOfZeros` and `Crypto.CipherDiffers` determine, and is otherwise unchanged |
| FsInvariant.InitialInv | kernel/fs/fs.c:172-178 | the state after fs_init satisfies the tree invariant |
| FsInvariant.StepInv | kernel/fs/fs.c:180-521 | every call, with any arguments and from any state that satisfies it, keeps the tree invariant: chains without repetition, parent links that name the chain holding the node, files without children, names of 1 to 31 bytes, a working directory that belongs to the live tree |
| FsInvariant.WriteCwdNamesIff | kernel/fs/fs.c:255-284 | fs_write_cwd keeps sibling names distinct and slash-free if and only if it adds nothing or the clipped name is slash-free and not taken |
| FsInvariant.StepNames | kernel/fs/fs.c:180-521 | every other call keeps sibling names distinct and slash-free |
| FsInvariant.LongNameIsDuplicated | kernel/fs/fs.c:255-268 | a concrete run that stores two siblings under one name |
| Forest.RootHasShape | kernel/fs/fs.c:358-396 | whatever moves were made, what hangs from a root is a finite tree |
| FsPaths.TargetAbs | kernel/fs/fs.c:143-170 | fs_resolve with want_parent finds a place for a new entry exactly at the missing paths below an existing directory |
| FsPaths.CreateEffect | kernel/fs/fs.c:180-222 | fs_mkdir and fs_touch succeed exactly on a vacant path under 128 bytes with room on the heap, add that entry and leave every other path |
| FsPaths.WriteEffect | kernel/fs/fs.c:224-253 | fs_write makes a new file with the encrypted bytes, never overwrites, and leaves every other path; when only the buffer does not fit the empty file stays |
| FsPaths.StoredBytes | kernel/fs/fs.c:224-253 | fs_write leaves on the heap as many bytes as it was given, each the plain byte under the key byte of its place, and plain only where that is 0 |
| FsPaths.WriteCwdEffect | kernel/fs/fs.c:255-284 | fs_write_cwd makes or overwrites the named file in the working directory and leaves every other path |
| FsPaths.WriteCwdWhen | kernel/fs/fs.c:255-284 | fs_write_cwd of an unclipped name succeeds exactly unless a directory has the name or the heap is full |
| FsPaths.ReadEffect | kernel/fs/fs.c:287-300 | fs_read hands out the decrypted bytes of a non-empty file when they fit on the heap, and changes no entry |
| FsPaths.ChdirEffect | kernel/fs/fs.c:303-312 | fs_chdir succeeds exactly on directories and moves the working directory there |
| FsPaths.UnlinkEffect | kernel/fs/fs.c:435-445 | fs_unlink succeeds exactly on files and removes that path alone |
| FsPaths.RmdirEffect | kernel/fs/fs.c:447-459 | fs_rmdir succeeds exactly on empty directories other than the root and removes that path alone; the working directory is lost exactly when it is the one removed |
| FsMoves.RenameWhen | kernel/fs/fs.c:461-475 | when fs_rename succeeds |
| FsMoves.RenameEffect | kernel/fs/fs.c:461-485 | into a directory outside the source fs_rename re-keys the whole subtree, leaves every other path, and takes the working directory along |
| FsMoves.RenameBelowItself | kernel/fs/fs.c:461-485 | into its own subtree fs_rename succeeds and the subtree is lost, with the working directory if that was inside |
| FsMoves.CopyEffect | kernel/fs/fs.c:487-521 | fs_copy makes an equal file at the vacant target and leaves every other path |
| FsMoves.SnapCreateEffect | kernel/fs/fs.c:358-380 | fs_snap_create shows at no path of the live tree |
| FsMoves.SnapRestoreEffect | kernel/fs/fs.c:382-396 | fs_snap_restore makes the tree of the named snapshot live, by aliasing, with its root as working directory |
| FsAbsolute.CreateAbsolute | kernel/fs/fs.c:180-222 | the effect of fs_mkdir and fs_touch on absolute paths, wherever the working directory is |
| FsAbsolute.WriteAbsolute | kernel/fs/fs.c:224-253 | the same for fs_write |
| FsAbsolute.ReadAbsolute | kernel/fs/fs.c:287-300 | the same for fs_read |
| FsAbsolute.ChdirAbsolute | kernel/fs/fs.c:303-312 | fs_chdir with an absolute path brings a lost working directory back into the tree |
| FsAbsolute.ChdirToRoot | kernel/fs/fs.c:303-312 | changing to "/" always succeeds |
| FsAbsolute.UnlinkAbsolute | kernel/fs/fs.c:435-445 | the effect of fs_unlink on absolute paths, wherever the working directory is |
| FsAbsolute.RmdirAbsolute | kernel/fs/fs.c:447-459 | the same for fs_rmdir |
| FsAbsolute.RenameAbsolute | kernel/fs/fs.c:461-485 | the same for fs_rename, inside its own subtree or not |
| FsAbsolute.CopyAbsolute | kernel/fs/fs.c:487-521 | the same for fs_copy |
| FsListing.List | kernel/fs/fs.c:349-356 | fs_list hands out the children of the working directory in the order of its chain, names and kinds |
| FsListing.CreateLists | kernel/fs/fs.c:180-222 | after fs_mkdir and fs_touch the new name is first in the listing of its directory, and every other listing is as it was |
| FsListing.WriteLists | kernel/fs/fs.c:224-253 | the same for fs_write, also when only its buffer does not fit |
| FsListing.WriteCwdLists | kernel/fs/fs.c:255-284 | fs_write_cwd puts a new name first; a file it overwrites keeps its place |
| FsListing.CopyLists | kernel/fs/fs.c:487-521 | the copy is first in the listing of its directory |
| FsListing.UnlinkLists | kernel/fs/fs.c:419-445 | fs_unlink takes that line from the listing of the directory, the others keep their order |
| FsListing.RmdirLists | kernel/fs/fs.c:419-459 | the same for fs_rmdir |
| FsListing.RenameLists | kernel/fs/fs.c:461-485 | fs_rename takes the line from the old directory and puts it first in the new one, also when these are the same; the listings below move along |
| FsListing.RenameBelowItselfLists | kernel/fs/fs.c:461-485 | below itself the line goes from its directory and every listing below is lost |
| FsListing.SnapshotLists | kernel/fs/fs.c:76-108 | a snapshot keeps the order too: create, run, restore, and every directory lists what it listed at creation |
| FsRuns.StepIsolates | kernel/fs/fs.c:180-521 | a call changes no tree but the live one |
| FsRuns.RunIsolates | kernel/fs/fs.c:358-396 | while a tree is not live, no run of calls changes it |
| FsRuns.RestoreFindsTree | kernel/fs/fs.c:382-396 | restoring a snapshot gives the tree it had before a run in which it was never live |
| FsRuns.RestoreAsLastLeft | kernel/fs/fs.c:382-396 | a snapshot that was live comes back as it was last left |
| FsRuns.SnapshotRoundTrip | kernel/fs/fs.c:358-396 | create a snapshot, run any calls that do not make it live, restore it: every path holds what it held at creation, provided the clone fitted |
| FsRuns.SnapCreateWhen | kernel/fs/fs.c:358-380 | fs_snap_create succeeds if and only if the name has 1 to 31 bytes, no snapshot has it, a node fits and a list element fits after the clone; the new name then leads to the clone, all others to what they led to, and the heap has lost exactly the clone and 40 bytes |
| FsRuns.TwoSnapshots | kernel/fs/fs.c:358-396 | with room for both, two snapshots of different new names are both made, and restoring either gives every path what it held |
| FsRuns.StepTakes | kernel/fs/fs.c:180-521 | how many bytes of heap each call takes, in every case of success and failure |
| FsRuns.StepOrderlyIff | kernel/fs/fs.c:180-521 | a call leaves names distinct and the working directory in the tree if and only if it is none of three described calls |
| FsRuns.RunTidyIff | kernel/fs/fs.c:180-521 | a whole run stays so if and only if all its calls are orderly |
| FsRuns.RunsStayGood | kernel/fs/fs.c:172-521 | orderly runs from fs_init on always end with distinct names and an attached working directory |
| FsRuns.RunKeepsFile | kernel/fs/fs.c:180-521 | a run that neither overwrites, removes nor loses a file keeps its bytes, and follows it through renames of it and of directories above it |
| FsRuns.ContentsSurvive | kernel/fs/fs.c:224-300 | after a successful fs_write of non-empty data, fs_read returns exactly that data after any such run, wherever renames took the file |
| FsRuns.CwdContentsSurvive | kernel/fs/fs.c:255-300 | the same after fs_write_cwd, new file or overwritten |
| Forest.ClonedExactIff | kernel/fs/fs.c:76-108 | a clone is the whole tree if and only if its cost fits, and it then consumes exactly nodes times node size plus size + 1 for every non-empty file |
| FsClone.CloneTree | kernel/fs/fs.c:76-108 | the copy is fresh memory spelling the same names, kinds, bytes, order and parent links as far as the allocator allowed, and the heap ends where the clone leaves it |
| FsClone.CloneNode | kernel/fs/fs.c:80-95 | one node and its bytes are copied |
| FsNodes.FindInDir | kernel/fs/fs.c:111-120 | finds the first child of that name |
| FsNodes.LinkFirst | kernel/fs/fs.c:194-196 | the new node becomes first in the directory's chain; all other links are as they were |
| FsNodes.DetachFromParent | kernel/fs/fs.c:419-433 | the node leaves its chain, its neighbours are joined, all other links are as they were |
| FsNodes.Relink | kernel/fs/fs.c:476-484 | detach, rename and link first, as one graph edit |
| FsResolve.Follow | kernel/fs/fs.c:150-170 | the component loop ends at the node the names lead to, or at the directory of a single missing last name |
| FsResolve.Lookup | kernel/fs/fs.c:143-170 | fs_resolve agrees with walking the graph; the last name is empty unless it is the one missing component |
| FileSystem.FileSystem.constructor | kernel/fs/fs.c:172-178 | the objects after fs_init spell the initial state |
| FileSystem.FileSystem.Mkdir | kernel/fs/fs.c:180-198 | the objects after fs_mkdir spell exactly the next state of the machine, and a node it adds is fresh memory |
| FileSystem.FileSystem.Touch | kernel/fs/fs.c:200-222 | the same for fs_touch |
| FileSystem.FileSystem.Write | kernel/fs/fs.c:224-253 | the same for fs_write |
| FileSystem.FileSystem.WriteCwd | kernel/fs/fs.c:255-284 | the same for fs_write_cwd |
| FileSystem.FileSystem.Read | kernel/fs/fs.c:287-300 | the same for fs_read, with the bytes handed out |
| FileSystem.FileSystem.Chdir | kernel/fs/fs.c:303-312 | the same for fs_chdir |
| FileSystem.FileSystem.Unlink | kernel/fs/fs.c:435-445 | the same for fs_unlink |
| FileSystem.FileSystem.Rmdir | kernel/fs/fs.c:447-459 | the same for fs_rmdir |
| FileSystem.FileSystem.Rename | kernel/fs/fs.c:461-485 | the same for fs_rename, below itself included |
| FileSystem.FileSystem.Copy | kernel/fs/fs.c:487-521 | the same for fs_copy |
| FileSystem.FileSystem.SnapCreate | kernel/fs/fs.c:358-380 | the same for fs_snap_create; the nodes it adds are fresh memory |
| FileSystem.FileSystem.SnapRestore | kernel/fs/fs.c:382-396 | the same for fs_snap_restore |
| FileSystem.FileSystem.SetKey | kernel/fs/crypto.c:6-18 | the same for crypto_set_key |
| FsCwd.CwdTextIsLongestTail | kernel/fs/fs.c:314-347 | fs_getcwd prints the longest run of trailing components that fits in 127 bytes |
| FsCwd.CwdTextIsPath | kernel/fs/fs.c:314-347 | a path under 128 bytes is printed whole |
| FsCwd.ChdirToCwdText | kernel/fs/fs.c:303-347 | changing to what fs_getcwd prints is a no-op when the path is under 128 bytes |
| FsCwd.ShiftUp | kernel/fs/fs.c:330-331 | the backwards loop shifts the text in place without overwriting what it still has to move |
| FsCwd.GetCwd | kernel/fs/fs.c:314-347 | the buffers end up holding exactly that text and a NUL; the loop terminates |
| Shell.UpTextOfPath | kernel/shell/shell.c:323-343 | the surgery leaves a text that reads as the parent path |
| Shell.CdUpIs | kernel/shell/shell.c:311-346 | what cd .. looks up, from the root, for every attached working directory |
| Shell.CdUpIsParentIff | kernel/shell/shell.c:311-346 | cd .. ends at the parent if and only if the path of the working directory is under 128 bytes |
| Shell.CdUpAtRoot | kernel/shell/shell.c:323-325 | at the root cd .. stays |
| Shell.CdElsewhere | kernel/shell/shell.c:353-356 | every other path is looked up from the working directory: cd succeeds if and only if it is a directory, goes there, changes no entry, and a cd that fails changes nothing |
| Shell.EraseSegment | kernel/shell/shell.c:333-337 | erases the last segment from the buffer |
| Shell.CmdCd | kernel/shell/shell.c:302-355 | the buffer surgery and fs_chdir together do what `Cd` says |
| FsDeep.CdUpGoesAstray | kernel/shell/shell.c:311-346 | a reachable directory with a 128-byte path from which cd .. succeeds and ends two levels up |
| FsSearch.Contains | kernel/fs/fs.c:406-416 | kstrstr finds a needle exactly when it occurs; the empty needle always does |
| FsSearch.FindWalk | kernel/fs/fs.c:523-558 | the walk prints the lines of the hits in the order of the walk and gives the shared path buffer back as it was |
| FsSearch.Find | kernel/fs/fs.c:560-571 | while the walk stays inside its buffer fs_find prints exactly the lines of the hits, whatever the names; an empty name is refused |
| FsSearch.FindIsExact | kernel/fs/fs.c:523-571 | the hits are the paths of exactly the nodes whose name contains the needle |
| FsSearch.FindIsPreorder | kernel/fs/fs.c:523-571 | every line is the absolute path of a hit, lines come in preorder and no line comes twice |
| FsSearch.PathsFit | kernel/fs/fs.c:523-543 | with distinct names, the bound under which the walk is modelled holds if and only if every path is under 128 bytes |
| FsSearch.OverrunsIff | kernel/fs/fs.c:523-543 | the walk writes a NUL outside its 128-byte buffer if and only if that bound fails |
| Preorder.HitsSorted | kernel/fs/fs.c:523-558 | hits are strictly ordered by preorder |
| Preorder.RowsArePaths | kernel/fs/fs.c:573-584 | row by row the tree walk reports a path's last name, kind and depth |
| FsSearch.TreeCwd | kernel/fs/fs.c:573-592 | fs_tree_cwd reports the rows of the forest below the working directory |
| FsSearch.TreeIsExact | kernel/fs/fs.c:573-592 | these rows are every descendant once, in preorder, with its kind and true depth |
| FsBoot.MkPlays | kernel/fs/fs.c:180-198 | fs_mkdir does to the tree what its line of a script does to a map from paths to entries, whether it succeeds or not |
| FsBoot.WrPlays | kernel/fs/fs.c:224-253 | the same for fs_write |
| FsBoot.RdPlays | kernel/fs/fs.c:287-300 | the same for fs_read, with the bytes handed out |
| FsBoot.CdPlays | kernel/fs/fs.c:303-312 | the same for fs_chdir |
| FsBoot.WorldOf | kernel/fs/fs.c:10-24 | every state with distinct names and an attached working directory is such a map |
| FsBoot.Bootstrap | kernel/fs_bootstrap.c:10-74 | fs_bootstrap, as a program of calls on the objects, does exactly what its script says from any such state |
| FsBoot.BootKeeps | kernel/fs_bootstrap.c:10-74 | a boot loses and changes nothing that was in the tree |
| FsBoot.BootReturns | kernel/fs_bootstrap.c:12-24 | the saved text of the working directory leads back to it when its path takes less than 128 bytes |
| FsBoot.BootOnce | kernel/fs_bootstrap.c:21-26 | a tree whose sentinel can be read is left exactly as it is |
| FsBoot.LaidOutRun | kernel/fs_bootstrap.c:30-69 | with room on the heap the layout adds exactly seven directories and four files, and consumes exactly their cost |
| FsBoot.FirstBoot | kernel/fs_bootstrap.c:10-74 | a first boot makes that layout |
| FsBoot.SecondBoot | kernel/fs_bootstrap.c:21-26 | a second boot finds the sentinel of the first and leaves the tree as it is |
| FsBoot.HypnosIsNamed | kernel/fs_bootstrap.c:30-69 | the names and paths spelled out there satisfy what the layout theorem asks of them |
| FsFailures.RenameLosesDirectory | kernel/fs/fs.c:461-485 | mkdir and rename below itself: both succeed and the directory is gone |
| FsFailures.RmdirLosesCwd | kernel/fs/fs.c:447-459 | mkdir, chdir, rmdir: all succeed and no path leads to the working directory |
| FsFailures.PartialSnapshot | kernel/fs/fs.c:358-396 | with 100 bytes left, snapshot and restore: both succeed and the directory is gone |
| Editor.BackspaceUndoesIff | kernel/shell/editor.c:106-128 | backspace takes back the key before it if and only if the buffer had room for that key |
| Editor.TypingKeepsText | kernel/shell/editor.c:95-128 | newlines and printable characters are kept byte for byte, up to the first 4095 |
| Editor.KeyIgnoredIff | kernel/shell/editor.c:95-128 | a key changes nothing if and only if it is no text and no backspace, or text on a full buffer, or a backspace on an empty one, and can then be left out of any session |
| Editor.BackspaceTakesLast | kernel/shell/editor.c:106-112 | backspace takes exactly the last byte of a non-empty text |
| Editor.Editor.HandleKey | kernel/shell/editor.c:95-129 | one key edits the text as the fold says, ESC saves, and a closed editor ignores keys |
| Editor.Editor.Session | kernel/shell/editor.c:51-129 | a session leaves the file system as one save of the folded keys; when that succeeds and the fold is not empty, the file of that name holds it enciphered, fs_read gives it and every other path is as it was; for up to 4095 text keys these bytes are the keys themselves |
| Editor.SessionSavesIff | kernel/shell/editor.c:51-68 | a non-empty text is saved exactly unless the name is a directory or the heap is full |
| Editor.SessionSavesText | kernel/shell/editor.c:51-68 | the saved file reads back as the text and no other path changes |
| Editor.EmptySessionSavesIff | kernel/shell/editor.c:51-61 | an empty text is saved exactly under a name that is not taken: an existing file is never emptied |
| Machine.Cpu.PushFrame | kernel/arch/i386/start/context_switch.S:30-46 | pushfd and pushad leave the nine words in their slots and touch nothing else |
| Machine.Cpu.SwitchTask | kernel/arch/i386/start/context_switch.S:25-141 | switch_task stores the old registers as the old context, loads those of the new one, and otherwise writes only below the two stack pointers |
| Machine.Cpu.StartTask | kernel/arch/i386/start/context_switch.S:148-152 | start_task takes stack pointer and entry point from its arguments |
| TaskRuns.NextInv | kernel/sched/task.c:21-128 | every step keeps task blocks disjoint, ids increasing and parked stack pointers inside their stacks |
| TaskRuns.TaskReturns | kernel/sched/task.c:92-106 | over any interleaving, a task that yields comes back with its callee-saved registers, stack pointer, return point, flags and segment registers, and with its stack untouched |
| TaskRuns.FirstTurn | kernel/sched/task.c:37-125 | over any interleaving, a new task begins at its entry point on an empty stack: switched to, with clean registers, flags 0x202 and data selectors 0x10; started, with that stack pointer and entry point |
| TaskRuns.NextWait | kernel/sched/task.c:21-106 | a yield brings every waiting task one turn nearer; a creation puts off, by one turn, exactly the tasks before the running one |
| TaskRuns.TurnComes | kernel/sched/task.c:21-106 | no starvation: after as many yields as a task was away plus one for every creation it has had its turn |
| TaskRuns.CreatingHoldsUp | kernel/sched/task.c:21-106 | that bound is met: creating a task before each yield keeps earlier tasks waiting |
| TaskRuns.TurnsGoRound | kernel/sched/task.c:92-106 | between creations the turn moves on one place for every yield |
| TaskRuns.RoundReachesAll | kernel/sched/task.c:92-106 | n yields reach each of n tasks exactly once and return to the start |
| Scheduler.Append | kernel/sched/task.c:21-35 | the next links stay one simple cycle with the new task at the end |
| Scheduler.InitContext | kernel/sched/task.c:57-71 | the new context is cleared and set up, and nothing else is written |
| Scheduler.Scheduler.TaskCreate | kernel/sched/task.c:37-90 | the objects and the memory after task_create are those of the step system, in both failure cases too |
| Scheduler.Scheduler.TaskYield | kernel/sched/task.c:92-106 | the same for task_yield |
| Scheduler.Scheduler.Start | kernel/sched/task.c:108-125 | the same for scheduler_start |
| Console.VgaEntryParts | kernel/console.h:97-99 | a cell holds its character and its colour, neither disturbing the other |
| Console.WindowIsTail | kernel/console.h:119-138 | the screen shows the last 24 lines, or all lines and then unused ones |
| Console.PlainTextShows | kernel/console.h:163-210 | a text of any length appears with every character in its place, 80 to a line, wrapping only when a character follows |
| Console.LinesShow | kernel/console.h:151-210 | texts with newlines between them stand one below the other, each from a new line on, 80 characters to a line, padded with blanks and none lost, with the cursor behind the last |
| Console.NewlineErases | kernel/console.h:151-172 | wherever it comes, a newline blanks the line from the cursor on and goes to the start of the next line |
| Console.FullLineWraps | kernel/console.h:190-201 | in a full line the next character finishes it as it is and starts the next line |
| Console.TextOverwrites | kernel/console.h:191-201 | text that fits in the line replaces what is there, character by character, and nothing else |
| Console.ReturnOverwrites | kernel/console.h:175-202 | after a carriage return text replaces the line from its start and the rest of it stays |
| Console.BackspacesErase | kernel/console.h:181-188 | n backspaces blank the n places before the cursor, none beyond the start of the line |
| Console.FinishedLinesStay | kernel/console.h:163-202 | finished lines are never changed |
| Console.BackspaceUndoesIff | kernel/console.h:181-200 | backspace takes a character back if and only if it did not wrap and its place was blank |
| Console.Console.Scroll | kernel/console.h:119-138 | rows move up by one, the last content row is blank, the status row is untouched |
| Console.Console.Clear | kernel/console.h:140-150 | the screen shows an empty scrollback |
| Console.Console.Putc | kernel/console.h:163-202 | the content rows keep showing the scrollback, row and column stay in range, the status row is never written |
| Console.Console.Write | kernel/console.h:205-210 | the same for whole strings |
| PhysMem.BitSet | kernel/arch/i386/mm/physmem.c:15-17 | setting a bit of a word changes that bit alone |
| PhysMem.BitCleared | kernel/arch/i386/mm/physmem.c:19-21 | clearing a bit of a word changes that bit alone |
| PhysMem.BitValues | kernel/arch/i386/mm/physmem.c:15-21 | the two operations as sums |
| PhysMem.PhysMem.FirstFreeFrame | kernel/arch/i386/mm/physmem.c:27-41 | the two-level search finds the least free frame, or none exactly when all are taken |
| PhysMem.PhysMem.constructor | kernel/arch/i386/mm/physmem.c:43-61 | after phys_init exactly the frames up to the end of the kernel are taken |
| PhysMem.PhysMem.AllocFrame | kernel/arch/i386/mm/physmem.c:63-73 | takes the least free frame and returns its address, or 0 |
| PhysMem.PhysMem.FreeFrame | kernel/arch/i386/mm/physmem.c:75-82 | frees that frame and no other; address 0 and addresses beyond memory are ignored |
| PhysMem.FailsIffFull | kernel/arch/i386/mm/physmem.c:63-73 | with frame 0 taken, as phys_init leaves it, the answer is 0 if and only if all 524288 frames are taken |
| PhysMem.FreeUndoesAlloc | kernel/arch/i386/mm/physmem.c:63-82 | freeing what was just allocated restores the set |
| PhysMem.AllocOwned | kernel/arch/i386/mm/physmem.c:63-73 | an address handed out is page aligned, below 2 GB, no kernel frame's and held by nobody |
| PhysMem.RunOwned | kernel/arch/i386/mm/physmem.c:43-82 | over any run of callers that free only what they hold or address 0, the taken frames are exactly the kernel's and the held ones |
| CTypes.BitForms | kernel/arch/i386/mm/paging.c:16-17 | the shifts and masks of the source are the divisions and remainders of the model |
| Paging.Paging.TranslateIsLookup | kernel/arch/i386/mm/paging.c:19-28 | the two-level walk finds what the flat map says |
| Paging.IdentityLookup | kernel/arch/i386/mm/paging.c:46-74 | after paging_init every address below 2 GB leads to itself, writable, for everyone, and everything above is unmapped |
| Paging.Paging.Init | kernel/arch/i386/mm/paging.c:46-74 | paging_init sets up that map; no address in its loops overflows 32 bits |
| Paging.Paging.SetUserForRange | kernel/arch/i386/mm/paging.c:30-44 | marks the pages of the range in the flat map and no others |
| Paging.RangeMarkedIff | kernel/arch/i386/mm/paging.c:30-44 | all pages that meet the range are marked if and only if rounding its end up does not wrap; when it wraps none is |
| Paging.UserLookup | kernel/arch/i386/mm/paging.c:30-44 | marking changes who may use a page, never where it leads |
| Paging.Paging.Map | kernel/arch/i386/mm/paging.c:90-100 | sets the entry of one page in the flat map |
| Paging.MapLookup | kernel/arch/i386/mm/paging.c:90-100 | a mapping shows at every address of its page and nowhere else; without the present bit the page faults |
| Paging.Paging.Unmap | kernel/arch/i386/mm/paging.c:102-109 | clears the entry of one page in the flat map |
| Paging.UnmapLookup | kernel/arch/i386/mm/paging.c:102-109 | the page faults and no other address is affected |
| LogRing.LogRing.Event | kernel/log.c:36-48 | one more event joins the history; NULL is ignored |
| LogRing.LogRing.Dump | kernel/log.c:50-60 | prints exactly the last min(n, 128) messages in order, each cut to 79 bytes |
| LogRing.RecentAppend | kernel/log.c:36-48 | a new event comes last and the oldest goes once there are 128 |

## Findings

Where the code does not do what its names or documentation promise, the model follows the code:

* `fs_write` never overwrites and `fs_touch`, `fs_mkdir` fail on every existing path, because
  `fs_resolve` hands back an empty last name when the last component exists
  (`FsPaths.TargetAbs`, `FsPaths.WriteEffect`). Only `fs_write_cwd` overwrites. The branches for
  existing entries in `fs_touch`, `fs_write`, `fs_mkdir`, `fs_rename` and `fs_copy` are never taken.
* A component longer than 31 bytes is split into several (`Text.TokensAreSegmentsIff`).
* `fs_write_cwd` looks a long name up whole and stores it clipped, so writing the same long name twice
  makes two siblings with one name (`FsInvariant.LongNameIsDuplicated`); the exact condition under
  which names stay distinct is `FsInvariant.WriteCwdNamesIff`.
* `fs_rename` of a directory below itself succeeds and loses the subtree
  (`FsMoves.RenameBelowItself`, for example `FsFailures.RenameLosesDirectory`); `fs_rmdir` of the
  working directory detaches it (`FsPaths.RmdirEffect`, for example `FsFailures.RmdirLosesCwd`). With the names of `fs_write_cwd` these are all the ways to spoil the
  tree (`FsRuns.StepOrderlyIff`, `FsRuns.RunTidyIff`).
* `cd ..` follows the parent link exactly for paths under 128 bytes (`Shell.CdUpIsParentIff`); beyond
  that it can end in the wrong directory without an error (`FsDeep.CdUpGoesAstray`).
* When the heap runs out during a clone, `fs_snap_create` may still succeed with a partial tree; it is
  the whole tree exactly when its cost fits (`Forest.ClonedExactIff`, for example
  `FsFailures.PartialSnapshot`).
* The editor cannot empty an existing file: an empty text is saved with `fs_touch`, which fails
  (`Editor.EmptySessionSavesIff`).
* `phys_alloc_frame` answers 0 both for failure and for frame 0; `phys_init` takes frame 0, and a
  caller that frees only what it holds, or address 0, never gives it back (`PhysMem.RunOwned`).
* `paging_set_user_for_range` marks nothing when the end of the range is in the last page of the
  address space (`Paging.RangeMarkedIff`).
* A task that creates another before every yield holds up the tasks before it in the list
  (`TaskRuns.CreatingHoldsUp`).
* The README of the repository lists persistence on disk; `fs.c` calls no block device, so none is
  modelled.

## Left out

- FsSearch.Find: requires that the walk stays inside its buffer; FsSearch.OverrunsIff and FsSearch.PathsFit say exactly when it does.
- FsBoot.Bootstrap: the texts of the files and the names are parameters, FsBoot.HypnosIsNamed covers the names of the source; the working directory at the start is in the tree, as it is after fs_init.
- FsSearch.TreeCwd: requires a working directory that is still in the tree, because below a directory moved below itself the walk does not end.
- FsPaths.WriteCwdEffect: asks that the clipped name finds what the whole name finds, which holds for every name of at most 31 bytes.
- FsRuns.SnapshotRoundTrip: asks that the clone fitted in the heap; Forest.ClonedExactIff is the exact condition.
- FileSystem.FileSystem.SnapCreate: memory that a failing call leaves behind is unreachable and not tracked.
- Scheduler.Scheduler.TaskYield: starts at the entry of switch_task, with the compiler's call sequence already on the stack; a task that overflows its stack or writes to another task's memory is outside the step system.
- TaskRuns.TaskReturns: ecx and edx are caller-saved and not claimed; switch_task loads edx twice and ecx never.
- PhysMem.RunOwned: does not claim that frames are disjoint from the kernel heap, which phys_init does not reserve.
- PhysMem.PhysMem.constructor: asks that the kernel ends below 2 GB, as its link address of 1 MB suggests.
- fs_snap_list: a plain listing, it would only add an easy member.
- Console cursor registers, the status bar and the copies of the console statics in each file: one console object is modelled.
- Block device, RAM disk, ATA, keyboard, timer, interrupts, GDT, TSS, user mode, permissions and the rest of the shell: no deep state, or hardware set-up.
- The TLB: invlpg after each change of an entry has no counterpart, the walk always reads the tables.
