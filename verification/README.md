# Verification of UNIX768

UNIX768 ports V7 UNIX and the ACK C tool chain to a 68000. This project models its five hardest parts in
Dafny and proves what they are for.

* **The V7 file system of the boot monitor** (`v7layout`, `v7freelist`, `v7blockmap`, `v7content`, `v7room`,
  `v7dir`, `v7io`, `v7calls`, `v7links`, `v7run`, `v7limits`). One disk of 512-byte blocks with a chained free
  list, an inode list, block maps with three levels of indirection, a block cache and directories with reused
  slots. `V7Io` is the imperative core over the superblock, the buffers `b` and `blknos` and one handle;
  `V7Calls` has the directories and system calls, with the exact conditions under which each succeeds; `V7Room`
  counts the blocks a write needs; `V7Links` relates names, the tree of directories and link counts; `V7Run`
  says what every run conserves; `V7Limits` has runs in which link counts fail. The free list is specified as a
  stack (`free`), the block maps by an owner for every block in use (`own`), and files by their byte strings
  (`Content`).
* **Branch shortening in the assembler** (`assembler`) and its **token file** (`tokenfile`). `BranchSpec`
  defines addresses and decisions from the program text; `Assembler` is the three-pass program over
  section table, symbol table and decision table.
* **The C front end**: constant folding (`cstoper`), expressions and their meaning (`cexpr`), the EM machine
  (`emmachine`), the code for expressions and its correctness (`evalcode`, `eval`), building of trees
  (`ch3bin`), the allocator of locals (`locals`), switch tables (`switch`), bit-fields (`bitfield`).
* **The YMODEM receiver** (`ymodem`) and its CRC (`crc`), shared with the serial disk. Forsberg's
  XMODEM/YMODEM Protocol Reference, sections 5 and 8.
* **The preprocessor**: conditional groups (`cppcond`) and rescanning of macros (`cppmacro`). ANSI
  X3.159-1989, sections 3.8.1 and 3.8.3.4.

`dafny verify dfyconfig.toml` checks everything.

## What does not hold

The code is followed as it is. Where a promise fails, a lemma or a run names the failing input and another
lemma the exact condition under which it holds.

* The size check of the receiver adds one in 32 bits (`ymodem.c:364`). Exactly for an announced size of
  2^32 - 1 it admits a file larger than the buffer: `Ymodem.CheckWraps`, `Ymodem.WrapOverruns`; for all other
  sizes `Ymodem.RunSafe` bounds every copy.
* `push_if` compares with `>=` before it increments (`domacro.c:431-434`). IFDEPTH is documented as the
  maximum nesting (`parameters.h:22`), but one level more is accepted and its mark is written behind the
  array: `CondMachine.OneTooDeep`; `CondMachine.FileKept` has the exact condition.
* The loop that fills a dense switch table counts up to and including the upper bound in a host integer
  (`switch.c:134`), 32 bits wide where the compiler is built without 64-bit integers (`arith.h:26-27`,
  `build-c1:11`). With the greatest host integer among its cases it runs past the end of the case list:
  `Switch.LongOverruns`; `Switch.SwitchStatement` has the exact condition for every width, and shows that a host
  wider than the type, as in the cross build, never overruns.
* `cut_size` promises a warning for overflow in a constant expression, but for a signed k-bit type it looks only
  at the bits above the width (`cstoper.c:169-171`): `ConstFold.SilentOverflow`. `ConstFold.WarningRight` says
  that exactly the numbers from 2^(k-1) up to 2^k and from -2^k up to -2^(k-1) overflow without one; the
  folded value is right in every case.
* `NewLocal` with a size of zero, which a local array of no elements asks for (`declarator.c:137-140`), can hand
  out an offset that is in use (`util.c:69`): `Locals.NothingShares`; `Locals.Frame.NewLocal` says exactly when.
* Link counts are shorts that `link` and `mkdir` raise without a test (`v7io.c:487`, `v7io.c:1108`). A count of
  32767 becomes negative, names and counts part, and unlink no longer frees the file: `V7Limits.ManyLinks`,
  `V7Limits.TreeLost` and `V7Limits.NeverFreed` are such a run. `V7Run.TreeStep` says for every call, on the volume
  before it, that exactly then the tree is lost.
* A failed create, mkdir or mknod leaves its inode in use without a name, and a failed mkdir may leave the link
  of its parent raised (`v7io.c:466-489`): `V7Limits.HalfMade`. `V7Calls.MakNode` says exactly when and what is
  left; `V7Links.ExactLinks` that link counts of directories are exact where no such directory is left.
* The assembler's claims about its passes are assertions that are compiled out (`mach0.c:16`); they are proved
  to hold.

## Model

| member | source | states |
|---|---|---|
| `V7Run.Run` | platform/epoch68/firmware/v7io.c:252-321 | For every consistent volume and every sequence of create or truncating open, mkdir, mknod, write, link, unlink and rmdir, successful or not: the volume stays consistent, and said of the disk alone, the free chain and the inodes share out the data area, each block in the chain once or at one place of one file, never both and never neither; and each call does what is stated of it, success and failure included |
| `V7Run.Step` | platform/epoch68/firmware/v7io.c:1060-1498 | Each single call, on any path and in any failure for lack of space, inodes or names, keeps the volume consistent, succeeds or fails as the volume before it decides, and does what is stated of that call |
| `V7Run.TreeStep` | platform/epoch68/firmware/v7io.c:1060-1498 | If the directories were a tree before a call, they are one afterwards if and only if the call does not raise a link count of 32767, which the volume before the call decides: mkdir at a parent with that count and with a free block, link at a file with that count when link succeeds |
| `V7Run.RunInTree` | platform/epoch68/firmware/v7io.c:1060-1498 | In every run from a tree every volume up to the first call that would raise a link count of 32767 is a tree, and the one after that call is none: every ordinary name stands in the root or in a named directory and leads to an inode in use, from every such directory the parent entries lead to the root, a file has as many names as its link count says, a directory one name and the right dot entries, and its link count lies between 2 plus its named subdirectories and 2 plus the directories whose parent entry it is |
| `V7Run.NewVolume` | platform/epoch68/firmware/v7/mkfs.c:57-95 | A volume from mkfs is consistent and a tree; sizes out of range are refused |
| `V7Run.Conservation` | platform/epoch68/firmware/v7io.c:498-570 | The invariant kept by the calls says exactly this about the blocks on the disk: two different places never hold the same block, every reached block is in the data area and not free, every unfree block is reached |
| `V7Links.Made` | platform/epoch68/firmware/v7io.c:447-495 | create, mkdir and mknod on a tree, also when they fail half way, leave a tree if and only if it is not a mkdir, or no block is free, or the link count of the parent was below the greatest short; without room for its name the new inode is in use without any name |
| `V7Links.Linked` | platform/epoch68/firmware/v7io.c:1060-1119 | A successful link leaves a tree if and only if the link count of the file was not the greatest short before |
| `V7Links.Unlinked` | platform/epoch68/firmware/v7io.c:1384-1401 | unlink frees an inode exactly with its last name: afterwards no name leads to a free inode and counts are exact |
| `V7Links.Removed` | platform/epoch68/firmware/v7io.c:1242-1269 | rmdir takes the only name of the directory; no other name led to it and the counts of the parent stay right |
| `V7Links.PathAnchored` | platform/epoch68/firmware/v7io.c:85-121 | In a tree every path from the root, through dot entries too, ends at the root or at an inode that has a name |
| `V7Links.Reachable` | platform/epoch68/firmware/v7io.c:85-121 | In a tree an inode has a name, or is the root, if and only if some path from the root leads to it |
| `V7Links.ExactLinks` | platform/epoch68/firmware/v7io.c:447-495 | While no directory is left without a name, the link count of a directory is exactly 2 plus the number of its subdirectories |
| `V7Links.NamesAre` | platform/epoch68/firmware/v7io.c:732-772 | The live entries naming an inode are exactly the names that dlook answers with it |
| `V7Links.FreshTree` | platform/epoch68/firmware/v7/mkfs.c:219-261 | The root directory as mkfs writes it is a tree |
| `V7Limits.ManyLinks` | platform/epoch68/firmware/v7io.c:1060-1119 | A run from a fresh file system of the greatest size, create and 32766 links, ends in a tree with a file of 32767 names and links and with room for one more |
| `V7Limits.TreeLost` | platform/epoch68/firmware/v7io.c:1060-1119 | One link more succeeds: 32768 names, a link count of -32768 and no tree any more |
| `V7Limits.NeverFreed` | platform/epoch68/firmware/v7io.c:1384-1401 | Unlinking all 32768 names after that leaves the file in use with no name anywhere |
| `V7Limits.HalfMade` | platform/epoch68/firmware/v7io.c:464-489 | On a small volume mkdir fails for lack of a block in the root and leaves the link count of the root at 3 without a subdirectory, and a directory with its dot entries in use without a name |
| `V7FreeList.PushThenPop` | platform/epoch68/firmware/v7io.c:253-321 | What bfree pushes the next alloc takes back, across a spill into the freed block and the refill from it, with the cached entries as before; clearing the popped block destroys nothing that is still needed |
| `V7FreeList.Pop` | platform/epoch68/firmware/v7io.c:253-289 | Taking the top entry and then overwriting that block leaves a sound list of the remaining entries, whatever is written |
| `V7FreeList.Push` | platform/epoch68/firmware/v7io.c:292-321 | Freeing a block that is not free, with or without a spill of the full cache into it, leaves a sound list with that block on top; s_tfree stays the length |
| `V7FreeList.EmptyExactly` | platform/epoch68/firmware/v7io.c:259-267 | The test for an exhausted list succeeds exactly when the list is empty |
| `V7FreeList.Frame` | platform/epoch68/firmware/v7io.c:291-321 | Writes to blocks that are not free never change the free list |
| `V7Io.V7Io.Alloc` | platform/epoch68/firmware/v7io.c:253-289 | Takes the top of the free list and clears it, changing no other block but the superblock; returns 0 exactly when nothing is free |
| `V7Io.V7Io.BFree` | platform/epoch68/firmware/v7io.c:292-321 | Pushes a block, changing at most that block; block 0 is ignored |
| `V7Io.V7Io.SbMap` | platform/epoch68/firmware/v7io.c:573-650 | For every block number the answer is the block that the inode tree maps it to, through one, two or three levels of indirection and the buffers of the block cache |
| `V7Io.V7Io.WbMap` | platform/epoch68/firmware/v7io.c:653-729 | Succeeds if and only if the number is in range and as many blocks are free as are missing on the way to it, and takes exactly those; the result is what sbmap then returns for that block; the tree grew only on that way, from empty entries and with free blocks, and the volume stays consistent in every failure |
| `V7Room.GrowthCount` | platform/epoch68/firmware/v7io.c:653-729 | Whoever grows the tree for a block, until it is there or nothing is free, takes as many blocks as empty entries stood on its way before, and gets there if and only if that many were free |
| `V7Content.OthersKeep` | platform/epoch68/firmware/v7io.c:653-729 | Growing the tree for one file block leaves the mapping of every other block of every file unchanged |
| `V7Content.NoSharing` | platform/epoch68/firmware/v7io.c:653-729 | Two file blocks, of one file or of two, never map to the same disk block |
| `V7BlockMap.GraftEntry` | platform/epoch68/firmware/v7io.c:696-729 | Hanging a cleared block in an empty entry changes what is mapped at that one place and keeps every block at one place |
| `V7BlockMap.CachedStore` | platform/epoch68/firmware/v7io.c:572-729 | Rewriting an indirect block through its buffer keeps every other buffer equal to its disk block: blknos[j] != 0 always means b[j] is that block |
| `V7Io.V7Io.LoadCache` | platform/epoch68/firmware/v7io.c:628-642 | A buffer is re-read exactly when it holds another block, and then holds the wanted one |
| `V7Layout.PathOfInjective` | platform/epoch68/firmware/v7io.c:573-650 | Different file blocks take different ways through the indirect blocks |
| `V7Layout.PathDigit` | platform/epoch68/firmware/v7io.c:632-650 | Shifting and masking a block number picks the right entry on each level |
| `V7Layout.InodeSlotUnique` | platform/epoch68/firmware/v7io.c:61-81 | The two ways of computing the place of an inode on disk agree, and no two inodes share one |
| `V7Io.V7Io.TLoop` | platform/epoch68/firmware/v7io.c:498-526 | The recursion frees the blocks below and at an indirect block in post-order, each exactly once as it stood before, although freeing overwrites freed blocks and b[0]; nothing else on disk changes |
| `V7BlockMap.PostIsSubtree` | platform/epoch68/firmware/v7io.c:498-526 | The list of blocks that tloop frees is exactly the subtree: every block owned at or below the place, each once |
| `V7BlockMap.SlotsAreTrees` | platform/epoch68/firmware/v7io.c:529-570 | The list over all thirteen slots names exactly the blocks of the inode, each once |
| `V7Io.V7Io.ITrunc` | platform/epoch68/firmware/v7io.c:529-570 | After truncation the blocks of the inode, and no others, are on the free list, the inode owns nothing and has size 0, and the blocks of all other files are untouched; device inodes are left alone |
| `V7Io.V7Io.IAlloc` | platform/epoch68/firmware/v7io.c:353-389 | Takes an unused inode after the root, or fails exactly when there is none; no other inode changes |
| `V7Io.V7Io.WriteIno` | platform/epoch68/firmware/v7io.c:324-350 | The inode on disk catches up with the one in memory and no other inode on disk changes |
| `V7Io.V7Io.Read` | platform/epoch68/firmware/v7io.c:796-833 | On a file without holes the bytes returned are the file's bytes at the offset; on any file as many as the least of the count asked for, the rest of the block and the rest of the file, none at or past the end |
| `V7Io.V7Io.WriteI` | platform/epoch68/firmware/v7io.c:836-878 | A file without holes, written at an offset within it, then holds its old byte string with the written bytes replaced or appended; a short count means no free block or the largest file; within one block all is written if and only if the missing blocks on the way to it are free, else nothing |
| `V7Content.ChunkWritten` | platform/epoch68/firmware/v7io.c:836-878 | One round of the write loop splices its chunk into the byte string of the file |
| `V7Content.GrewContent` | platform/epoch68/firmware/v7io.c:653-729 | Growing the block map alone shows a reader nothing |
| `V7Dir.LookupIsLive` | platform/epoch68/firmware/v7io.c:732-772 | Although dlook does not skip dead slots, in a directory where no slot stands before a live slot of its name it returns n for a name exactly when a live entry binds the name to n |
| `V7Dir.AddedSound` | platform/epoch68/firmware/v7io.c:392-432 | Reusing the first dead slot, or appending, keeps that condition, binds the new name and changes what no other name means |
| `V7Dir.KilledSound` | platform/epoch68/firmware/v7io.c:1242-1252 | Killing the slot that was found keeps that condition, unbinds the name and changes what no other name means |
| `V7Dir.KeyOfPad` | platform/epoch68/firmware/v7io.c:392-432 | Storing a name cut to fourteen bytes and padded loses nothing that the comparison looks at |
| `V7Dir.KeyIsStrncmp` | platform/epoch68/firmware/v7io.c:767 | Two names have the same key if and only if strncmp takes them for the same: equal byte by byte up to the first zero byte or up to DIRSIZ |
| `V7Dir.KeyOfName` | platform/epoch68/firmware/v7io.c:767 | A name without a zero byte is its own key if it has at most fourteen bytes; of a longer one the key has the first fourteen |
| `V7Dir.AddedNames` | platform/epoch68/firmware/v7io.c:392-432 | After adding, exactly the names that strncmp takes for the added one mean the new inode; all others mean what they meant |
| `V7Dir.KilledNames` | platform/epoch68/firmware/v7io.c:1242-1252 | After killing, exactly the names that strncmp takes for the killed one mean nothing; all others mean what they meant |
| `V7Dir.DirentBytes` | platform/epoch68/firmware/v7io.c:400-406 | The sixteen bytes of an entry are the inode number, high byte first, and the name up to its first zero byte, cut to fourteen bytes and filled up with zeros |
| `V7Calls.DLook` | platform/epoch68/firmware/v7io.c:732-772 | The scan over the blocks of a directory returns the inode number in the first slot whose name strncmp takes for the wanted one within DIRSIZ bytes, and 0 if there is none, for the empty name or outside a directory |
| `V7Calls.AddDir` | platform/epoch68/firmware/v7io.c:392-432 | Binds an absent name in the first dead slot or behind the last one, if and only if that place is within the largest file and its missing blocks are free; else changes no directory and no other file |
| `V7Calls.Find` | platform/epoch68/firmware/v7io.c:85-121 | A path leads where looking up its components one after the other leads, and to 0 if one is missing or not in a directory |
| `V7Calls.PathParent` | platform/epoch68/firmware/v7io.c:124-164 | Stops at the directory of the last component, exactly when that exists and is a directory |
| `V7Calls.MakNode` | platform/epoch68/firmware/v7io.c:447-495 | An existing file is returned to create and refused to mkdir and mknod with nothing changed; nothing changes either without a parent directory or an unused inode; else an inode of the given kind is made, and gets the name if and only if there is room for the dot entries and then for the name; every other name in every directory keeps its meaning; a failure binds no name and changes no file but the new one and the parent, whose link count stays raised exactly if the new directory had got its dot entries; a new device inode holds the device number |
| `V7Calls.Unlink` | platform/epoch68/firmware/v7io.c:1277-1409 | Succeeds if and only if the last component is no dot entry, its directory exists and binds it to an inode that is no directory; then the name is gone and every other name in every directory keeps its meaning; the inode with all its blocks goes with its last link, else one link is gone and its bytes stay; the parent inode and all other files are as before; on failure nothing changed |
| `V7Calls.Rmdir` | platform/epoch68/firmware/v7io.c:1121-1275 | Succeeds if and only if the last component is no dot entry and means a directory with nothing but dot entries; then its name, inode and blocks are gone, every other name keeps its meaning, the parent has one link less and no other file changed; on failure nothing changed |
| `V7Calls.IsEmpty` | platform/epoch68/firmware/v7io.c:1217-1241 | The scan says empty exactly when no live slot is other than the dot entries |
| `V7Calls.Link` | platform/epoch68/firmware/v7io.c:1060-1119 | Succeeds if and only if the old path leads to an inode that is no directory, the new name is absent from an existing directory, no dot entry, and there is room for it; then the new name means the old file, which has one link more and its bytes as before, and every other name keeps its meaning; on failure no name and no link count changed; no other file changes |
| `V7Calls.OpenWrite` | platform/epoch68/firmware/v7io.c:1411-1498 | An existing file is opened and emptied, unless it is a directory; an absent name in an existing directory is made if and only if there is an unused inode and room for the name; then it is bound to the opened, empty file; every other name keeps its meaning, and no file but it and, if it is new, its directory changed; on failure no name is bound |
| `V7Calls.OpenFinds` | platform/epoch68/firmware/v7io.c:1411-1498 | The file opened is that of an entry whose name strncmp takes for the last component; a file is made only where no live entry is taken for it, with an inode that was unused |
| `V7Calls.RebindsNames` | platform/epoch68/firmware/v7io.c:732-772 | What the calls say of names they say of strncmp: exactly the names it takes for the given one are rebound |
| `V7Calls.Write` | platform/epoch68/firmware/v7io.c:880-899 | Writing through a handle splices the bytes into that file alone, reports how many, comes short only with the disk full or at the largest file, and changes no name and no link count |
| `V7Calls.MakeFs` | platform/epoch68/firmware/v7/mkfs.c:57-95 | A size out of range is refused; else one block in twenty-five, up to a limit, holds inodes, all others are free but the one with the two entries of the root, inode 1 has no links, and the volume is consistent |
| `BranchSpec.GainGrows` | toolchain/ack/as/comm7.c:226-231 | The pass-1 address minus the pass-2 address never decreases along a section, for every program |
| `BranchSpec.ShortStaysShort` | toolchain/ack/as/comm7.c:234-237 | A branch made short in pass 2 still reaches its label with a byte after all later shrinking, and its label is in its section |
| `BranchSpec.SignTellsDirection` | toolchain/ack/as/mach5.c:379-388 | In pass 2 the sign of the distance alone tells forward labels, still at pass-1 values, from backward ones; corrected by the gain so far, the distance decides as the two-address comparison does |
| `BranchSpec.AlignLater` | toolchain/ack/as/comm6.c:207-226 | An alignment accepted in pass 1 divides the final alignment of its section, so passes 2 and 3 never reject it |
| `BranchSpec.AlignAccepted` | toolchain/ack/as/comm6.c:207-226 | An alignment is accepted if and only if the addresses aligned for it lie within those aligned for the section so far or the other way round |
| `BranchSpec.AlignAligns` | toolchain/ack/as/comm6.c:227-249 | After an alignment the section stands at a multiple of it in passes 2 and 3 |
| `BranchSpec.BranchLands` | toolchain/ack/as/mach5.c:389-402 | Every encodable branch to a label of its section is put out, and the processor, adding the sign-extended byte or word to the address behind the opcode, lands exactly on the final address of the label; a short branch to the next instruction is a no-operation |
| `BranchSpec.FitsExactly` | toolchain/ack/as/comm0.h:129-130 | A displacement passes the byte or word test if and only if some byte or word makes the processor go there |
| `BranchSpec.ShortExactly` | toolchain/ack/as/mach5.c:375-395 | A branch is short if and only if there is no -b, the label is in its section and a byte reaches it where pass 2 sees it |
| `BranchSpec.NoOverlap` | toolchain/ack/as/comm7.c:247-288 | What is put out later in a section lies behind everything put out before in it |
| `BranchSpec.NoGap` | toolchain/ack/as/comm7.c:247-288 | An item moves its section by exactly the length of what it puts out, and no other section |
| `BranchSpec.Largest` | toolchain/ack/as/comm7.c:182-242 | Pass 1 counts the largest size that an item can have and no more |
| `Assembler.Asm.Small` | toolchain/ack/as/comm7.c:182-242 | The decision table: pass 2 records the choice and its gain, pass 3 reads the same entry back; the assertion that pass 3 never reads a choice that no longer fits holds |
| `Assembler.Asm.NewLabel` | toolchain/ack/as/comm6.c:80-95 | The assertion that pass 2 stores the pass-1 value less the gain so far, and that of store that pass 3 changes no value, hold |
| `Assembler.Asm.DoBranch` | toolchain/ack/as/mach5.c:375-403 | Size, recorded decision and emitted form of one branch in each pass |
| `Assembler.Asm.DoItem` | toolchain/ack/as/comm2.y:104-135 | One statement in any pass keeps: addresses, alignments, gains, symbol values and decisions are those defined by the program text; the statement is rejected exactly for the reasons of its pass |
| `Assembler.Asm.Reset` | toolchain/ack/as/comm4.c:391-448 | What is reset between passes re-establishes the start of the next pass, with symbols and decisions carried over |
| `Assembler.Asm.Assemble` | toolchain/ack/as/comm4.c:51-132 | Three passes succeed if and only if every statement is legal and every branch that is not short has a word that lands on its label; then every label and section size is the pass-2 one, the output is the image in which branches land, and no assertion of the passes failed |
| `ConstFold.InitCst` | toolchain/ack/c1/cstoper.c:179-198 | For a host integer of any size, full_mask[i] is 8 * i ones up to that size, although the loop only stops when the mask turns negative; a host wider than the table is rejected |
| `ConstFold.Expr.CutSize` | toolchain/ack/c1/cstoper.c:142-177 | The constant becomes the canonical one of the value wrapped to the type, by masking or by shifting up and arithmetically down, for every width of the host |
| `ConstFold.WarningRight` | toolchain/ack/c1/cstoper.c:159-175 | The overflow warning comes exactly when cutting changes the number, except for the numbers of a signed type of k bits in [-2^k, -2^(k-1)) and [2^(k-1), 2^k), for which it is missing |
| `ConstFold.SilentOverflow` | toolchain/ack/c1/cstoper.c:166-175 | 40000 and -40000 overflow a two-byte int without a warning |
| `ConstFold.Expr.CstBin` | toolchain/ack/c1/cstoper.c:30-140 | For canonical operands of any size and signedness and a host of any width that holds them, whenever the target computes a result the folded constant is that result, in canonical form; a zero divisor is reported and changes nothing; so the folded quotient and remainder of the same operands belong together as C wants it |
| `ConstFold.HostExact` | toolchain/ack/c1/cstoper.c:30-140 | The host result has the pattern of the target result in the low bits, for every operator and every width of the host |
| `ConstFold.RepCanonical` | toolchain/ack/c1/cstoper.c:142-177 | Every number of a type has its canonical constant, which means that number |
| `ConstFold.ShiftExtends` | toolchain/ack/c1/cstoper.c:166-175 | Shifting left and right by the difference of the widths sign-extends |
| `TargetArith.TargetInRange` | toolchain/ack/c1/cstoper.c:30-177 | The target result is a number of the type again |
| `TargetArith.TargetMeans` | toolchain/ack/c1/cstoper.c:30-140 | Sums, products and left shifts are the number of the type congruent to the exact result; quotient and remainder make up the dividend, the remainder smaller than the divisor and with the sign of the dividend; right shifts round down; bit operations go bit by bit; comparisons give 1 or 0 |
| `TargetArith.MeansOne` | toolchain/ack/c1/cstoper.c:30-140 | These properties leave one result only |
| `TargetArith.NoQuotient` | toolchain/ack/c1/cstoper.c:46-75 | Division is left undefined if and only if there is no quotient or it is no number of the type |
| `TargetArith.BitsLow` | toolchain/ack/c1/cstoper.c:124-132 | The low bits of a bit operation depend on the low bits of the operands only, at every width |
| `TargetArith.AndMask` | toolchain/ack/c1/cstoper.c:159-165 | Masking with k ones takes the value modulo 2^k |
| `EvalCode.Correct` | toolchain/ack/c1/eval.c:93-762 | For every well-formed tree, store and stack: the code leaves the value on the stack, or jumps to the label of its truth, or leaves the stack alone when only effects are wanted, and always performs the side effects, as the expression means |
| `EvalCode.MachineRuns` | toolchain/ack/c1/eval.c:93-762 | The same on the EM machine with its program counter, inside any program whose labels are distinct |
| `EvalCode.CompileOwn` | toolchain/ack/c1/eval.c:666-732 | Every label in the code is one drawn for it and stands there once |
| `EvalProc.Emitter.Eval` | toolchain/ack/c1/eval.c:93-762 | The recursive procedure appends exactly that code and draws exactly those labels |
| `EvalProc.Emitter.EvalLogic` | toolchain/ack/c1/eval.c:681-720 | Logical and, logical or: with and without labels, for the value and for effects only |
| `EvalProc.Emitter.EvalCond` | toolchain/ack/c1/eval.c:666-680 | ?: with its three labels |
| `EvalProc.Emitter.EvalOpAssign` | toolchain/ack/c1/eval.c:451-553 | op=, ++ and -- on a simple variable, right side first where the operator commutes |
| `EvalProc.Emitter.Whole` | toolchain/ack/c1/eval.c:93-762 | What the procedure puts out for a whole expression runs from its first to its last instruction and does what the expression means |
| `EvalCode.OperandsRun` | toolchain/ack/c1/eval.c:488-523 | Both orders of loading the operands of op= leave what the operation needs |
| `EvalCode.ApplyCommutes` | toolchain/ack/c1/eval.c:488-499 | The operators whose op= evaluates the right side first give the same for either order of operands |
| `EmMachine.CmpZero` | toolchain/ack/c1/eval.c:337-382 | Comparing to minus one, zero or one and testing that against zero is the comparison, signed and unsigned |
| `EmMachine.Bridge` | toolchain/ack/c1/eval.c:93-762 | Code that only jumps forward or out behaves on the machine as it does piece by piece |
| `EmMachine.ExecSeq` | toolchain/ack/c1/eval.c:93-762 | Pieces of code compose |
| `TreeBuilder.BuildMeans` | toolchain/ack/c1/ch3bin.c:53-333 | For every expression that C sequences, the tree that is built, with constants folded, operands of the logical operators, the conditional and the comma dropped, and operands swapped, has the same value and side effects |
| `TreeBuilder.BuildBuilt` | toolchain/ack/c1/ch3bin.c:220-330 | What is built has the shape that EVAL relies on: tests under the logical operators and as conditions |
| `TreeBuilder.TestMeans` | toolchain/ack/c1/arith.c:586-610 | opnd2test keeps the truth value and the side effects, through nested commas |
| `TreeBuilder.LogicMeans` | toolchain/ack/c1/ch3bin.c:220-270 | The foldings of a constant operand of logical and and logical or keep the meaning |
| `TreeBuilder.BinMeans` | toolchain/ack/c1/ch3bin.c:384-405 | Folding or swapping the operands of a binary operator keeps the meaning when neither operand assigns what the other touches |
| `TreeBuilder.SwitchMeans` | toolchain/ack/c1/ch3bin.c:367-382 | The switched operator on switched operands gives the same |
| `TreeBuilder.CompilerCorrect` | toolchain/ack/c1/eval.c:93-762 | From the expression as written, through the tree that is built, to the machine: value and side effects are those of C |
| `TreeBuilder.FoldWords` | toolchain/ack/c1/cstoper.c:30-140 | cstbin on two ints is the machine operation on their words, on every host |
| `CExpr.EitherOrder` | toolchain/ack/c1/ch3bin.c:384-405 | Independent expressions give the same values and the same store in either order of evaluation |
| `CExpr.OnlyTouches` | toolchain/ack/c1/eval.c:93-762 | What an expression does depends only on the variables it touches |
| `CExpr.OnlyWrites` | toolchain/ack/c1/eval.c:93-762 | An expression changes only the variables it assigns |
| `CExpr.OpAssignIsAssign` | toolchain/ack/c1/eval.c:451-560 | x op= e and ++x are x = x op e where e leaves x alone; x++ does the same and has the old value |
| `CExpr.LogicIsCond` | toolchain/ack/c1/eval.c:666-720 | && and \|\| are the conditional expressions with 0 and 1 that leave the right side alone where the left decides |
| `CExpr.DeMorgan` | toolchain/ack/c1/eval.c:681-740 | ! of && and \|\| is the other one of the negated operands, side effects included |
| `CExpr.MinusIsSub` | toolchain/ack/c1/eval.c:93-762 | -e is 0 - e and ~e is ~0 - e |
| `CExpr.NotIsEqual` | toolchain/ack/c1/eval.c:721-740 | !e is e == 0 |
| `CExpr.CommaIsCond` | toolchain/ack/c1/eval.c:657-680 | A comma evaluates both sides and has the value of the right one, as e ? r : r does |
| `Ymodem.StopAndWait` | platform/epoch68/firmware/ymodem.c:238-445 | Against any sender that repeats blocks until it moves on, with any damaged packets between and block numbers only modulo 256: what has arrived is always the beginning of the file, and success means the whole file |
| `Ymodem.RunSafe` | platform/epoch68/firmware/ymodem.c:238-445 | For any packets at all, in every state: arrived plus remaining is the announced size, and nothing is copied behind the buffer unless the announced size is 2^32 - 1 |
| `Ymodem.CheckWraps` | platform/epoch68/firmware/ymodem.c:363-368 | The size check passes if and only if the file and its final zero byte fit the buffer or the size is 2^32 - 1 |
| `Ymodem.AcceptedNames` | platform/epoch68/firmware/ymodem.c:152-165 | A file sent unasked is accepted if and only if its name has 1 to 14 bytes without slash and parentheses and can be opened, one asked for under its own name only |
| `Ymodem.WrapOverruns` | platform/epoch68/firmware/ymodem.c:363-368 | For every buffer: metadata announcing 2^32 - 1 bytes is accepted and following blocks are copied behind the buffer |
| `Ymodem.CleanTransfer` | platform/epoch68/firmware/ymodem.c:238-445 | Sent once and undisturbed, a file that the target accepts arrives whole and success is reported, and the answers are C, ACK, C, an ACK for each block, ACK, C, ACK |
| `Ymodem.Transfer` | platform/epoch68/firmware/ymodem.c:238-445 | Receiver and sender together: against a sender that goes on at ACK and repeats at anything else, a transfer succeeds if and only if the trailer arrives undamaged, the answer to the end of file is heard and enough tries are free of faults; then the whole file has arrived and exactly one packet was sent for each block, metadata, end and trailer and one for each fault |
| `Ymodem.Answered` | platform/epoch68/firmware/ymodem.c:238-445 | ACK alone is answered if and only if a block was taken in or is the last one again or the trailer ends the transfer, NAK if and only if marker, header or CRC were damaged, and nothing else happens then, CAN if and only if the receiver gives up without having been cancelled, ACK and C if and only if metadata is accepted or the file ends |
| `Ymodem.MetaRoundTrip` | platform/epoch68/firmware/ymodem.c:112-149 | A name, a zero byte and the size in decimal are understood as that name and that size, for every size below 2^32 |
| `Ymodem.MetaUnderstood` | platform/epoch68/firmware/ymodem.c:124-149 | Metadata is understood if and only if a name of 1 to 63 bytes ends with a zero byte before the last byte of the packet |
| `Ymodem.ParseDecimal` | platform/epoch68/firmware/ymodem.c:112-122 | The loop computes the decimal value modulo 2^32 |
| `Ymodem.DataStep` | platform/epoch68/firmware/ymodem.c:398-443 | Taking in the last block again or the next one adds nothing or exactly the next piece of the file |
| `Ymodem.HandleKeeps` | platform/epoch68/firmware/ymodem.c:238-445 | One packet keeps the split of the file and the bounds of the buffer; success leaves a zero byte behind the file |
| `Ymodem.Receiver.Receive` | platform/epoch68/firmware/ymodem.c:238-445 | The loop over the line ends, with the result and the state of the packet-by-packet definition, replies included |
| `YmodemPacket.PacketRead` | platform/epoch68/firmware/ymodem.c:44-109 | Reads a packet as defined, with its markers, complement, silences and CRC, from any symbols on the line |
| `YmodemPacket.FrameRead` | platform/epoch68/firmware/ymodem.c:44-109 | A frame as a sender writes it is read as that block |
| `YmodemPacket.HeaderRefused` | platform/epoch68/firmware/ymodem.c:66-84 | A frame with any other byte for the complement is read to its end and rejected for its header |
| `YmodemPacket.Markers` | platform/epoch68/firmware/ymodem.c:50-65 | Bytes 4 and 24 are end of file and cancel, 1 and 2 start blocks of 128 and 1024 bytes, everything else is a bad marker |
| `YmodemPacket.BurstRejected` | platform/epoch68/firmware/ymodem.c:95-104 | A frame changed inside two adjacent payload bytes is rejected for its CRC and read to its end |
| `Crc16.Residue` | platform/epoch68/firmware/ymodem.c:186-214 | A payload with its own CRC behind it has the CRC zero |
| `Crc16.CrcIsRemainder` | platform/epoch68/firmware/ymodem.c:186-214 | The CRC is the remainder of the payload times x^16 by x^16 + x^12 + x^5 + 1 |
| `Crc16.RemainderOnce` | platform/epoch68/firmware/ymodem.c:186-214 | That division has one remainder only |
| `Crc16.BurstFound` | platform/epoch68/firmware/ymodem.c:186-214 | Two payloads that differ only inside two adjacent bytes never have the same CRC |
| `Crc16.ZerosIn` | platform/epoch68/firmware/ymodem.c:186-200 | Up to sixteen shifts that leave zeros at the end of the register shifted in zeros only |
| `Crc16.StaysDifferent` | platform/epoch68/firmware/ymodem.c:203-214 | Different CRCs stay different whatever equal bytes follow |
| `Crc16.YmodemUpdate` | platform/epoch68/firmware/ymodem.c:186-200 | The bit loop computes the update function |
| `Crc16.SdUpdate` | platform/epoch68/firmware/sd.c:30-41 | The version of the serial disk computes the same function |
| `Crc16.YmodemCrc` | platform/epoch68/firmware/ymodem.c:203-214 | The byte loop computes the CRC of the buffer |
| `MacroRescan.Scanner.Preprocess` | toolchain/ack/cpp/preprocess.c:439-532 | For all object-like macros and every source text rescanning ends, and the output is the normal form of the source under rewriting: one unmarked macro name after the other replaced by its body between blanks, marked inside it, in any order, until none is left; it is also the recursive expansion |
| `MacroSpec.ExpandIsFinal` | toolchain/ack/cpp/preprocess.c:439-532 | A normal form is reached, and every order of replacing ends in the same text, the expansion |
| `MacroSpec.NothingToReplace` | toolchain/ack/cpp/preprocess.c:505-532 | A text with nothing to replace comes out unchanged, but for separators inside replacements, which become blanks |
| `MacroSpec.OneMacro` | toolchain/ack/cpp/preprocess.c:439-532 | A macro whose body has no other macro names comes out as a blank, its body and a blank |
| `MacroRescan.Scanner.OneToken` | toolchain/ack/cpp/preprocess.c:439-506 | Each token leaves output and remaining work adding up to the same expansion, and strictly less to do |
| `MacroRescan.Scanner.EnableMacros` | toolchain/ack/cpp/replace.c:88-108 | Afterwards the list holds exactly one replacement for each input level from the current one down to 1, and the marks are those of the list |
| `MacroRescan.Scanner.Replace` | toolchain/ack/cpp/replace.c:39-63 | A macro is replaced exactly when it is defined and its text is not being read, and is then marked |
| `MacroRescan.MarksAreNames` | toolchain/ack/cpp/replace.c:39-63 | At every identifier the marked macros are exactly those whose texts are being read |
| `MacroRescan.Scanner.NestingBounded` | toolchain/ack/cpp/replace.c:55-61 | Replacements never nest deeper than there are macros |
| `MacroRescan.Scanner.GetTok` | toolchain/ack/cpp/input.c:49-55 | At the end of a text the input level drops and the input below comes back, without losing or repeating a token |
| `MacroRescan.DropStale` | toolchain/ack/cpp/replace.c:94-106 | The replacements of ended levels stand in front of those of the live ones |
| `MacroSpec.ExpandAppend` | toolchain/ack/cpp/preprocess.c:439-506 | The expansion of a text is that of its parts one after the other |
| `CondMachine.FileKept` | toolchain/ack/cpp/domacro.c:429-528 | For every properly nested file: push_if is fatal if and only if the nesting exceeds IFDEPTH + 1; otherwise the lines kept are those of the recursive meaning of #if, #elif, #else and #endif, with each condition evaluated only while no group was taken, and the nesting level returns; no error is reported, and the mark array stays in bounds if and only if the nesting is at most IFDEPTH |
| `CondMachine.Reported` | toolchain/ack/cpp/domacro.c:266-320 | For any lines not nested too deep: errors are reported if and only if some #elif, #else or #endif stands outside a conditional or some #elif or #else behind an #else, and one for each of them as long as no #elif stands behind an #else |
| `CondMachine.DieAll` | toolchain/ack/cpp/domacro.c:429-435 | Groups nested too deep for the level they stand at end in push_if, kept or skipped, with the array written up to index IFDEPTH |
| `CondMachine.NormalAll` | toolchain/ack/cpp/domacro.c:437-528 | The same inside any file at any level, with the marks of the enclosing levels untouched |
| `CondMachine.Search` | toolchain/ack/cpp/domacro.c:266-306 | While no group was taken each #elif is evaluated in turn and the first that holds, or the #else, is kept |
| `CondMachine.SkipTaken` | toolchain/ack/cpp/domacro.c:437-475 | After a taken group everything up to the matching #endif is passed over and nothing is evaluated |
| `CondMachine.SkipAll` | toolchain/ack/cpp/domacro.c:175-320 | Balanced lines are passed over without effect at every depth |
| `CondMachine.OneTooDeep` | toolchain/ack/cpp/domacro.c:429-435 | 257 nested conditionals are accepted and the mark of the innermost one is written behind the array |
| `CondMachine.Preprocessor.Process` | toolchain/ack/cpp/domacro.c:90-173 | The loops over the lines run the line-by-line machine, for any lines, nested or not; on a whole source no error is reported if and only if no line stands wrong |
| `CondMachine.Preprocessor.SkipBlock` | toolchain/ack/cpp/domacro.c:175-320 | Returns exactly when a line ends the skipping, at the end of the file, or after a fatal error |
| `Locals.Frame.NewLocal` | toolchain/ack/c1/util.c:76-118 | For every size, zero included: the offset is that of no local in use if and only if something is asked for, a free place fits, or the end of the frame is not aligned or not the offset of a local in use; the bucket table and the free list stay the flat sets they stand for if and only if, in that last case, no free place stands there either; the first free place that fits is taken before the frame grows; a place has the storage class and kind of register asked for, and a new one is made only if no free place with both is large and aligned enough |
| `Locals.Frame.FreeLocal` | toolchain/ack/c1/util.c:120-145 | A local in use leaves exactly the set of locals in use and heads the free list; any other offset changes nothing |
| `Locals.Frame.LocalsApart` | toolchain/ack/c1/util.c:76-145 | After any sequence of both, locals in use lie in the frame, aligned and sized as asked, and never overlap |
| `Locals.Frame.FrameCovers` | toolchain/ack/c1/code.c:414 | The rounded frame size at the end of the function covers every local in use |
| `Locals.Frame.LocalSpace` | toolchain/ack/c1/util.c:65-71 | A new place lies below everything before it, aligned, with less than one alignment of waste |
| `Locals.StillAligned` | toolchain/ack/c1/util.c:90-101 | A place aligned for a greater power of two serves a smaller one |
| `Locals.NothingShares` | toolchain/ack/c1/util.c:65-118 | A local of two bytes and then one of no bytes get the same offset |
| `Switch.SwitchStatement` | toolchain/ack/c1/switch.c:94-248 | Whatever the cases, their order and the width of the host integers, the single test, the dense table or the sparse table goes for every value of the type to the first case with that value, else to the default; the statement fails if and only if at least two values, close together, include the greatest host integer, which a host wider than the type excludes |
| `Switch.LongOverruns` | toolchain/ack/c1/switch.c:131-144 | On a host with 32-bit integers a switch on a long with cases 0x7ffffffe and 0x7fffffff runs past its case list |
| `Switch.Header.CodeCase` | toolchain/ack/c1/switch.c:176-248 | The list stays strictly sorted with exact bounds and count; a new value gets its label and no other value changes; a repeated value is an error and changes nothing |
| `Switch.Header.CodeEndSwitch` | toolchain/ack/c1/switch.c:94-174 | The table put out dispatches as the list says; building it fails exactly when the table is dense and the greatest host integer is a case |
| `Switch.Header.FillDense` | toolchain/ack/c1/switch.c:131-150 | The loop over all values between the bounds fills the dense table, unless its counter wraps |
| `Switch.IndexInRange` | toolchain/ack/c1/switch.c:131-150 | The unsigned index of the dense table is in range exactly for values between the bounds |
| `Switch.SearchIsLookup` | toolchain/ack/c1/switch.c:151-163 | Searching the sparse table by patterns finds the entry of the value |
| `StructLayout.Struct.AddField` | toolchain/ack/c1/struct.c:330-444 | Fields keep to bits of their word that no other field uses, and no field shares its word with an ordinary member, for any mixture of both and for both directions of packing; a width is rejected exactly when it is out of range; a field goes into the word of the field before if the widths there leave room, else into the next word, and its shift is the sum of the widths before it in its word, or that many bits from the other end |
| `StructLayout.Struct.FieldsIndependent` | toolchain/ack/c1/field.c:43-169 | In such a structure, writing one field makes its read give the value cut and sign-extended to its width, and changes the value of no other field |
| `BitField.AssignRuns` | toolchain/ack/c1/field.c:43-169 | The instructions for an assignment to a field store that word and leave, if wanted, the value that a later read gives |
| `BitField.ReadBack` | toolchain/ack/c1/field.c:131-169 | Reading a field after writing it gives the value cut to its width, bit by bit, signed and unsigned |
| `BitField.OthersKept` | toolchain/ack/c1/field.c:131-169 | Writing a field leaves every field with other bits of the word alone |
| `BitField.ExtractBits` | toolchain/ack/c1/arith.c:659-683 | The extracting expression gives exactly the bits of the field, extended by its sign |
| `BitField.Effective` | toolchain/ack/c1/field.c:112-128 | The value left on the stack by an assignment is the one a read will give |
| `TokenFile.ThroughTheFile` | toolchain/ack/as/comm5.c:24-276 | For every sequence of tokens, what the later passes read is what pass 1 wrote: the same tokens with the same values in the same order, then the end |
| `TokenFile.Lossless` | toolchain/ack/as/comm5.c:24-276 | At the place of each token in the file exactly that token is read and the next place reached |
| `TokenFile.RoundTrip` | toolchain/ack/as/comm5.c:102-276 | Each kind of token is read back with its value, on hosts with 32-bit and with 64-bit values: numbers in 0 to 4 or 8 bytes, code, references, texts, operators and keywords |
| `TokenFile.NumberBack` | toolchain/ack/as/comm5.c:194-243 | A number written in the counted bytes is read back, negative ones through all the bytes of the host value |
| `TokenFile.LengthSize` | toolchain/ack/as/comm5.c:150-164 | A text length below 2^32 takes at most four bytes |
| `TokenFile.TempFile.PutTok` | toolchain/ack/as/comm5.c:102-192 | The loops write the bytes of the token |
| `TokenFile.TempFile.GetTok` | toolchain/ack/as/comm5.c:70-99 | The loops read a token as it is laid out |

## Left out

File system:

- V7Io.V7Io.Read: byte contents are stated for files without holes; a hole reads as nothing in this code.
- V7Io.V7Io.WriteI: the new contents are stated for offsets within the file, as writing beyond its end makes holes.
- V7Calls.Write: the handle is opened again for each write, and files that are open are not unlinked between: one live handle for each inode.
- V7Calls.MakeFs: mkfs has its own copies of alloc, bfree and the writing of inodes; here the ones of the file layer do that work in the same order of blocks; times and owners are left out.
- V7Run.RunInTree: the link count of a directory is bounded on both sides, and exact by V7Links.ExactLinks while every directory has a name. It is not always 2 plus the directories whose parent entry it is: when a directory that a failed mkdir left without a name loses its parent to rmdir, and the parent's inode number is used again, it counts for the new directory too.
- Disk, buffers and inode list are sequences in fields of one object, so two names for one buffer cannot arise; a block is what was last written into it (bytes, addresses, chain, inodes or superblock), and reading it as another kind gives zeros.
- Packing of disk addresses into three bytes (l3tol, ltol3) is not part of this model and taken to lose nothing.
- Owners, groups, modes other than the file type, times, chmod, chgrp, chown, exists and the table of handles.
- Device nodes opened as files, raw devices and a second mounted file system.
- s_tinode is carried along without a claim that it counts the free inodes.
- Path strings are given as lists of components: the empty component inside a//b, which find treats in its own way, and the parsing of unit names before a path are left out.
- mknod with a mode that is none of regular file, directory and the two device kinds is left out.

Assembler:

- Branches to a label plus a constant, bsr to the next instruction and the size choices of add, move and pc-relative operands: they use the same decision table in the same way.
- Sections with a base and common symbols.
- TokenFile.RoundTrip: a file that was cut short by another program is read as ended; the source reads end-of-file marks as bytes there.

C front end:

- EvalCode.Correct: integer expressions of word size on simple variables; longs, pointers, floating point, calls, structures and volatile are left out, and an op= whose operator does not commute must not assign its own variable on the right, which C leaves undefined.
- TreeBuilder.BuildMeans: nothing is claimed where C defines nothing (division by zero, a quotient out of range, shifts by the width or more, unsequenced assignments); unary minus on a constant is kept as an operation, because its folding does not cut the result; opnd2test compares as signed, which is the same for inequality.
- ConstFold.Expr.CstBin: shift counts are below the width of the host, as more is undefined there.
- Locals.Frame.NewLocal: register accounting and its counts are left out, and what happens in a frame after two locals got one offset.
- Switch.SwitchStatement: the counter that passes the greatest host integer is taken to wrap around, which is what the code compiled for the target does; the statement fails at the end of the list.
- StructLayout.Struct.AddField: plain int fields of a named selector; zero-width fields, other field types and unions are left out.
- BitField.AssignRuns: assignment only; op= and ++ on a field read and write it through the same two pieces of code.

Receiver:

- Ymodem.ParseDecimal: stops at the end of the packet. The source reads on in its buffer if the size has no end in the packet, as its strlen does for the name if there is no zero byte.
- Ymodem.Transfer: faults are damaged packets and answers that the sender does not hear; a packet that does not come at all makes the receiver give up, as Ymodem.Answered says.
- Ymodem.Receiver.Receive: time-outs are silences on the line; console output, the request that is sent and the naming of the target file are left out, and whether the file can be opened and how much it accepts are parameters.

Preprocessor:

- MacroRescan.Scanner.Preprocess: object-like macros over tokens; parameters, # and ##, the marks for arguments and the reading of characters into tokens are left out.
- CondMachine.FileKept: conditions are any function of the lines kept so far; directives with malformed text and #include nesting are left out.
- CondMachine.Reported: how many errors follow an #elif behind an #else is stated as at least one, because the mark of the level is cleared only where that #elif is not skipped.

Code generation (c2), the archiver, the driver, host tools, the monitor's commands and everything that talks to hardware are not part of this model.
