# Verified model of the Vtx2 kernel's core

Vtx2 is a small x86-64 kernel. This project models the six components that carry its invariants
and proves what they promise. Each component is a few Dafny modules, one per file.

**VTX2FS, the file system** (`src/vtx2fs.c`, `src/vtx2fs.h`). The device is a sequence of blocks with an
indivisible block write; the ghost log of a device lists its writes, and a power cut is a prefix of them.

* `Layout`, `Bytes`, `Arith`, `Seqs`: packed structures, block arithmetic, bits, uint32 and uint64 images.
* `Hash`: FNV-1a, and what it keeps apart.
* `JournalBytes`, `JournalStream`, `JournalRecord`: the journal as one flat byte array, what every prefix of
  its block writes leaves behind, and the record of a transaction.
* `Recovery`, `CrashSafety`, `CrashTheorems`: replay, and crash atomicity of sessions.
* `Wrap`, `Laps`, `WrapWitness`, `Cleaning`: exactly what goes wrong after the log has started over, on every
  volume and on a concrete one, and power cuts while replay cleans the log.
* `Volumes`: the device, the mounted volume with its two scratch buffers and journal cursor, and the session's
  books (`history` holds every state the volume went through, `exposed` records that the log wrapped, `lap` and
  `prev` are the transactions of the current lap and of the one before).
* `Bitmap`, `Allocator`: the block bitmap and the first-fit allocator.
* `Entries`, `Files`, `Ownership`, `Contents`, `FileReads`, `FileGrowth`, `FileWrites`, `WriteLemmas`,
  `WriteFile`: entries, extents, block ownership, file bytes, `vtx2_read` and `vtx2_write`. `OwnOk` says that
  files own their blocks alone and that a bit is set exactly for metadata, padding, owned and leaked blocks.
* `Names`, `Tree`, `Directory`, `EntryOps`, `DeleteEntry`, `Runs`: the directory tree in the flat table,
  create, list, truncate, delete, and whole runs of calls with power cuts.
* `Superblock`, `SuperblockChecks`, `FormatLayout`, `FreshVolume`, `Format`, `Mount`: format and mount, what
  mount's checks leave open, and the full circle of format, session, power cut and mount.
* `Cipher`, `Encryption`: keys, the position-keyed XOR stream, encrypted files.

**Page allocator** (`src/pmm.c`): `Pmm` (the bitmap as a value), `Pages` (the allocator).
**Kernel heap** (`src/kheap.c`): `Heap`, `HeapArenas`, `HeapSteps` (headers in memory, arenas, steps), `Kheap`.
**Paging** (`src/paging.c`): `Paging` (tables and the processor's walk), `PageTables`.
`SharedPages` puts heap and page tables on one page allocator; `Platform` holds the page size.
**xHCI rings** (`src/xhci.c`): `TrbWindow`, `CommandRing`, `EventRing`, with the controller as the other party.
**Scheduler** (`src/task.c`): `Scheduler` (a machine over ticks, creations and exits), `TaskRing` (pool and links).

Integers are unbounded where the code does not come near its width; elsewhere the width is written out
(`% TWO_32`, `% TWO_64`) or a precondition excludes the wrap of a 64-bit sum. Where the code falls short of what it
is for, the code is kept, the exact condition under which it works is proved, and an input on which it fails is given:

* a log that has started over: `Volumes.ReplayNow`, `WrapWitness.OldContentsReturn`;
* a power cut in the cleaning loop: `Cleaning.PowerCutWhileCleaning`;
* a power cut inside a delete: `DeleteEntry.Delete`, `Runs.CrashDuringRun`;
* what mount does not check: `SuperblockChecks.WhatMountAssumes`, `SuperblockChecks.AcceptedButBroken`;
* entry indices behind the table: `Format.IndexInTable`, `Format.CapacityTooLarge`;
* a memory map that offers a page twice: `Pmm.TallyExact`, `Pmm.SharedPageCountedTwice`;
* too few pages for `paging_init`: `PageTables.AddressSpace.PagingInit`;
* one request too many on a ring: `CommandRing.OneTooMany`, `CommandRing.OneTooManyHappens`;
* a task whose stack could not be allocated: `TaskRing.FailedCreateIsDispatched`, `TaskRing.FailedCreateBreaksRing`.

`dafny verify dfyconfig.toml` checks the whole project.

## Where the code and its comments differ

The model follows the code in each case.

* `src/vtx2fs.h:205` calls the transaction number increasing; `src/vtx2fs.c:351` derives it from the log offset.
* `src/vtx2fs.h:206-207` gives a commit header the number of records; the code leaves the field 0.
* `src/vtx2fs.h:198-200` describes a replay of the transactions found not yet applied; `src/vtx2fs.c:378-438`
  applies every committed one it reads.
* `src/vtx2fs.h:174` hashes password, salt and tag for the verifier; `src/vtx2fs.c:988-996` hashes the key,
  salt and tag.

## Model

| member | source | states |
|---|---|---|
| Bytes.PutBitOf | src/vtx2fs.c:564-565 | Setting or clearing bit k of a byte changes bit k and no other. |
| Bytes.PutBitValue | src/vtx2fs.c:564-565 | Bit k of a byte counts 2^k, and setting or clearing it replaces exactly that. |
| Bytes.XorByteTwice | src/vtx2fs.c:1021-1026 | XOR with the same byte twice gives the first byte back. |
| Bytes.XorBits | src/vtx2fs.c:1021-1026 | A bit of a XOR is set where the bits of the operands differ. |
| Hash.OneByteTells | src/vtx2fs.c:43-51 | Byte strings that differ in exactly one byte have different FNV-1a hashes, from any starting value. |
| Hash.FnvApart | src/vtx2fs.c:43-51 | Different starting values give different hashes of the same string. |
| Hash.KnownHashes | src/vtx2fs.c:43-51 | The published FNV-1a values of the empty string and of "a". |
| Bytes.LERoundTrip | src/vtx2fs.c:13-17 | A number copied into a k-byte little-endian field and read back is the number modulo 256^k. |
| Entries.ExtentRoundTrip | src/vtx2fs.h:131-134 | The 16-byte image of an extent decodes to the extent. |
| Entries.EntryRoundTrip | src/vtx2fs.h:147-188 | The 292-byte image of any entry that fits its fields decodes to the same entry. |
| Entries.DecodedFits | src/vtx2fs.h:147-188 | Whatever 292 bytes the table holds, the decoded entry fits its fields. |
| Files.TablePut | src/vtx2fs.c:470-486 | Copying an entry into its slot of its table block changes that slot of the table and no other. |
| Format.IndexInTable | src/vtx2fs.c:453-468 | The block that the index arithmetic names lies in the table exactly for indices below blocks times entries per block. |
| Format.CapacityTooLarge | src/vtx2fs.c:111 | The smallest volume as a counterexample: the capacity check lets index 4 pass, whose block is the first data block. |
| JournalBytes.FlatSlice | src/vtx2fs.c:267-290 | Bytes inside block q of the journal are the bytes at the matching place of one flat array. |
| JournalBytes.FlatSplice | src/vtx2fs.c:293-320 | A read-modify-write of part of block q is a store into the flat array at the matching place. |
| Volumes.Volume.JournalReadBytes | src/vtx2fs.c:267-290 | The blockwise read of any byte range returns that slice of the flat log. |
| Volumes.Volume.JournalWriteBytes | src/vtx2fs.c:293-320 | The blockwise write stores the bytes into the flat log at the offset, touches nothing outside the journal, and makes exactly the listed block writes. |
| JournalStream.ChunkWritesStream | src/vtx2fs.c:293-320 | After any prefix of those block writes the log holds an 8-aligned prefix of the new bytes, so no magic or length field is ever split. |
| JournalRecord.BeginDecodes | src/vtx2fs.c:348-354 | A begin header decodes to magic, transaction number, target, length and checksum as stored. |
| JournalRecord.RecordCut | src/vtx2fs.c:348-370 | A record cut at any 8-aligned byte either adds the transaction to the log or leaves the list of committed records as it was; no property of the hash is used. |
| Recovery.HoldsParses | src/vtx2fs.c:385-425 | Replay reads a committed record back as its target and contents. |
| Recovery.BlankParses | src/vtx2fs.c:385-420 | Replay stops at a slot without a commit magic, whatever else lies there. |
| Recovery.DamagedStops | src/vtx2fs.c:404-412 | A record with one changed byte in its payload or its checksum is refused: replay stops there. |
| Recovery.ReplayFolds | src/vtx2fs.c:378-438 | Replay of a log that lists ws is the ordered application of ws; it succeeds and reports whether it applied anything. |
| Volumes.Volume.ReadRecord | src/vtx2fs.c:385-420 | One turn of the scan, with its early exits, accepts exactly what the parsing function accepts and leaves the payload in the buffer. |
| Volumes.Volume.JournalReplay | src/vtx2fs.c:378-438 | The replay loop equals the replay function and zeroes the journal exactly if something was applied. |
| Volumes.Volume.ZeroBlocks | src/vtx2fs.c:65-72 | Exactly the given blocks become zero. |
| CrashSafety.LogWritesStream | src/vtx2fs.c:348-370 | The three pieces of one transaction stream its whole record into the log, prefix by prefix. |
| CrashSafety.TxnCut | src/vtx2fs.c:331-376 | A power cut among the log writes of a transaction leaves every metadata block alone and the log with or without the new record. |
| CrashTheorems.SessionInvariant | src/vtx2fs.c:331-376 | After any list of journaled and plain writes without a wrap the device shows their result and the log lists the transactions. |
| CrashTheorems.CrashAtomicity | src/vtx2fs.c:331-438 | Cut a session at any block write and replay: the volume is what the first k writes, each whole, would have made it; k covers every finished write. |
| CrashTheorems.ReplayRecovers | src/vtx2fs.c:378-438 | Replay of any such device succeeds and leaves the promised volume. |
| CrashTheorems.ReplayRestarts | src/vtx2fs.c:378-438 | A second crash among the writes of replay, before cleaning starts, is harmless: replaying again gives the same volume. |
| CrashTheorems.FoldAgain | src/vtx2fs.c:423-429 | Replay is idempotent: applying any prefix of the list and then the whole list is applying the list. |
| Volumes.Volume.JournalWriteTransaction | src/vtx2fs.c:331-376 | The target block holds the data afterwards, everything else is unchanged, one step is added to the session, and the wrap or bypass that ends crash cover happens exactly when the record does not fit; the lap gains the transaction, or starts over with it while the full lap becomes the previous one. |
| Volumes.Volume.Store | src/vtx2fs.c:870-875 | A data block is written directly; everything else is unchanged. |
| Volumes.CrashPoint | src/vtx2fs.c:331-438 | At any power cut in a session whose log did not wrap, replay gives one of the states the session went through, and no finished step is lost. |
| Volumes.ReplayNow | src/vtx2fs.c:378-438 | What replay makes of any mounted volume as it is, after any number of laps: the volume itself while the log has not wrapped; afterwards the volume itself if and only if no record left from the lap before disagrees with one of this lap. |
| Wrap.OverwriteSlot | src/vtx2fs.c:342-361 | After the log starts over, a record takes the place of an older one and the records behind it stay. |
| Wrap.ReplayAfterWrap | src/vtx2fs.c:342-344 | With newer records below older ones, replay leaves the volume right if and only if no leftover record disagrees with a newer one about some block. |
| Wrap.ReplayOfWrappedLog | src/vtx2fs.c:378-438 | The same for replay on the device. |
| Laps.LapGrows | src/vtx2fs.c:346-376 | In any lap, a transaction with room in the log adds its record to the lap, over a record of the lap before if one lies there, and every record of both laps stays carried out. |
| Laps.LapWraps | src/vtx2fs.c:342-344 | When the log is full and starts over, the lap becomes the previous one and nothing else changes. |
| Laps.ReplayOfLaps | src/vtx2fs.c:378-438 | Replay of such a log succeeds, applies this lap and then what is left of the lap before, and leaves the volume as it is if and only if none of the leftovers disagrees with this lap. |
| WrapWitness.OldContentsReturn | src/vtx2fs.c:342-344 | The volume that format makes of 64 blocks of 512 bytes: three transactions fill its log, a fourth starts it over; the device shows the newest contents of the table block, and replay puts the older ones back. |
| Cleaning.CleanedBlank | src/vtx2fs.c:65-72 | With its first bytes zeroed, the log is clean exactly when the zeros have passed the commit magic of the last record. |
| Cleaning.CutInCleaning | src/vtx2fs.c:432-435 | At any block of the cleaning loop, replay gives the volume as it was; from the first block on it applies nothing and leaves stale records where they are. |
| Cleaning.PowerCutWhileCleaning | src/vtx2fs.c:378-438 | A mount that loses power in its cleaning loop: the next mount shows the same volume, and finds a clean log if and only if the last record's commit magic is gone. |
| Allocator.BitmapSet | src/vtx2fs.c:550-568 | Exactly the bit of the block is rewritten, in one transaction; a block beyond the bitmap is refused. |
| Allocator.AllocBlocks | src/vtx2fs.c:573-615 | First fit: the least start of a free run in the data area, exactly those bits set, NO_SPACE exactly when no run exists, through the lazily cached scan. |
| Allocator.FreeBlocks | src/vtx2fs.c:617-625 | Exactly those bits are cleared and the hint grows by the count. |
| Allocator.CacheReads | src/vtx2fs.c:582-597 | The cached bitmap block answers for every block whose bit it holds. |
| Allocator.ScanFound | src/vtx2fs.c:599-609 | When the run reaches the wanted length, its start is the least fitting one. |
| Bitmap.BitImageUsed | src/vtx2fs.c:550-568 | Rewriting the bit of one block changes the use of that block and of no other. |
| Bitmap.AllocCount | src/vtx2fs.c:573-615 | Taking a free run lowers the number of free blocks by exactly its length. |
| Bitmap.FreeingCount | src/vtx2fs.c:617-625 | Freeing a run of used blocks raises it by exactly the length. |
| FileReads.ReadEntry | src/vtx2fs.c:453-468 | Returns the entry at the index, or ERR_INVALID exactly from the capacity on; an index behind the table but below the capacity decodes whatever block lies there. |
| FileGrowth.WriteEntry | src/vtx2fs.c:470-486 | The table changes at this index only, and only table blocks change, in one transaction. |
| FileReads.GetExtent | src/vtx2fs.c:631-649 | Extent n, direct or indirect, or ERR_INVALID exactly when there is no such record. |
| Contents.PositionInExtent | src/vtx2fs.c:771-790 | The block computed from the extent that holds byte pos is block pos / size of the file. |
| FileReads.FindExtent | src/vtx2fs.c:764-786 | The search finds the extent of every byte below the capacity; it never fails there. |
| FileReads.ReadBytes | src/vtx2fs.c:764-797 | The copy loop of a read gathers exactly the wanted bytes over block and extent borders. |
| FileReads.Read | src/vtx2fs.c:743-799 | Returns exactly the bytes of the file from the offset on, up to the length and the end of the file; error cases as coded. |
| FileReads.ReadSlice | src/vtx2fs.c:756-757 | How many bytes a read returns, and which: byte k of the result is byte offset + k of the file. |
| FileGrowth.Reserve | src/vtx2fs.c:573-615 | Seen from the files: the new blocks are nobody's, no file changes, the exact free count is kept, and every state on the way is sound and has every data block as before. |
| FileGrowth.AppendIndirect | src/vtx2fs.c:665-679 | The new record lands where get_extent looks for it and the earlier ones stay. |
| FileWrites.AppendExtent | src/vtx2fs.c:651-683 | The exact outcome; the file gains the extent's blocks at its end and owns a new indirect block if one was needed; on an error nothing changed; no state on the way touches another data block. |
| WriteFile.Grow | src/vtx2fs.c:821-839 | The growth step of a write: it fails exactly when no run of free blocks is long enough, the records are used up, or six extents are in use and the run takes the last free block; then the undo leaves ownership, table and data as before. |
| WriteFile.CapacityOf | src/vtx2fs.c:811-818 | The capacity loop yields the number of blocks times the block size. |
| WriteFile.CopyIn | src/vtx2fs.c:842-878 | The copy loop stores the data at the offset of the file's bytes, over block and extent borders, and changes no other block; in every state on the way each block is as before or final; bytes in a gap keep what the blocks held. |
| WriteFile.WriteBytes | src/vtx2fs.c:801-890 | After growing, copying and updating the size, the file's bytes are those its old and added blocks held, with the data stored over them: a gap shows whatever its blocks held. |
| WriteFile.FailedState | src/vtx2fs.c:826-837 | Every state of a write that fails shows all contents as they were. |
| WriteFile.GrowthState | src/vtx2fs.c:821-839 | Every state of the growth step shows the old table and all contents; of the file's own blocks only the one with the extent records may have changed. |
| WriteFile.CopyState | src/vtx2fs.c:842-878 | Every state of the copy loop shows all other files' contents, and each of the file's blocks old or new. |
| WriteFile.WriteAt | src/vtx2fs.c:801-890 | The whole write: the contents are determined byte for byte, gaps included; the range holds the data, old bytes elsewhere stay, size is the maximum, the file gains exactly the blocks it lacked, other files are unchanged, ownership and the exact free count hold; NO_SPACE exactly when the file has to grow and cannot, and on any error nothing visible changed; every state in between is sound, shows the old entry or the new one and all other files' contents, and has each block of the file wholly old or wholly new. |
| WriteFile.MissingLeast | src/vtx2fs.c:821-824 | The blocks a write adds are the fewest that let the file reach its new end. |
| WriteLemmas.ChunkInFile | src/vtx2fs.c:855-876 | Storing a chunk into the block of its position is storing it into the file's bytes. |
| WriteLemmas.EntryOwn | src/vtx2fs.c:880-889 | With the entry written, the pending blocks belong to the file: ownership holds without leaks. |
| WriteLemmas.OthersUntouched | src/vtx2fs.c:801-890 | Files whose blocks were not touched keep entry, block list and contents. |
| Ownership.BitsPut | src/vtx2fs.c:550-568 | Setting bits of free blocks, in any partial order, only leaks blocks. |
| Ownership.SeparateUpdate | src/vtx2fs.c:651-683 | A new block list from the file's own and from unreferenced blocks keeps all lists disjoint. |
| Names.StrLenBounded | src/vtx2fs.c:28-32 | The bounded length of a C string. |
| Names.NameCopy | src/vtx2fs.c:34-41 | The field holds the given C string, cut after 111 characters, and NUL in every byte behind it. |
| Names.ReadsBack | src/vtx2fs.c:34-41 | Such a field, read as a C string, is the given name, cut after 111 characters. |
| Names.SameName | src/vtx2fs.c:34-41 | Two names of up to 111 characters are stored alike if and only if they are equal up to their NUL. |
| Tree.TreeCreate | src/vtx2fs.c:689-729 | A new entry in a free slot below a live directory without that name keeps the tree: live parents, chains to the root, siblings in the clear with different C strings as names, names padded with NUL. |
| Tree.TreeDelete | src/vtx2fs.c:1158-1192 | Freeing a childless entry keeps the tree. |
| Tree.TreeUpdate | src/vtx2fs.c:1028-1050 | Rewriting an entry in place with the same kind and parent keeps the tree; the name may become encrypted. |
| Tree.ChildrenAll | src/vtx2fs.c:892-926 | The listing holds every child once, in table order, and nothing else. |
| Directory.FindFreeEntry | src/vtx2fs.c:488-510 | The first free slot of the table, or NO_SPACE exactly when there is none. |
| Directory.FindChild | src/vtx2fs.c:512-544 | A child that holds this name, character for character and NUL behind it, or none exactly when no child does. |
| Directory.TakenExactly | src/vtx2fs.c:512-544 | In a tree in order a name is found if and only if a child in the clear has it, up to its NUL, or the stored bytes of an encrypted name happen to be it. |
| Directory.ListDir | src/vtx2fs.c:892-926 | Counts exactly the children and returns the first of them up to the limit; error cases as coded. |
| EntryOps.CreateEntry | src/vtx2fs.c:689-729 | The outcome in the order of the checks, lengths taken up to the NUL, ERR_EXISTS exactly when a child holds this name; on success the least free slot becomes an entry of this kind, name and parent that is zero in every other field; nothing else changes, ownership, tree and free count hold. |
| EntryOps.CreateOutcome | src/vtx2fs.c:689-711 | Each outcome of a creation exactly under its condition. |
| EntryOps.NewEntry | src/vtx2fs.c:713-722 | The new entry: kind, parent, the name with NUL behind it, zero elsewhere. |
| EntryOps.TakenAfterCreate | src/vtx2fs.c:689-729 | After a creation exactly this name is found in addition, and no other name is. |
| EntryOps.CreateFile | src/vtx2fs.c:731-735 | The same for files. |
| EntryOps.Mkdir | src/vtx2fs.c:737-741 | The same for directories. |
| EntryOps.Truncate | src/vtx2fs.c:933-943 | The file keeps its blocks and a prefix of its contents; growth is refused; other files are unchanged. |
| DeleteEntry.FreeFile | src/vtx2fs.c:1175-1184 | Exactly the blocks of the file's extents and its indirect block are freed, one state for each of them, and every one of these states is unsound. |
| DeleteEntry.FreedUnsound | src/vtx2fs.c:1173-1191 | While the entry still refers to a freed block the volume is not sound. |
| DeleteEntry.Delete | src/vtx2fs.c:1158-1192 | Error cases in order; a directory goes if and only if it has no child; the slot is blank, exactly its blocks are free, nothing else moves; of the states on the way, one for each block and one for the slot, only the last is sound. |
| Runs.Perform | src/vtx2fs.c:689-943 | What a call does to the volume, with its result, exactly; every call keeps ownership, tree and exact free count; every state on the way has a whole tree, and in every state every file owns its blocks if and only if the call is no delete or the state is its last. |
| Runs.Run | src/vtx2fs.c:689-1192 | Over any run of calls from the start of a session every call had its exact outcome, from the state it began in to the state it ended in; and the states in which a crash may find a file without its blocks are exactly those strictly inside a delete. |
| Runs.CrashDuringRun | src/vtx2fs.c:331-438 | A power cut at any block write of any run without a wrap: after replay the volume is a state of the run that loses no finished step, the tree is whole, and every file owns its blocks if and only if that state does not lie strictly inside a delete. |
| Superblock.SuperblockRoundTrip | src/vtx2fs.h:96-128 | The 512-byte image decodes to the fields it was made of and carries its signature and checksum. |
| Superblock.DamagedRefused | src/vtx2fs.c:239-240 | A superblock with one changed byte in the fields under the checksum, or in the checksum, is not accepted. |
| SuperblockChecks.WhatMountAssumes | src/vtx2fs.c:234-249 | Of a superblock that mount accepts, exactly seven demands on the geometry are left open. |
| SuperblockChecks.AcceptedButBroken | src/vtx2fs.c:234-249 | For each of the seven a signed superblock that mount accepts and that fails this demand only. |
| SuperblockChecks.TableEndWraps | src/vtx2fs.c:246-248 | The check on the table's end wraps: a table behind every block passes it. |
| FormatLayout.LayoutFits | src/vtx2fs.c:94-112 | For every total of at least 64 blocks and every valid block size the layout leaves a data area and a table: the later NO_SPACE exits are never taken. |
| FormatLayout.LayoutValid | src/vtx2fs.c:94-112 | The regions follow one another without gap, the bitmap has a bit for every block, one transaction fits into the journal, every field fits its width. |
| FormatLayout.LayoutExact | src/vtx2fs.c:94-111 | The exact sizes: the fewest bitmap blocks, one journal block for every 256 blocks and one table block for every 128 within their bounds, as many entries as the table has bytes for. |
| Format.BorderByte | src/vtx2fs.c:164-173 | The border byte has exactly the bits of metadata and padding set. |
| Format.BitmapByte | src/vtx2fs.c:148-174 | Every byte of the bitmap, by any of the four branches, has exactly those bits set. |
| Format.WriteBitmap | src/vtx2fs.c:144-178 | All bitmap blocks are written with those bits; no other block changes. |
| FreshVolume.FreshUsed | src/vtx2fs.c:139-178 | Block b is free in the fresh bitmap exactly for data_start <= b < total. |
| FreshVolume.ZeroClean | src/vtx2fs.c:114-116 | A zeroed journal holds no record: a session can begin. |
| FreshVolume.FreshFsOk | src/vtx2fs.c:118-178 | A fresh volume has its root "/" alone, every block accounted for and no leak. |
| FreshVolume.FreshHint | src/vtx2fs.c:196 | The recorded free count equals the number of clear bits. |
| Format.FormatDevice | src/vtx2fs.c:82-207 | Refuses exactly the invalid block sizes and totals below 64; otherwise the device is a consistent empty volume with clean log and exact counts. |
| Mount.MountDevice | src/vtx2fs.c:213-260 | Each error exactly under its condition; on a device whose replay leaves v, mount succeeds and shows v; if the device can be recovered to v, the log is clean as well and a session begins. |
| Mount.FormatAndMount | src/vtx2fs.c:82-260 | After format, mount accepts the superblock, returns the same fields and starts a session on an intact volume with exact free count. |
| Mount.SuperblockSurvives | src/vtx2fs.c:331-376 | No write of a session touches the superblock. |
| Mount.MountAfterPowerCut | src/vtx2fs.c:213-260 | A power cut at any block write of a session of calls, then mount: it succeeds with the same fields, the volume is one of the session's states, no finished step is lost, the tree is whole, and files own their blocks if and only if the state does not lie strictly inside a delete. |
| Cipher.DeriveKey | src/vtx2fs.c:971-986 | The nested loops compute the key function of password and salt. |
| Cipher.CheckPassword | src/vtx2fs.c:998-1005 | Accepts exactly the stored verifier. |
| Cipher.KeySeesPassword | src/vtx2fs.c:971-986 | Changing one character of the password, up to 256 of them, changes each of the eight words of the key. |
| Cipher.KeySeesSalt | src/vtx2fs.c:971-986 | So does changing one byte of the salt. |
| Cipher.WordsDiffer | src/vtx2fs.c:976-984 | The eight words of a key differ from each other. |
| Cipher.VerifierSeesKey | src/vtx2fs.c:988-1005 | A key that differs in one byte has another verifier. |
| Cipher.VerifierSeesSalt | src/vtx2fs.c:988-996 | So has another salt beside the same key. |
| Cipher.XorCryptBuffer | src/vtx2fs.c:1021-1026 | In place, the first len bytes are combined with the stream from the start position; the rest stays. |
| Cipher.CryptTwice | src/vtx2fs.c:1021-1026 | Encrypting twice gives the plain bytes back. |
| Cipher.CryptChanges | src/vtx2fs.c:1021-1026 | A byte stays as it is exactly where the stream is 0. |
| Cipher.StreamReaches | src/vtx2fs.c:1007-1019 | Under every key every byte value occurs in the stream, at some position below 2^32. |
| Cipher.CryptSlice | src/vtx2fs.c:1007-1026 | Any piece can be encrypted on its own, from its own position. |
| Cipher.SealedOpens | src/vtx2fs.c:1028-1050 | The password an entry was made with is never rejected, and decrypting gives its name back; another password passes only if it has the same verifier. |
| Cipher.DecryptName | src/vtx2fs.c:1143-1156 | Rejects exactly the passwords the verifier rejects; otherwise the clear or the decrypted name. |
| Cipher.SaltSource.Generate | src/vtx2fs.c:958-969 | Sixteen bytes of the generator from the mixed counter, and the next counter. |
| Cipher.KnownStates | src/vtx2fs.c:965 | The generator gives the known first numbers of the ANSI C generator from seed 1. |
| Cipher.StatesApart | src/vtx2fs.c:958-968 | From different mixed counters the generator never comes to the same state after equally many steps. |
| Encryption.FinishEncryptedEntry | src/vtx2fs.c:1028-1050 | The entry is sealed in place; ownership, tree and other files are kept. |
| Encryption.CreateEncrypted | src/vtx2fs.c:1052-1074 | Outcome as for the plain call; the new entry is sealed, opens with its password, decrypting its name gives the name asked for with NUL behind it, and every state on the way is crash safe. |
| Encryption.ReadEncrypted | src/vtx2fs.c:1076-1099 | The slice of the plain contents for every password the entry accepts, and an error for every other. |
| Encryption.WriteEncrypted | src/vtx2fs.c:1101-1141 | In pieces of 512 bytes: the plain contents hold the data in the range and old bytes elsewhere; on an error exactly the finished pieces are in; it fails for lack of space only in a state of the volume in which the next piece makes the file grow and it cannot, and never when the file has the blocks. |
| Encryption.WrittenTwice | src/vtx2fs.c:1121-1136 | Two adjacent writes are one write of both pieces. |
| Encryption.PlainWritten | src/vtx2fs.c:1121-1136 | Ciphertext written at its position is plain text written at its position. |
| Encryption.EncryptedRoundTrip | src/vtx2fs.c:1076-1141 | Once an encrypted write has put its data in, the entry still accepts the same passwords, and what an encrypted read of any sub-range returns is the matching slice of the data. |
| Pmm.FreeWithPage | src/pmm.c:18-28 | Setting or clearing a page's bit takes that page from the free set or adds it, and no other. |
| Pmm.EveryPageOnce | src/pmm.c:68-72 | The rotating search looks at every page, and at each only once. |
| Pmm.GoingRound | src/pmm.c:68-77 | The first free page met going round is the least at or behind the cursor, or else the least. |
| Pmm.HighestEndIs | src/pmm.c:58-61 | The total is the end of the highest conventional region within the limit. |
| Pmm.TallyExact | src/pmm.c:43-56 | The count initialisation arrives at is the number of free pages if and only if the memory map offers no page twice. |
| Pmm.SharedPageCountedTwice | src/pmm.c:43-56 | Two regions that share a page: three pages are offered, four are counted. |
| Pages.PageAllocator.constructor | src/pmm.c:30-66 | The free pages are exactly those some conventional descriptor offers, page 0 and untracked pages excepted; the total and the cursor as coded. |
| Pages.PageAllocator.TakeDescriptor | src/pmm.c:43-62 | One descriptor frees and counts exactly the pages it offers. |
| Pages.PageAllocator.AllocPage | src/pmm.c:68-79 | The least free page at or behind the cursor, else the least free page; 0 exactly when no page is free; the page overlaps no live allocation. |
| Pages.PageAllocator.FreePage | src/pmm.c:81-88 | Frees the page, or nothing when it is out of range or free already; the exact count is kept. |
| Pages.PageAllocator.AllocContiguous | src/pmm.c:90-114 | The least run of the wanted length; 0 exactly when there is none; it overlaps no live allocation. |
| Pages.PageAllocator.FreeContiguous | src/pmm.c:116-127 | Frees exactly the pages of the range and counts those that were in use. |
| Pages.ApartAlloc | src/pmm.c:68-114 | A free run never overlaps a live allocation. |
| Heap.SplitTiles | src/kheap.c:64-86 | After a split the blocks still tile the arena, links agree with addresses, and the block has become the wanted one and a free rest, if the rest is worth one. |
| Heap.MergeTiles | src/kheap.c:88-97 | After a merge the blocks still tile the arena; two blocks and a header have become one block. |
| Heap.Ordered | src/kheap.c:20-25 | Blocks of an arena come in address order and do not overlap. |
| HeapArenas.OneArena | src/kheap.c:64-97 | A change inside one arena leaves the blocks of all others alone. |
| HeapArenas.PayloadsApart | src/kheap.c:99-107 | Payloads are 16-aligned and overlap neither each other nor any header. |
| HeapArenas.Conservation | src/kheap.c:45-150 | Used and free bytes add up to the payload the arenas brought in. |
| HeapArenas.AllFreed | src/kheap.c:135-150 | An arena whose blocks are all free is one full-size free block. |
| HeapSteps.TakenFacts | src/kheap.c:99-107 | Taking a block moves exactly its size from free to used and leaves no two free neighbours. |
| HeapSteps.Granted | src/kheap.c:64-70 | The block handed out has the bytes needed, or at most 48 more where the rest would make no block. |
| HeapSteps.ReturnedFacts | src/kheap.c:135-150 | Giving a block back moves exactly its size from used to free, and the merges leave no two free neighbours. |
| HeapSteps.TakenLive | src/kheap.c:99-107 | Taking a block adds exactly its payload to those handed out. |
| HeapSteps.ReturnedLive | src/kheap.c:135-150 | Giving a block back removes exactly its payload from those handed out. |
| Kheap.KernelHeap.constructor | src/kheap.c:57-62 | An arena of 256 pages, if the page allocator has such a run; otherwise an empty heap. |
| Kheap.PagesFor | src/kheap.c:122-123 | A new arena has the fewest pages that hold the request and both headers, but 256 at least. |
| Kheap.KernelHeap.AddArena | src/kheap.c:31-55 | Succeeds exactly when the pages exist; then one full-size free block on pages nobody had is put in front of the others. |
| Kheap.KernelHeap.SplitBlock | src/kheap.c:64-86 | The pointer updates are the split of the memory. |
| Kheap.KernelHeap.TryMergeWithNext | src/kheap.c:88-97 | The pointer updates are the merge of the memory, if the successor is free. |
| Kheap.KernelHeap.TakeBlock | src/kheap.c:99-107 | The block is split and marked used, and the heap stays in order. |
| Kheap.KernelHeap.FindBlock | src/kheap.c:113-120 | The first block that is free and large enough, newest arena first, or none exactly when no block is. |
| Kheap.KernelHeap.Kmalloc | src/kheap.c:109-133 | First fit, or a new arena large enough for the request, so that the size check behind it never fires; NULL exactly for size 0 or when no run of pages exists; the payload is new, 16-aligned, and fewer than 64 bytes larger than asked for. |
| Kheap.KernelHeap.Kfree | src/kheap.c:135-150 | A pointer without the magic number in front is ignored, and so is a block that is free already; otherwise the block is free and merged with its free neighbours, and every other payload stays handed out at its place and size. |
| Kheap.HeapConserves | src/kheap.c:64-150 | After any run, used plus free bytes equal the arenas' initial payload. |
| Kheap.LivePayloadsApart | src/kheap.c:109-133 | After any run, payloads handed out are aligned and do not overlap each other or the headers in front of them. |
| Kheap.NothingLive | src/kheap.c:135-150 | When everything has come back, every arena is one full-size free block. |
| Paging.WalkGrows | src/paging.c:25-111 | If present entries do not change, no existing translation changes, nor its access rights. |
| Paging.WalkIdentity | src/paging.c:39-111 | In a tree of tables in order, every translation that exists below 2^48 is the identity, writable and open to user mode on all levels, 2 MiB pages included. |
| Paging.EntryDecodes | src/paging.c:33 | A link or 4 KiB entry is present, writable and open to user mode, has no other property, and names its page. |
| Paging.LargeDecodes | src/paging.c:57 | The same for a 2 MiB page. |
| Paging.PrefixStep | src/paging.c:86-89 | The index fields taken from an address lead from each table to the right one below it. |
| PageTables.AddTable | src/paging.c:25-37 | Linking a fresh page under an empty entry keeps the tree unshared and in order. |
| PageTables.AddLeaf | src/paging.c:104-106 | An identity entry in an empty slot keeps the tree. |
| PageTables.AddTableOnly | src/paging.c:25-37 | Linking an empty table maps nothing and unmaps nothing. |
| PageTables.AddLeafOnly | src/paging.c:104-106 | A new leaf maps its own page and no other. |
| PageTables.Unshared | src/paging.c:25-37 | No two entries link to the same table. |
| PageTables.AddressSpace.ChildOrCreate | src/paging.c:25-37 | Returns the one table below the entry, made from a fresh zeroed page and linked with all rights if there was none; NULL exactly when the pages have run out, and then nothing changed; the same addresses translate as before. |
| PageTables.AddressSpace.PagingInit | src/paging.c:39-66 | A tree that maps the low 4 GiB, writable and open to user mode, and nothing else results if and only if six pages are free; otherwise a table comes to lie at address 0. |
| PageTables.AddressSpace.MapPage | src/paging.c:77-106 | Maps the page, or finds it mapped by a 2 MiB page, or fails for lack of pages; no existing translation changes, and no other page comes to be mapped. |
| PageTables.AddressSpace.MapRegion | src/paging.c:68-111 | True means every address of the page-rounded range translates to itself, writable and open to user mode; false only for an empty region, before initialisation, or without free pages; either way nothing mapped is lost, nothing outside the range comes to be mapped, and new tables lie on fresh pages only. |
| PageTables.MapRegions | src/paging.c:68-111 | Over any run of calls, all successfully mapped ranges stay mapped, nothing outside the regions comes to be mapped, and a call that failed had an empty region, no address space or no free page. |
| PageTables.SpaceIdentity | src/paging.c:39-111 | After any run of calls whatever translates, translates to itself, writable and open to user mode. |
| SharedPages.AllocateBeside | src/kheap.c:109-133 | kmalloc keeps the page tables in order: what it takes is no page of theirs; it returns a new payload of the size, or NULL exactly as without them. |
| SharedPages.ReleaseBeside | src/kheap.c:135-150 | kfree keeps them in order as well, and exactly the payload given back is no longer handed out. |
| SharedPages.InitBeside | src/paging.c:39-66 | paging_init keeps the heap in order. |
| SharedPages.MapBeside | src/paging.c:68-111 | paging_identity_map_region keeps the heap in order, whether it succeeds or not, and maps the range as without it. |
| SharedPages.TablesOutsideArenas | src/paging.c:25-37 | After any such calls no page table lies in an arena of the heap. |
| TrbWindow.WindowPush | src/xhci.c:348-355 | Publishing a request with the lap's cycle bit keeps the window of outstanding requests in order. |
| TrbWindow.WindowTake | src/xhci.c:303-314 | Taking the oldest request frees its slot for the next lap. |
| TrbWindow.WindowTest | src/xhci.c:303-312 | The cycle bit at the consumer's position matches exactly when a request waits there. |
| CommandRing.StartInv | src/xhci.c:226-241 | The ring as set up is in order, its Link TRB pointing to its own first TRB. |
| CommandRing.NextInv | src/xhci.c:348-384 | Every single write of a push and every action of the controller, in any interleaving, keeps the ring in order. |
| CommandRing.RunInv | src/xhci.c:348-384 | Over any run, laps without end, the controller, going where the Link TRB points to, has read the first requests pushed, each once and in order. |
| CommandRing.ControllerProgress | src/xhci.c:348-384 | Between pushes the controller can go on if and only if a request is outstanding, following the Link TRB to the first slot where it stands on it. |
| CommandRing.PushSteps | src/xhci.c:348-365 | A whole push is three driver steps at most and keeps the ring in order. |
| CommandRing.OneTooMany | src/xhci.c:348-365 | Why the bound is needed: with 254 requests outstanding, one more leaves the controller stuck if and only if it still stands on the Link TRB. |
| CommandRing.OneTooManyHappens | src/xhci.c:348-365 | A run that gets there: the controller reads one lap and stays on the Link TRB, 254 requests follow, and one more leaves it stuck. |
| CommandRing.TrbRing.constructor | src/xhci.c:228-241 | Zeroed ring; in the last slot a Link TRB that points to the ring itself and toggles the cycle; the controller is told to start at the first slot with cycle 1. |
| CommandRing.TrbRing.Push | src/xhci.c:348-384 | The driver's code makes exactly that push and returns the TRB's address. |
| EventRing.PollInv | src/xhci.c:303-325 | A poll takes the oldest unread event and finds none exactly when all have been read. |
| EventRing.RunInv | src/xhci.c:303-325 | Over any run the driver has seen the first events posted, each once and in order. |
| EventRing.EventConsumer.ConsumeNextEvent | src/xhci.c:303-325 | Returns the oldest unread event and reports the new position, or fails exactly when there is none. |
| Scheduler.StepOk | src/task.c:54-172 | Ticks, creations and exits keep one ring through all tasks in which only the current one may run. |
| Scheduler.OthersKept | src/task.c:54-172 | An event changes stack pointers and states only, and no stack pointer but the current task's. |
| Scheduler.OnlyExitTerminates | src/task.c:132-135 | No event but its own exit terminates a task. |
| Scheduler.CreatedWaits | src/task.c:54-76 | A created task is in the next slot as it was made, and waits behind all others. |
| Scheduler.TickNearer | src/task.c:137-172 | A tick brings a ready task strictly nearer to the front, or runs it. |
| Scheduler.BoundedWaiting | src/task.c:137-172 | A ready task d places behind the current one runs within d ticks, from the stack pointer stored for it, whatever is created or exits meanwhile. |
| Scheduler.TerminatedForever | src/task.c:132-172 | A terminated task stays terminated, and once another task is current it is never current again. |
| Scheduler.ExitIsFinal | src/task.c:132-172 | After an exit, through any events, the task stays terminated, and once it has given way it is never current again. |
| Scheduler.ExitGivesWay | src/task.c:132-172 | If any task is ready, the first tick behind an exit makes the exited task give way. |
| Scheduler.TicksCounted | src/task.c:139 | The tick counter counts the ticks, on 32 bits. |
| Scheduler.PidsInOrder | src/task.c:60 | Process numbers are handed out in the order of creation, and no two tasks share one. |
| Scheduler.StacksApart | src/task.c:82 | A task's stack lies in its own slot, and no byte of it in another task's stack. |
| Scheduler.TopEndsStack | src/task.c:169 | The address taken for the top of a slot's stack ends that stack and lies in no other. |
| Scheduler.ContextKept | src/task.c:137-148 | A task's stored stack pointer is the one last handed in while it was current, or its initial one. |
| Scheduler.SwitchReturnsContext | src/task.c:137-172 | After any run, a switch returns the dispatched task's own last context, and rsp0 ends that task's stack and nobody else's. |
| TaskRing.RotateLinked | src/task.c:150-167 | Starting the ring at another task keeps every successor. |
| TaskRing.AppendLinked | src/task.c:67-73 | The new slot enters the ring of next links behind the tail. |
| TaskRing.FailedCreateIsDispatched | src/task.c:105-109 | After a creation that failed for lack of a stack, the forgotten slot is run within as many ticks as there are counted tasks, from the stale stack pointer of its slot. |
| TaskRing.FailedCreateBreaksRing | src/task.c:105-109 | The next creation then makes that slot its own successor: it is on no ring any more. |
| TaskRing.TaskScheduler.constructor | src/task.c:28-52 | The boot context is task 0, running, alone on the ring, with process number 0. |
| TaskRing.TaskScheduler.AllocSlot | src/task.c:54-76 | Refuses a null entry point and a full pool; otherwise the next slot joins the ring and nothing else changes. |
| TaskRing.TaskScheduler.Create | src/task.c:78-97 | The new task waits behind all others; its frame, zero but for entry point, code segment and flags, lies in its own stack from a multiple of 16 on. |
| TaskRing.TaskScheduler.CreateUser | src/task.c:99-130 | The same with user segments and stack; the ring agrees with task_count afterwards if and only if the stack allocation did not fail; if it failed, the slot stays in the ring, ready and last in line, with the stack pointer it held before. |
| TaskRing.FrameFlags | src/task.c:92-125 | A task starts with interrupts enabled and the reserved bit set, no other flag; user code and data run at privilege level 3. |
| TaskRing.TaskScheduler.ExitCurrent | src/task.c:132-135 | The current task's state becomes terminated; no other task and no other field changes. |
| TaskRing.TaskScheduler.FindReady | src/task.c:150-161 | The first ready task behind the current one, the current one last. |
| TaskRing.TaskScheduler.Schedule | src/task.c:137-172 | The code on pool and links is one tick of the machine and returns its stack pointer, also with a slot that task_count has forgotten, unless task_count is 1. |

## Left out

- Device I/O errors in the middle of an operation: the modelled device always answers; errors of the code's own checks are modelled. `ERR_IO` stands for a replayed record whose target the device does not have.
- The code does not clear the bytes between the old end of file and a later write offset; `WriteFile.WriteAt` therefore does not promise zeros there, but exactly the bytes the file's blocks held before.
- Volumes.CrashPoint: covers sessions whose log has not wrapped and was clean at mount. What a session makes of stale records that an interrupted cleaning left in the log is not covered; `Cleaning.PowerCutWhileCleaning` says when there are any.
- Power cuts within a transaction after the log has started over: `Volumes.ReplayNow` speaks of the moments between transactions; a record torn over an older one is told apart only by the hash.
- Runs.Run: its calls are the plain ones; the encrypted calls state the same invariants in their own contracts.
- Mount.MountDevice: asks that an accepted superblock meets the seven demands of `SuperblockChecks.WhatMountAssumes` and that the device has the blocks it names; reads of blocks a device does not have are not modelled.
- FileGrowth.WriteEntry: asks for an index below the table's size or one that the capacity check refuses, and so do the calls built on it; an index between the two would journal a data block. `Format.IndexInTable` and `Format.CapacityTooLarge` show what the check lets through.
- Tree.TreeOk: sibling names are distinct among names stored in the clear; the code compares stored bytes, so an encrypted name is not found by its plain form (`Directory.TakenExactly` says what is found).
- The two scratch buffers are fields of the volume and hold one block each, not 4096 bytes; what lies behind the block size is never read.
- The free block hint is kept in memory only, as in the code; it is exact from format through the first session.
- Created and modified times stay zero, as the code leaves them. `vtx2_stat` is a plain entry read.
- The strength of the hash, of the XOR stream and of the salt generator: `Hash.OneByteTells` and the `Cipher` lemmas say what depends on what, not how hard it is to guess. A wrong password that happens to have the right verifier is accepted, as in the code.
- Heap: the arena list is a sequence, newest first; its `next_arena` pointers and payload bytes are not modelled.
- Kheap.KernelHeap.Kfree: the outcome of the magic number's test is a parameter, and a pointer that passes it is a block's payload; stale headers inside a merged block pass the test in the code.
- PageTables.AddressSpace.MapRegion: regions that end at 2^48 at most; cache and TLB reloads are left out.
- CommandRing.TrbRing.Push: the code has no check for a full ring; the protocol theorems ask the driver to keep fewer than 255 requests outstanding, and `CommandRing.OneTooMany` shows what happens otherwise.
- The controller's doorbells, completion matching, port handling and descriptor transfers of `src/xhci.c`, and its timeouts.
- Task stacks are not memory: a task's frame is kept as the words stored at its initial stack pointer. Interrupt entry and exit code is not part of this model.
- The user interface, drivers for AHCI, PCI, ACPI and the keyboard, the boot code: hardware effects without a deep invariant, or easy members.
