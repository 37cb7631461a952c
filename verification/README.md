# A verified model of the operating system's filesystem, command line and scheduler

The repository builds a small operating system in user space. This project models its three algorithmic cores in Dafny and
proves what they promise. `dafny verify dfyconfig.toml` checks everything.

## The filesystem

PennFAT keeps files as chains of blocks in a table of 16-bit cells. The root directory is itself such a chain, starting at
block 1, and holds 64-byte entries. The code works on raw memory; nothing in it says which blocks belong together.

- `Fat.dfy` says it: chains that are in range, end, never meet, and cover exactly the cells in use. `Store.dfy` goes from
  bytes scattered over chained blocks to one byte sequence per chain. `Volume.dfy` is the block layer, a class over the table
  and the data region with every loop and recursion of the source; two ghost fields hold the chains and their bytes.
- `Directory.dfy` reads and writes entries as the bytes they are, and says when a directory is in order. `OpenTable.dfy` has
  the open-file table and its locks, `Contents.dfy` the effect of a write. `FileSystem.dfy` is the class with the calls.
- `Meaning.dfy` forgets blocks and entries: a map from names to contents, and how many blocks each file owns.
  `Image.dfy` has mkfs, mount and unmount, `Clients.dfy` the commands cp and cat.
- `Calls.dfy` is the filesystem as a state machine over values: when a call may be made (`Permitted`), what state and outcome
  it leads to (`Next`), what that means (`Keeps`, `Effect`). `Session.dfy` makes any list of calls on the real thing.

The main results: `Sessions.Run` and `Sessions.FromScratch` (every call of a run is made exactly when it is permitted, with the
outcome and next state it promises; every reachable state is in order; a reader's view never changes while it stays open;
untouched names keep their content; exact block counts), `Images.Remount` (all of it survives unmount and mount),
`Calls.StepKeeps`, `Calls.OrdinaryMade` (no ordinary call is left out), `FileSystem.Write` and `FileSystem.Read` (a file is one byte sequence, whatever the block size),
`Meaning.CatalogRenamed`, `Clients.Cp` and `Clients.Cat` (what they do, and exactly when they succeed).

Where the code limits what is true, the model has the code's behaviour and the exact condition:

- In the largest geometry (32 blocks of 4096 bytes for the table) the search for a free block can hand out cell 0xFFFF, which
  means end of file (`Fat.SearchFinds`). The calls therefore ask for enough free blocks there (`Roomy`), and for nothing in
  the other 159 geometries. Runs are over all 160; there too, a call is made exactly when it is permitted.
- The comment on `fs_trackclose` promises the number of handles left. The code reports one more when the closed handle was
  the last in the table (`OpenTable.CloseReportsZero`), so that a file unlinked while open keeps its blocks if its last handle
  happens to be there. The model follows the code.
- A write that runs out of space moves the offset back by one, at offset 0 to 0xFFFFFFFF, and takes the recorded size with it
  (`Meaning.WriteFailed`). What fitted has been written; how much of it is read afterwards is in `Contents.WriteTorn`. The
  structural invariant holds on all paths, exact block counts on runs without such a write.
- Filling a hole never extends the chain; it asks for a place outside, and the code dereferences a null pointer, exactly when
  the offset exceeds both the size and the blocks (`Contents.AsksOutsideIff`). A write asks that it does not, and that the
  sums it computes in 32 bits do not wrap (`SafeWrite`).
- A read whose offset and length wrap in 32 bits is not clipped to the size and may not even be split at block ends. `Read`
  says what it delivers (`Delivered`); `OpenTable.WrappedRead` says, for both cases, when that still is the slice of the
  content, and `Calls.ReadsRightIff` says it of any read.
- Renaming a file to its own name frees its chain and revives the entry; it is harmless exactly while the file is open or has
  no blocks (`FileSystem.Rename` asks for that, `OpenTable.RenameSelfBreaks` shows why).
- A name that starts with the byte 1, which no file can be given, may find a deleted entry (`Directory.FoundEntry`), whose
  block number is left as it was. Unlinking or renaming it is harmless exactly when that number is 0 (`FindsStale`;
  `OpenTable.GhostUnlinkBreaks`, `OpenTable.GhostRenameBreaks`); opening it never is (`FindsDead`,
  `OpenTable.GhostOpenBreaks`). A name that starts with the byte 2 may find a file unlinked while open, and every call works
  on it as on any other file; fs_unlink decides by name whether somebody has it open (`OpenTable.BusyIs`). `Ruin.dfy` shows
  that a harmless program gets to such states: `Ruins.LeaveRemains`, `Ruins.RemainsRuin`.

## The command line

`CommandLine.dfy` says what a line means: tokens, a small grammar, and the printer. `Lines.dfy` says it character by character,
`Grammar.dfy` which lines are accepted, and with which error they are not, without a parser. `ArgvBlock.dfy` describes the memory
of a parsed command, `Parser.dfy` has both passes and the printer as the source runs them. The main results:
`Parsers.ParseCommand` (the two passes agree, and the block means what the line means), `CommandLines.RoundTrip`,
`Grammar.LineAccepted`, `Grammar.LineRejected`.

## The scheduler

`RoundRobin.dfy` has the cyclic table of 18 slots, `SleepClock.dfy` the sleep clock, both as values; `Scheduler.dfy` relinks the
queues in place. The table in the source lacks a comma, so that its fourth entry is `0 -1` and its last is zero; the model has
the table as it is initialised. The main results: `RoundRobin.TurnAt`, `RoundRobin.FairTurn`, `RoundRobin.SoonServed`, `SleepClock.ExactSleep`, and that
`Kernel.Scheduler` and `Kernel.AlarmHandler` refine them. A low-priority process enters two queues at once
(`Kernel.AppendTwice`); the queues stay in order exactly for the other priorities.

## How memory is modelled

- The table and the data region are separate arrays; the source maps one file twice. `Images.AddressesApart` shows that the
  two regions do not meet. Reads go to the data array directly, as a host file that always reads fully.
- An entry pointer is an address in the data region. Ghost parameters name the slot, the block index and the like; they steer
  no branch.
- The loop that cp and cat repeat is one method, the three copies of the rotation and the copies of the linked-list code are
  one each, and a process and its control block are one object.
- The block of a parsed command is three arrays of the sizes the source computes, the text being the line between its start and
  end pointers; a null pointer is -1.

## Model

| member | source | states |
|---|---|---|
| Fat.LinkKeepsForm | src/fs/fat.c:553-563 | taking a free cell and linking it behind a chain keeps every chain in range, ended, disjoint and covering exactly the cells in use; the free set loses exactly that cell |
| Fat.ReleaseKeepsForm | src/fs/fat.c:630-641 | giving a whole chain back keeps the structural invariant |
| Fat.ReleaseFrees | src/fs/fat.c:630-641 | exactly the cells of the chain become free, as many as the chain is long |
| Fat.Conservation | src/fs/fat.c:553-563 | free blocks + blocks owned by chains = number of blocks, in every state of the table |
| Fat.ChainBound | src/fs/fat.c:608-622 | a chain and the free blocks together are fewer than the table has cells, so walks along chains end |
| Fat.ChainsDetermineTable | src/fs/fat.c:630-641 | two well-formed tables with the same header and the same chains are equal: undoing what was built restores the table |
| Fat.SearchFinds | src/fs/fat.c:553-563 | the search for a free cell finds a block exactly when one is free; in the largest geometry, and only there, it can come up with cell 0xFFFF, the end-of-file mark |
| Fat.PadKeepsForm | src/fs/fat.c:439-443 | a grown directory adds slots that own nothing, and the structural invariant stays |
| Volumes.Volume.LinkNextFree | src/fs/fat.c:553-563 | returns the lowest free block and marks it as an end, or 0 with the table unchanged when none is free; it ends (in the largest geometry, given a free block) |
| Volumes.Volume.Append | src/fs/fat.c:225-229 | the next free block is linked behind a chain: chain and bytes of that chain grow by one block, nothing else changes, or nothing at all when the table is full |
| Volumes.Volume.ExtendBlk | src/fs/fat.c:608-622 | the old chain stays as a prefix, the result is the block at the wanted index, the length becomes max(old, index + 1); it fails only with no block left free |
| Volumes.Volume.FreeBlk | src/fs/fat.c:630-641 | the chain is freed and its length returned; every other chain and all bytes of other files stay |
| Volumes.Volume.FreeChain | src/fs/fat.c:634-640 | the loop sets exactly the cells of the chain to free, counts them, and ends |
| Store.GatherAppend | src/fs/fat.c:608-622 | the bytes of a chain continued are the bytes of the chain followed by those of the new blocks |
| Store.GatherSlice | src/fs/fat.c:652-662 | a stretch inside one block is the same stretch of the file, at index * block size + offset |
| Store.GatherSplice | src/fs/fat.c:535-543 | a copy into one block of a chain is an overlay on the file's byte sequence at that place |
| Store.StoreWrite | src/fs/fat.c:535-543 | one memcpy inside a block changes one stretch of one file and no byte of any other |
| Volumes.RepAppend | src/fs/fat.c:553-563 | linking a free block keeps memory and abstract files tied together |
| Volumes.RepRelease | src/fs/fat.c:630-641 | freeing a chain keeps the tie; the freed file is empty, the others are untouched |
| Volumes.RepWrite | src/fs/fat.c:535-543 | a copy into a block keeps the tie, with one file overlaid |
| Volumes.RepRead | src/fs/fat.c:491-507 | what is read at a block's place is the file's stretch there |
| Volumes.GotSplit | src/fs/fat.c:493-502 | a read split at a block end is one read: the parts add up in length and content |
| Volumes.OverwriteTwice | src/fs/fat.c:532-540 | two adjacent writes are one write of both texts |
| Volumes.WroteParts | src/fs/fat.c:532-540 | a split write succeeds as a whole or, failing, has written exactly what fits in the blocks the chain has |
| Volumes.Volume.Put | src/fs/fat.c:535-543 | memcpy or bzero into a block of a chain: the chain's bytes with the text laid over, nothing else |
| Volumes.Volume.DataOffset | src/fs/fat.c:652-662 | the address of the wanted byte of the chain, or -1 with PEINVAL exactly when the chain is too short |
| Volumes.Volume.WriteBlk | src/fs/fat.c:524-546 | over any number of blocks: all of the text at the place asked for and only there, growing the chain to what it takes; or -1, with no block left, and exactly what fitted written |
| Volumes.Volume.WriteRest | src/fs/fat.c:536-540 | the recursive rest of a split write, with its place continuing behind the first part |
| Volumes.Volume.ReadBlk | src/fs/fat.c:481-509 | over any number of blocks: the bytes from the place asked for up to the length or the end of the chain, and their number; what a sum of place and length that wraps in 32 bits fetches instead, the rest of the host file from there on; -1 with PEINVAL for block 0 |
| Volumes.Volume.ReadHere | src/fs/fat.c:493-508 | the same once the first block is found |
| Volumes.Volume.ReadSplit | src/fs/fat.c:493-502 | a read over the end of its block: this block's part and the rest, as one read |
| Volumes.Volume.ReadWhole | src/fs/fat.c:503-508 | a read inside its block, or one whose sum has wrapped: one read of the host file, which then runs on over block ends |
| Volumes.Volume.NoWrap | src/fs/fat.c:661 | no place inside a chain reaches 2^32: the 32-bit offset sums do not wrap |
| Directory.SameNameIs | src/fs/fat.c:583 | comparing two names like strncmp over 32 characters is equality of the C strings they hold |
| Directory.MatchIs | src/fs/fat.c:583 | against an entry whose name fits its field, the comparison is equality of names |
| Directory.ValidNameIs | src/fs/fat.c:420-426 | the names a file can be given, by length and character codes |
| Directory.EntryBytes | src/fs/fat.h:42-51 | the fields of an entry byte by byte: 32 bytes of name up to a NUL, size at 32 and block at 36 with the low byte first, permissions at 39 with 2 for writing and 4 for reading |
| Directory.NewEntryBytes | src/fs/fat.c:447-454 | the bytes of the entry of a new file |
| Directory.NameField | src/fs/fat.c:447-448 | storing a name changes name and mark of the entry and no other field |
| Directory.SizeField | src/fs/fat.c:449 | storing the size changes no other field of the entry |
| Directory.BlockField | src/fs/fat.c:450 | storing the first block changes no other field |
| Directory.KindField | src/fs/fat.c:451-452 | storing type and permissions changes no other field |
| Directory.MarkField | src/fs/fat.c:304 | marking an entry deleted or unlinked changes the first character of its name only |
| Directory.DirUpdate | src/fs/fat.c:286-306 | replacing one entry keeps the directory in order: unique names, one end, every entry fitting what it owns |
| Directory.DirGrow | src/fs/fat.c:439-443 | a zeroed block behind a full directory only adds unused slots |
| Directory.Created | src/fs/fat.c:428-454 | a new entry in the first unused slot, under a name nobody has, keeps the directory in order and owns nothing |
| Directory.FindSlotIs | src/fs/fat.c:573-588 | the search returns a slot exactly when some used slot bears the name |
| Directory.ListingIs | src/fs/fat.c:338-372 | the listing holds exactly the entries of listed files |
| Directory.FindIffListed | src/fs/fat.c:573-588 | a name is found exactly when the listing shows it and it does not start with the bytes 1 or 2; a name that does can match a deleted or unlinked entry |
| Directory.FoundEntry | src/fs/fat.c:573-588 | what a search comes upon bears that name, and the first character of the name says whether the entry is listed, unlinked while open, or deleted |
| Directory.SearchSame | src/fs/fat.c:573-588 | a search depends on names and marks alone, so that no write or truncation moves what a name finds |
| Directory.CatalogPut | src/fs/fat.c:286-306 | a change of one entry changes the name-to-content map by that entry's contribution alone |
| Contents.ContentWritten | src/fs/fat.c:231-247 | filling the hole and writing gives old content ++ zeros ++ data ++ rest of the old content |
| Contents.AsksOutsideIff | src/fs/fat.c:232-238 | filling a hole asks for a place behind the chain, where the code dereferences a null pointer, exactly when the offset exceeds both the size and block size * blocks |
| Contents.EffectIs | src/fs/fat.c:231-247 | the effect of a write on size and content: the overlay if it succeeds; if not, nothing before the offset is lost, and the blocks hold the overlay by exactly what fitted |
| Contents.WroteAt | src/fs/fat.c:213-248 | a write that succeeded has laid its text over the content; at the end of the file that is appending |
| Contents.TornAtEnd | src/fs/fat.c:241-245 | one that ran out of space at the end of a file that was not empty has changed nothing but the offset |
| Contents.PartWritten | src/fs/fat.c:231-247 | when space ran out the file's blocks are full: old content, zeros in a gap, the part of the data that fitted |
| Contents.WriteTorn | src/fs/fat.c:231-247 | what the file then reads as: all of that after a write from offset 0, otherwise nothing new behind the old end and the gap |
| Contents.OneSlotTrans | src/fs/fat.c:225-247 | steps that touch only one file add up to one that touches only that file |
| Contents.OthersSame | src/fs/fat.c:213-248 | every other file has the same entry and content after a write |
| OpenTable.EntryPlace | src/fs/fat.c:428-443 | entries never straddle two blocks of the root chain, for every block size |
| OpenTable.EntryAddrInjective | src/fs/fat.c:127-133 | two entry pointers are equal only for the same slot, so comparing pointers compares files |
| OpenTable.CountZero | src/fs/fat.c:694-712 | the count of handles on an entry is zero exactly when no handle has it |
| OpenTable.CloseReportsZero | src/fs/fat.c:694-712 | fs_trackclose reports 0 exactly when no other handle shares the entry and the handle was not the last in the table |
| OpenTable.RemoveKeepsTable | src/fs/fat.c:700-706 | swap-remove keeps the locking invariant |
| OpenTable.NoneLeft | src/fs/fat.c:165-177 | when a close reports 0 no handle is left on that file |
| OpenTable.SameEntry | src/fs/fat.c:127-133 | among the open handles, entry pointer and slot tell the same |
| OpenTable.NameTells | src/fs/fat.c:295-299 | comparing the name of a live entry with that of a listed one decides whether they are the same slot |
| OpenTable.BusyIs | src/fs/fat.c:295-301 | what fs_unlink takes for in use, by comparing names: every file somebody has open; for a listed name nothing else; never a deleted entry |
| OpenTable.LocksHold | src/fs/fat.c:127-138 | on every entry there are only readers, or one handle alone, and the entry is live |
| OpenTable.Dropped | src/fs/fat.c:302-304 | deleting an entry for good keeps the directory in order with its chain gone |
| OpenTable.Unlinked | src/fs/fat.c:295-304 | marking an open file unlinked keeps the directory in order, chain included |
| OpenTable.Renamed | src/fs/fat.c:396-402 | after the old owner of the new name is gone, putting the name keeps the directory in order, also on an entry that was unlinked, or deleted and names no block |
| OpenTable.RenameSelfBreaks | src/fs/fat.c:396-402 | renaming a closed file with blocks to its own name: no ownership of chains makes table and directory agree any more |
| OpenTable.GhostUnlinkBreaks | src/fs/fat.c:286-306 | unlinking a name that finds a deleted entry with a stale block number: if the freeing loop ends at all, the header of the table is overwritten, or no ownership of chains fits table and directory any more |
| OpenTable.GhostRenameBreaks | src/fs/fat.c:396-402 | renaming such an entry: no ownership of chains fits, since two files would own one block |
| OpenTable.GhostOpenBreaks | src/fs/fat.c:114-147 | opening a deleted entry: the handle is on no live file, whatever slot one takes it for |
| OpenTable.RootGrown | src/fs/fat.c:439-443 | handles still point at their entries after the root chain has grown |
| OpenTable.GrownSearch | src/fs/fat.c:428-443 | growing puts the first unused slot right behind the old ones and makes no name appear |
| OpenTable.EmptiedIs | src/fs/fat.c:149-154 | a truncated entry keeps name and permissions and owns nothing |
| OpenTable.ReadIsSlice | src/fs/fat.c:192-196 | reading up to the recorded size is slicing the content |
| OpenTable.ReadLengthIff | src/fs/fat.c:192-194 | the length fs_read asks for, in 32-bit arithmetic, is the part before the end of file exactly when the offset is past the end or the sum does not wrap |
| OpenTable.LockedIff | src/fs/fat.c:127-138 | no lock is in the way exactly when nobody has the file open, or when it is opened to read and all who have it open read |
| Store.AsLaid | src/fs/fat.c:504-507 | reading on over block ends finds the bytes of the file exactly when, block by block, chain and data region hold the same |
| OpenTable.WrappedRead | src/fs/fat.c:192-198 | a read whose sum wraps is not clipped to the size, and one whose sum inside the block wraps too is not split: the first delivers the slice of the content exactly when the size covers the file's blocks or the offset is behind them, the second exactly when the offset is behind the blocks, or the file ends where the data region ends if one goes on over it, with the same bytes |
| OpenTable.NeedFacts | src/fs/fat.c:532-540 | how many blocks a write takes, counted from the one its offset lies in |
| FileSystems.FileSystem.Find | src/fs/fat.c:573-588 | the directory offset of the first entry of that name, or -1 with PENOFILE |
| FileSystems.FileSystem.LsAll | src/fs/fat.c:338-372 | the list of all listed entries, in directory order |
| FileSystems.FileSystem.TrackOpen | src/fs/fat.c:671-686 | the handle is added behind the others, the table doubling when full |
| FileSystems.FileSystem.TakeOut | src/fs/fat.c:700-706 | handle and last handle change places, and the table is one shorter |
| FileSystems.FileSystem.TrackClose | src/fs/fat.c:694-712 | the last handle takes the place of the one closed; the result is the handles left on the entry, plus 1 if the closed one was last |
| FileSystems.FileSystem.Close | src/fs/fat.c:165-177 | the handle leaves the table; the chain of an unlinked file is freed exactly when fs_trackclose reports 0, otherwise nothing on the volume changes |
| FileSystems.FileSystem.NameInUse | src/fs/fat.c:295-301 | true exactly when some handle's entry bears the name of the entry asked about |
| FileSystems.FileSystem.Unlink | src/fs/fat.c:286-306 | no entry: -1, PENOFILE, nothing changed; in use: only marked, chain kept; else: marked deleted and its blocks given back. For every name but one that finds a deleted entry with a stale block number |
| FileSystems.FileSystem.Drop | src/fs/fat.c:302-304 | the deletion itself: chain freed, entry marked, all else kept |
| FileSystems.FileSystem.Rename | src/fs/fat.c:384-405 | -1 with PENOFILE or PEFNAME and nothing changed; else what had the new name is unlinked and the entry takes the name, chains of all other files kept. Asked for exactly: no revival of an entry with a stale block number, and no renaming of a closed file with blocks to its own name |
| FileSystems.FileSystem.Replace | src/fs/fat.c:396-404 | unlink, then rename, as one change of directory and chains |
| FileSystems.FileSystem.CheckName | src/fs/fat.c:420-426 | accepts exactly the names of 1 to 31 letters, digits, dots, dashes and underscores |
| FileSystems.FileSystem.FindUnused | src/fs/fat.c:428-437 | the offset of the first deleted or never used slot, and whether there is one |
| FileSystems.FileSystem.GrowRoot | src/fs/fat.c:439-443 | one zeroed block is added behind the directory, or PETOOFAT and nothing changed exactly when no block is free |
| FileSystems.FileSystem.FillEntry | src/fs/fat.c:447-454 | the four stores make exactly the new entry, and touch no other |
| FileSystems.FileSystem.Create | src/fs/fat.c:446-468 | the entry is made in the first unused slot and a handle on it opened |
| FileSystems.FileSystem.MakeFile | src/fs/fat.c:418-468 | the file is there, empty, and open exactly when its name has 1 to 31 of the characters 0-9, A-Z, a-z, -, . and _ (by code), and a slot or a block is free; otherwise nothing changes |
| FileSystems.FileSystem.CheckLock | src/fs/fat.c:127-138 | free exactly when no handle is on the entry, or every handle on it reads and so would this one |
| FileSystems.FileSystem.Admit | src/fs/fat.c:127-146 | PEINUSE and nothing changed when locked; else a handle at the right offset, tracked |
| FileSystems.FileSystem.Truncate | src/fs/fat.c:149-154 | all blocks of the file are given back, size and first block are 0, nothing else changes |
| FileSystems.FileSystem.Open | src/fs/fat.c:114-156 | a file that is there is opened exactly when nobody has it open, or when it is opened to read and everybody who has it open reads, else PEINUSE; a missing one is made, or PENOFILE, PEFNAME, PETOOFAT; what it finds, makes or truncates, the handle, or the error with nothing changed. For every name but one that finds a deleted entry |
| FileSystems.FileSystem.Read | src/fs/fat.c:189-199 | the content from the offset, up to the length or the end, or, when offset and length wrap in 32 bits, what the block layer fetches unclipped; the offset moves by what was read; without permission PEFPERM and nothing read |
| FileSystems.FileSystem.ReadOn | src/fs/fat.c:196-198 | the read on the file's chain, and the handle's move, which does not wrap |
| FileSystems.FileSystem.DeliveredIs | src/fs/fat.c:192-196 | the 32-bit length computed in fs_read, handed to the block layer, delivers that |
| FileSystems.FileSystem.LSeek | src/fs/fat.c:261-276 | the new offset, in 32-bit unsigned arithmetic, from start, offset or size; PEINVAL for any other whence |
| FileSystems.FileSystem.EnsureBlock | src/fs/fat.c:225-229 | a file without a block gets one, exactly when one is free, and nothing else changes |
| FileSystems.FileSystem.FirstBlock | src/fs/fat.c:225-229 | the same for a file known to have none |
| FileSystems.FileSystem.FillHole | src/fs/fat.c:232-238 | the bytes between size and offset become zero, the size becomes the offset, other files untouched; it ends |
| FileSystems.FileSystem.FillStep | src/fs/fat.c:233-237 | one turn of that loop |
| FileSystems.FileSystem.SetSize | src/fs/fat.c:243-245 | the size is stored, content bytes and other entries kept |
| FileSystems.FileSystem.WriteOut | src/fs/fat.c:241 | the write on the file's chain, and how many blocks the file then has |
| FileSystems.FileSystem.WriteTail | src/fs/fat.c:241-247 | write, move the offset (back by one if the write failed), raise the size |
| FileSystems.FileSystem.FillAndWrite | src/fs/fat.c:231-247 | hole and write together |
| FileSystems.FileSystem.WriteSome | src/fs/fat.c:225-247 | the whole write of a non-empty text: succeeds exactly when the blocks it takes beyond the file's own are free |
| FileSystems.FileSystem.Write | src/fs/fat.c:213-248 | PEFMODE, PEFPERM, 0 for an empty text, or the write: len and the content overlaid, or -1 exactly when the blocks it needs are not free; no other file changes on any path. A handle opened to append adds its text to the end and then stands there, wherever it stood; any other writes where it stands. An append that fails leaves the content of a file that was not empty |
| Meaning.FoundIsInCatalog | src/fs/fat.c:573-588 | the search finds exactly the names of the catalogue, with their contents; what a name that no file can have finds is in no catalogue |
| Meaning.CatalogUnlinked | src/fs/fat.c:286-306 | unlinking removes the name and nothing else, for every name, in use or not |
| Meaning.CatalogRenamed | src/fs/fat.c:384-405 | renaming moves the whole content: the old name is gone, the new one has what the old one found, other files untouched; also to the same name where that is harmless |
| Meaning.CatalogMade | src/fs/fat.c:418-468 | a file made is there and empty, other files untouched, directory grown or not |
| Meaning.CatalogEmptied | src/fs/fat.c:149-154 | truncation empties that name's content only |
| Meaning.CatalogClosed | src/fs/fat.c:165-177 | the deletion a close performs changes no name's content |
| Meaning.CatalogWritten | src/fs/fat.c:213-248 | a write changes the content of the one name it goes to; to an unlinked file, of none |
| Meaning.TightPut | src/fs/fat.c:225-247 | changing one file to own ceil(size / block size) blocks keeps the block count exact for all |
| Meaning.TightWritten | src/fs/fat.c:225-247 | a successful write leaves its file with exactly ceil(size / block size) blocks |
| Meaning.WriteSpace | src/fs/fat.c:225-245 | with exact block counts, a write succeeds exactly when ceil(new size / bs) - ceil(old size / bs) is at most the free blocks, and takes exactly those |
| Meaning.WriteFailed | src/fs/fat.c:241-245 | after a write that ran out of space the recorded size is right exactly when the write did not start at offset 0; there handle and size become 0xFFFFFFFF |
| Meaning.TightUnlinked | src/fs/fat.c:286-306 | unlinking keeps all block counts exact |
| Meaning.TightNamed | src/fs/fat.c:402 | so does taking a name |
| Meaning.TightMade | src/fs/fat.c:418-468 | so does creating a file, even when the directory grows |
| Meaning.TightEmptied | src/fs/fat.c:149-154 | so does truncation |
| Meaning.UnlinkedStillReads | src/fs/fat.c:295-304 | a file unlinked while open keeps chain and content for the handles left |
| Meaning.OpenedMade | src/fs/fat.c:114-156 | opening a missing file for writing adds that name, empty, and keeps all other slots |
| Meaning.OpenedEmptied | src/fs/fat.c:149-154 | opening for writing empties that file and keeps all other slots, and the name still finds it |
| Meaning.OpenedSame | src/fs/fat.c:114-156 | any other open changes no content and gives access to the name's content |
| Meaning.OtherSearch | src/fs/fat.c:114-156 | opening a file changes for no other name what a search finds, unless that was a deleted entry |
| Images.GeometryFacts | src/pennfat.c:58-62 | for all 160 geometries: block sizes are multiples of the entry size, cell counts and region sizes are as computed, without overflow |
| Images.AddressesApart | src/fs/fat.c:661 | in all 160 geometries a byte of a block lies behind the table, inside the image, below 2^31, and two bytes never share an address |
| Images.MkFs | src/pennfat.c:22-76 | an image exactly for configurations 0 to 4 and 1 to 32 table blocks: the bytes config, blocks, 255, 255, then zeros, its length computed from blocks of 256 * 2^config bytes |
| Images.Mount | src/fs/fat.c:12-83 | mounting takes blocks of 256 * 2^config bytes, the number of cells and the size of the data region from the two bytes of the header, table and data from the image; PEBADFS exactly for a header out of range |
| Images.FreshWellFormed | src/pennfat.c:68-71 | the table of a fresh image is well formed, the root being block 1 |
| Images.FreshDirectory | src/pennfat.c:63-71 | the directory of a fresh image is in order and empty |
| Images.FreshFree | src/pennfat.c:58-71 | all blocks but the root's are free |
| Images.Format | src/pennfat.c:22-76 | mkfs then mount gives an empty filesystem in working order, in each of the 160 geometries |
| Clients.WriteSeekRead | src/fs/fat.c:189-276 | write, seek back, read gives the bytes written, across any number of blocks |
| Clients.CopyChunk | src/pennfat.c:304-316 | one turn of the copy loop: reads exactly when permitted; the write reports what was read exactly when permitted and the blocks suffice; then that is appended; all other files left alone |
| Clients.WriteChunk | src/pennfat.c:311-315 | its second half: the chunk is appended, and that reported, exactly when permission and blocks allow it |
| Clients.CopyAll | src/pennfat.c:303-316 | the loop ends, and gets to its end exactly when permissions allow it and the blocks suffice; then the target has grown by the whole source, whatever buffer and block size |
| Clients.OpenNamed | src/fs/fat.c:114-156 | fs_open as a client sees it: succeeds exactly when it can, which names change, what the handle gives access to, how many blocks its file can come to own, and that block counts stay exact |
| Clients.OpenedNew | src/fs/fat.c:418-468 | that for a file that is made |
| Clients.OpenedFound | src/fs/fat.c:123-155 | and for one that is found |
| Clients.SeekThenAppend | src/fs/fat.c:216-217 | a program that opens to append, seeks to the start and writes: the text is at the end |
| Clients.JoinReaders | src/fs/fat.c:127-146 | one more reader where there are only readers |
| Clients.ReadTwice | src/fs/fat.c:127-146 | a file opened twice to read: both handles give the same content |
| Clients.CpOrdinary | src/pennfat.c:281-318 | cp of a file one may read and only readers have open, to another one may write and nobody has open or to a new one, with enough blocks, succeeds |
| Clients.CatOrdinary | src/pennfat.c:174-272 | so does cat of any number of such files |
| Clients.CloseNamed | src/fs/fat.c:165-177 | closing a file that still has its name, or the last handle of the table, changes nothing but the table |
| Clients.CopyNamed | src/pennfat.c:303-316 | the copy between two open files as a change of the name-to-content map |
| Clients.CopyInto | src/pennfat.c:297-316 | the target opened and filled, exactly when it can be opened, permissions allow it and the blocks suffice; copying a file onto itself is refused by the lock with nothing changed |
| Clients.CloseSource | src/pennfat.c:317 | closing the source of a copy, which may delete it when it had lost its name, changes no name and no target |
| Clients.DropUnseen | src/fs/fat.c:165-177 | the deletion of a file without a name moves what no other name finds |
| Clients.Cp | src/pennfat.c:281-318 | cp succeeds exactly when the source is there, readable and unlocked, the target is another file that can be opened and written to or made, and the blocks suffice; then the target holds the source's content; other names never change |
| Clients.CatOne | src/pennfat.c:233-264 | one input of cat goes behind what the output has, exactly when it can be opened and read and the output has permission and blocks; nothing else changes |
| Clients.CatNext | src/pennfat.c:233-264 | one turn of the loop over the inputs, against the inputs as they were at the start |
| Clients.CatLoop | src/pennfat.c:231-265 | all inputs, in order, exactly when each can be opened and read and the blocks suffice for all |
| Clients.OutputOpen | src/pennfat.c:199-206 | opening the output changes none of the inputs, and makes it no input itself |
| Clients.Cat | src/pennfat.c:174-272 | cat with -w or -a: the output is what it kept followed by all inputs in order, exactly when all inputs can be read, the output is none of them and can be written to, and the blocks suffice; no other name changes even when a step fails |
| Sessions.Step | src/fs/fat.c:114-306 | one call of any kind is made exactly when it is permitted, otherwise nothing happens; made, it has the result and the next state its kind promises (which file is opened and with which offset, what is read, what is written, freed, unlinked, renamed), keeps the invariant, and means for names and contents what Effect says |
| Sessions.Run | src/fs/fat.c:114-306 | any run: every call in it, in turn, is made exactly when permitted, with that outcome and that next state; the invariant holds in every state; a reader that stays open sees the same content throughout; a name no call touches keeps its content; without a failed write every file owns exactly ceil(size / block size) blocks |
| Sessions.FromScratch | src/fs/fat.c:114-306 | the same for every run from mkfs and mount in each of the 160 geometries, which starts with no names and no handles, and ends with free + owned = blocks and the header of the image as mkfs wrote it |
| Images.BlockSizeIs | src/pennfat.c:29-48 | 256 * 2^config bytes a block |
| Images.FileOnDisk | src/fs/fat.h:60-64 | where byte o of the i-th block of a file lies in the host file: behind the table, at block size * (block number - 1) + o |
| Images.ChainOnDisk | src/fs/fat.h:60-64 | the cell of a block lies at twice its number, low byte first, and names the next block, 0xFFFF at the end; the directory starts at block 1 |
| Images.Remount | src/fs/fat.c:92-98 | after any calls, unmounting and mounting the host file again gives a filesystem in order with the same files, the same bytes in the same blocks, and no handles |
| Images.TableRestored | src/fs/fat.c:64-83 | the table written as bytes is read back as it was, and its first two bytes are the header |
| Sessions.Restart | src/fs/fat.c:92-98 | a run may go on after unmount and mount from the state it ended in, the handles gone |
| Sessions.IsPermitted | src/fs/fat.c:114-306 | whether a call may be made can be decided at run time, by looking only |
| Sessions.WriteIsSafe | src/fs/fat.c:232-241 | for a write: the sums do not wrap, filling the hole asks for no place outside the chain, and in the largest geometry the blocks are there |
| Sessions.HasToGrow | src/fs/fat.c:418-443 | for a file to be opened: it is to be made, and no slot of the directory is unused |
| Sessions.CountFree | src/fs/fat.c:553-563 | counting the free cells gives the number of free blocks |
| Sessions.SelfIsHarmless | src/fs/fat.c:396-402 | for a rename to the same name: the file is open or has no blocks |
| Calls.StepKeeps | src/fs/fat.c:114-306 | every permitted call, made as stated, disturbs no reader and no name it does not touch, keeps block counts exact unless a write ran out of space, and changes the name-to-content map exactly so: open binds the name to what it now finds, write the name of its file to the overlay, unlink takes the name away, rename moves the content, the others change nothing; a write that ran out of space leaves what fitted. Text appended goes to the end wherever the handle was; a read gives the bytes from the offset on; opening joins readers; seeks, closes and every error code are said in numbers |
| Calls.WriteKeeps | src/fs/fat.c:213-248 | that for a write, with the overlay as the new content of its file |
| Calls.RenameKeeps | src/fs/fat.c:384-405 | that for a rename |
| Calls.CloseKeeps | src/fs/fat.c:165-177 | that for a close |
| Calls.OrdinaryMade | src/fs/fat.c:114-306 | in plain terms, which calls a run makes: every read, seek and close on a handle, every unlink of a valid name and rename between two, and, with at most 0xFFFF cells or room to spare, every open of a valid name, every append, and every write of less than 2^31 bytes at or before the end |
| Calls.ReadMeans | src/fs/fat.c:189-199 | a read in a run: refused with 1008 exactly without permission, else the bytes from the offset to the length or the end, and the offset moved by as many |
| Calls.SeekMeans | src/fs/fat.c:261-278 | a seek in a run, by the numbers 1, 2, 3 of whence, in 32 bits; 22 and 0xFFFFFFFF for any other |
| Calls.TornMeans | src/fs/fat.c:241-247 | a write that ran out of space, in a run: exactly what fitted has been written, and the file reads accordingly |
| Calls.AllBlocks | src/fs/fat.c:553-563 | in every state of a run no block is in two chains, and free + owned blocks fill the data region |
| Calls.TableDetermined | src/fs/fat.c:630-641 | header and chains determine the whole table of the next state |
| Calls.ReadsRightIff | src/fs/fat.c:189-199 | a read delivers the slice of the content that was asked for exactly when the sum of offset and length stays below 2^32, the offset is past the end, or the wrapped read happens to be right |
| Calls.KeepsTrans | src/fs/fat.c:114-306 | what two runs keep, their sequence keeps |
| Calls.AfterOpen | src/fs/fat.c:114-156 | opening disturbs no reader and no other name |
| Calls.AfterClose | src/fs/fat.c:165-177 | neither does closing |
| Calls.AfterUnlink | src/fs/fat.c:286-306 | unlinking disturbs no reader, not even of that file, whatever the name |
| Calls.AfterRename | src/fs/fat.c:384-405 | neither does renaming, to another name or to the same |
| Calls.AfterWrite | src/fs/fat.c:213-248 | a write disturbs no reader: the writer is alone on its file |
| Ruins.LeaveRemains | src/fs/fat.c:286-306 | mkfs, mount, create, write a byte, close, unlink: after that a name exists that must not be unlinked, renamed or opened |
| Ruins.DeletedRemains | src/fs/fat.c:302-304 | deleting a closed file with blocks leaves an entry that still names the first of them |
| Ruins.RemainsRuin | src/fs/fat.c:286-306 | unlinking that name: whatever the loop that frees the blocks leaves, the header is overwritten or no ownership fits table and directory |
| Ruins.MakeFile | src/fs/fat.c:114-177 | a file just written and closed is listed and has blocks, as a file must not be renamed to its own name |
| CommandLines.ParseGood | src/process/parser.c:16-122 | whatever parses is well formed: non-empty commands, words without delimiters, append only with an output file |
| CommandLines.PrintParses | src/process/parser.c:214-228 | parsing what is printed for a well-formed command gives that command |
| CommandLines.RoundTrip | src/process/parser.c:16-228 | parse, print, parse is parse, for every line that parses |
| CommandLines.ResultsAreGood | src/process/parser.c:16-228 | the results of parsing are exactly the well-formed commands |
| CommandLines.LexFrom | src/process/parser.c:214-228 | the printed text has exactly the tokens of the command |
| CommandLines.RunFrom | src/process/parser.c:47-122 | and those tokens build exactly that command |
| CommandLines.LexTrail | src/process/parser.c:32-34 | white space at the end changes no token |
| Lines.PlainIff | src/process/parser.c:8-14 | the words of the grammar are exactly the non-empty strings without the codes 0, 9 to 13, 32 and those of the signs #, &, <, > and the bar |
| Lines.WordsArePlain | src/process/parser.c:8-14 | no argument and no file name of a line that parses has any of these |
| Lines.WhiteIsWhite | src/process/parser.c:12-14 | one white space in place of another (tab, line feed, vertical tab, form feed, carriage return, space) leaves what a line means, error codes included |
| Lines.WhiteIgnored | src/process/parser.c:32-34 | so does white space around the line |
| Lines.CommentIgnored | src/process/parser.c:24-30 | and everything from # on |
| Lines.WordThen | src/process/parser.c:8-10 | a word ends at the end of the text, at white space and at the four signs, and nowhere else |
| Lines.SignThen | src/process/parser.c:52-111 | what each sign is a token of, >> being one |
| Lines.OneOfEach | src/process/parser.c:16-210 | a line with two commands, both redirections, >> and & means what it should, for any words; so does one with two arguments and > |
| Lines.SpelledParses | src/process/parser.c:16-210 | a line spelled from tokens means what the tokens mean, a final & aside |
| Lines.Errors | src/process/parser.c:52-122 | for any words, a line for each error code and the number it gives |
| Grammar.RunRejects | src/process/parser.c:52-111 | the token loop fails at the first token that stands where it may not, with the code its kind and what stands before it give |
| Grammar.LineRejected | src/process/parser.c:52-122 | a rejected line gives the code of its first wrong token, in numbers; 3 when only the last command lacks an argument, 7 when there is none at all |
| Grammar.LineAccepted | src/process/parser.c:16-122 | a line is accepted exactly when it is blank or its tokens are grammatical: every command has an argument, input redirected at most once and in the first command, output at most once and in the last, no stray ampersand |
| Grammar.RunAccepts | src/process/parser.c:47-107 | from any position the token loop succeeds exactly when every remaining token stands where it may |
| Parsers.SkipWord | src/process/parser.c:8-10 | stops at the end of the word |
| Parsers.SkipSpace | src/process/parser.c:12-14 | stops at the first character that is no white space |
| Parsers.Trim | src/process/parser.c:21-34 | start and end of the line without comment and surrounding white space |
| Parsers.CheckInput | src/process/parser.c:56-71 | '<': the errors 1 and 5 exactly when due, else past the file name |
| Parsers.CheckOutput | src/process/parser.c:72-91 | '>' and '>>': the errors 2 and 6 exactly when due, else past the file name, append noted |
| Parsers.CheckToken | src/process/parser.c:53-107 | one turn of the first pass gives the error the grammar gives, or counts what it adds |
| Parsers.FirstPass | src/process/parser.c:47-122 | 0 or the error of the grammar; the counts are those of the commands and words to be stored |
| Parsers.StoreName | src/process/parser.c:168-184 | the file name ends with a NUL in the copy, and no other word is hurt |
| Parsers.StoreInput | src/process/parser.c:166-174 | the second pass takes the same step as the first, and stores the input file |
| Parsers.StoreOutput | src/process/parser.c:175-184 | the same for the output file, the sign being told by the flag of the first pass |
| Parsers.SignNoted | src/process/parser.c:75-78 | the append flag of the whole line tells which sign its one output redirection has |
| Parsers.StorePipe | src/process/parser.c:185-191 | the argv is closed with a null pointer and the next head set |
| Parsers.StoreWord | src/process/parser.c:192-198 | the argument's pointer is stored and its end marked |
| Parsers.SecondPass | src/process/parser.c:147-202 | no error, no write outside the block; in the end every one of the total_strings + num_commands cells and num_commands heads is filled, and NULs stand only on delimiters or behind the end |
| ArgvBlocks.NulFilled | src/process/parser.c:173-198 | a NUL at the end of a word leaves all words stored so far intact |
| ArgvBlocks.RunGrows | src/process/parser.c:164-200 | the cells the two passes count only grow, so that no store is out of bounds |
| ArgvBlocks.LaidReads | src/process/parser.c:147-202 | reading the finished block gives back every argument and file name as the substring of the line it was |
| Parsers.ParseCommand | src/process/parser.c:16-210 | the error code, or a block that means what the line means and is safe to walk; no argument and no file name in it contains white space (codes 9 to 13 and 32), NUL, #, &, <, > or a bar |
| Parsers.PrintArgv | src/process/parser.c:216-217 | each argument up to the null pointer, with a space behind it |
| Parsers.PrintParsedCommand | src/process/parser.c:214-228 | the text printed is the one of the command the block means |
| Parsers.Reparse | src/process/parser.c:16-228 | parse a line, print it, parse that: the second block means the same as the first |
| RoundRobin.QuotaIs | src/process/scheduler.c:7 | of the 18 slots 9 are high, 6 medium, 3 low, as the table is actually initialised |
| RoundRobin.OneRound | src/process/scheduler.c:54-184 | 18 calls that advance the cursor visit each priority exactly its quota, from any cursor |
| RoundRobin.Rounds | src/process/scheduler.c:54-184 | 18 m calls: exactly m times the quota |
| RoundRobin.NearerByOne | src/process/scheduler.c:73-85 | a visit dispatches the first of the queue and brings each other one place nearer; other queues stay |
| RoundRobin.Reached | src/process/scheduler.c:54-184 | a process behind k others runs once its class has been visited more than k times, whatever arrives behind it |
| RoundRobin.FairTurn | src/process/scheduler.c:54-184 | a process at position k runs within 18 * ceil((k + 1) / quota) calls despite arrivals |
| RoundRobin.TurnAt | src/process/scheduler.c:7-184 | the order of the turns, place by place, whatever the queues hold |
| RoundRobin.SoonServed | src/process/scheduler.c:54-184 | from any cursor, whatever arrives behind it, the first of the high or the medium queue runs within 4 calls, that of the low queue within 12 |
| RoundRobin.NotSooner | src/process/scheduler.c:7-184 | 3 calls do not always do, nor 11 |
| RoundRobin.StepKeepsAll | src/process/scheduler.c:73-85 | a call loses and moves nobody |
| Schedulers.Queue.MoveHeadBack | src/process/scheduler.c:73-84 | relinking head and tail is rotation of the sequence |
| Schedulers.Queue.Append | src/process/scheduler.c:205-212 | linking behind the tail is appending, also after the queue was emptied |
| Schedulers.Queue.Find | src/process/kernel.c:334-342 | the process of that id, null when there is none |
| Schedulers.Queue.Remove | src/process/scheduler.c:494-524 | unlinking head, middle or tail removes exactly that process and keeps the order of the rest |
| Schedulers.Queue.Unlink | src/process/scheduler.c:509-521 | the relinking of a process that is not the head |
| Schedulers.Kernel.DispatchFrom | src/process/scheduler.c:69-84 | the first of the queue runs and goes to the back; every other queue is untouched |
| Schedulers.Kernel.Scheduler | src/process/scheduler.c:54-184 | one call refines the choice and the step of the round-robin table: at places 0, 2, 3, 4, 7, 10, 14, 15, 16 of the round the first of the high queue runs and goes to the back, at 1, 5, 9, 11, 13, 17 that of the medium queue, at 6, 8, 12 that of the low queue; an empty queue passes the turn on, and with nobody ready the idle process runs or the scheduler stops |
| Schedulers.Kernel.TakeSlot | src/process/scheduler.c:63-183 | the slot whose turn it is: its queue's first process, or what is done when it is empty |
| Schedulers.Kernel.RunFirst | src/process/scheduler.c:66-168 | the queue whose turn it is has somebody: who runs, and the turn passes on |
| Schedulers.Kernel.FullRound | src/process/scheduler.c:54-184 | a whole round with somebody in every queue: who runs at each of its 18 places, call by call |
| Schedulers.Kernel.NothingHere | src/process/scheduler.c:172-183 | idle, stop or try the next slot, each exactly when due |
| Schedulers.Kernel.AppendTo | src/process/scheduler.c:205-212 | entering a queue keeps all queues linked and apart |
| Schedulers.Kernel.EnqueueBlocked | src/process/scheduler.c:186-216 | the process is marked blocked and is last in the blocked queue |
| Schedulers.Kernel.DequeueBlocked | src/process/scheduler.c:476-525 | exactly that process leaves the blocked queue; the order of the others is kept |
| Schedulers.Kernel.Enqueue | src/process/scheduler.c:310-392 | ready, behind the others of its priority; the queues stay in order exactly for priorities other than low |
| Schedulers.Kernel.EnqueueOnce | src/process/scheduler.c:334-392 | the same for the priorities that enter one queue |
| Schedulers.Kernel.AppendTwice | src/process/scheduler.c:350-392 | low priority falls through into the medium queue: one process in two queues, which then cannot be in order |
| Schedulers.Kernel.FindProcessByPid | src/process/kernel.c:334-389 | the process of that id, whichever queue it is in, and the only one; null exactly when no queue has it |
| Schedulers.Kernel.OnlyOne | src/process/kernel.c:334-389 | no two processes in queues have the same id |
| Schedulers.Kernel.CountDown | src/process/scheduler.c:714-730 | every sleeper not stopped counts down by one; the ids noted are those whose time is over, in order |
| Schedulers.Kernel.Wake | src/process/scheduler.c:731-736 | one process moves from the blocked queue to the one of its priority |
| Schedulers.Kernel.WakeAll | src/process/scheduler.c:731-736 | all whose time is over move, in order; who stays, stays in order |
| Schedulers.Kernel.AlarmHandler | src/process/scheduler.c:713-736 | one alarm is one step of the sleep clock on the blocked queue, and hands the woken to the ready queues in order: every sleeper not stopped has one alarm less to go, a process stays blocked exactly when it has alarms to go or waits for something else, and who does not is in the high queue exactly at priority -1, in the medium queue otherwise |
| SleepClock.ExactSleep | src/process/scheduler.c:713-736 | a process that sleeps t alarms is blocked for t - 1 of them and woken by the t-th, whoever blocks meanwhile |
| SleepClock.StillAsleep | src/process/scheduler.c:718-730 | after n < t alarms it has t - n to go |
| SleepClock.Unaffected | src/process/scheduler.c:720-724 | who waits for something else (-1) is not touched by any number of alarms |
| SleepClock.OrderKept | src/process/scheduler.c:731-736 | those who stay blocked keep their order |
| SleepClock.FirstWoken | src/process/scheduler.c:731-736 | taking the first of the woken out changes neither who stays nor the rest of the woken |

## Left out

- Host failures: open, read, lseek, mmap, malloc and realloc always succeed, so PEHOSTFS, PEHOSTIO and PENOMEM do not occur.
- Modification times, type and permission display, fs_chmod, fs_ls of one name, fs_freels.
- Handles for the terminal (stdiomode), which the open-file table skips, and handles cloned by p_spawn.
- Writing of an image by other programs: mounting is modelled for any image, the invariant is proved for those mkfs makes.
- FileSystems.FileSystem.TrackOpen: does not skip terminal handles, because those are not part of this model; FileSystems.FileSystem.TrackClose neither.
- FileSystems.FileSystem.Open: asks that the name finds no deleted entry and, in the largest geometry, for a free block when it has to make the directory grow; see above for both.
- FileSystems.FileSystem.Unlink: asks that the name finds no deleted entry with a stale block number; what happens then is in OpenTable.GhostUnlinkBreaks.
- FileSystems.FileSystem.Rename: the same for the old name, and no rename of a closed file with blocks to its own name.
- FileSystems.FileSystem.Write: asks for what the C arithmetic needs to be defined, and in the largest geometry for enough free blocks.
- Volumes.Volume.LinkNextFree: asks, in the largest geometry only, that a block is free; there the code could hand out cell 0xFFFF or search without end.
- Sessions.Run: does not make calls outside these conditions.
- Clients.Cat: the branches that read from the terminal or write to it; cp to and from the host. With -a the output must not be recorded longer than its blocks, as it can be after a write that ran out of space.
- Meaning.TightWritten: after a failed write block counts are not exact, by the code's own arithmetic.
- Parsers.ParseCommand: characters are those of the C locale; the single memory block with its computed offsets is three arrays.
- Schedulers.Kernel.AlarmHandler: asks that at most twenty processes wake at once, the size of the source's array, and that no low-priority process is blocked; the switch to the scheduler's context is not modelled.
- Schedulers.Kernel.Scheduler: the switch to the chosen context; a call is a step that returns its choice.
- Removal of a head by dequeue and dequeueStopped, which drops the rest of the queue, and all that builds on it: k_process_kill, k_process_cleanup, p_waitpid, p_nice.
- The orphan queue, log strings, signals, timers and contexts.
- The shell's job list, built-in commands and terminal output, and the wrappers in src/fs/user.c.
