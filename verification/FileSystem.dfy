/**
 * The file layer: the calls of the filesystem, changing directory, chains and open-file table in place.
 * Line numbers are those of src/fs/fat.c.
 */
module FileSystems {
  import opened Bytes
  import opened Contents
  import opened Directory
  import opened Errno
  import opened Fat
  import opened OpenTable
  import opened Store
  import opened Volumes

  const NOT_FOUND: u32 := 0xFFFF_FFFF
  const ROOT: u16 := 1

  const F_SEEK_SET := 1
  const F_SEEK_CUR := 2
  const F_SEEK_END := 3

  class FileSystem {
    const vol: Volume
    var openFiles: array<File?>
    var openedCount: nat

    constructor (vol: Volume)
      ensures this.vol == vol && openedCount == 0 && openFiles.Length == 4 && fresh(openFiles)
    {
      this.vol := vol;
      openedCount := 0;
      openFiles := new File?[4];
    }

    /** The block layer holds a root directory of whole entries. */
    ghost predicate Base()
      reads this, vol, vol.fat, vol.data
    {
      && vol.Shape()
      && vol.blockSize >= ENTRY_SIZE && vol.blockSize % ENTRY_SIZE == 0
      && vol.ch != [] && vol.ch[0] != [] && vol.ch[0][0] == ROOT
      && |vol.files[0]| == ENTRY_SIZE * Slots(vol.files[0]) == vol.blockSize * |vol.ch[0]|
      && |vol.ch| == 1 + Slots(vol.files[0])
    }

    ghost function Dir(): seq<byte>
      requires vol.files != []
      reads this, vol
    {
      vol.files[0]
    }

    lemma RootBlocks()
      requires Base()
      ensures forall i :: 0 <= i < |vol.ch[0]| ==> vol.ch[0][i] >= 1
      ensures forall i, i' :: 0 <= i < i' < |vol.ch[0]| ==> vol.ch[0][i] != vol.ch[0][i']
    {
      vol.ChainOf(0);
    }

    lemma SlotPlace(k: nat)
      requires Base() && k < Slots(Dir())
      ensures BlockIndex(vol.blockSize, k) < |vol.ch[0]|
      ensures At(vol.blockSize, BlockIndex(vol.blockSize, k), BlockPlace(vol.blockSize, k)) == ENTRY_SIZE * k
      ensures BlockPlace(vol.blockSize, k) + ENTRY_SIZE <= vol.blockSize
      ensures vol.ch[0][BlockIndex(vol.blockSize, k)] >= 1
    {
      EntryPlace(vol.blockSize, |vol.ch[0]|, k);
      RootBlocks();
    }

    /** An entry pointer dereferenced. */
    function Deref(addr: nat): entry
      requires addr + ENTRY_SIZE <= vol.data.Length
      reads vol.data
    {
      vol.data[addr..addr + ENTRY_SIZE]
    }

    ghost predicate PointsTo(addr: nat, k: nat)
      requires vol.files != [] && vol.ch != []
      reads this, vol
    {
      PointsAt(vol.blockSize, vol.ch[0], Dir(), addr, k)
    }

    lemma DerefIs(addr: nat, k: nat)
      requires Base() && PointsTo(addr, k)
      ensures addr + ENTRY_SIZE <= vol.data.Length && Deref(addr) == Entry(Dir(), k)
    {
      SlotPlace(k);
      vol.ReadableAt(0, BlockIndex(vol.blockSize, k), BlockPlace(vol.blockSize, k), ENTRY_SIZE);
    }

    /** Store `t` at byte `at` of the entry `addr` points to. */
    method Poke(addr: nat, at: nat, t: seq<byte>, ghost k: nat)
      requires Base() && PointsTo(addr, k) && at + |t| <= ENTRY_SIZE
      modifies vol`files, vol.data
      ensures Base() && PointsTo(addr, k)
      ensures vol.files == old(vol.files)[0 := PutEntry(old(Dir()), k, Splice(Entry(old(Dir()), k), at, t))]
    {
      hide Rep, Splice, Entry, At, Slots;
      SlotPlace(k);
      AtMore(vol.blockSize, BlockIndex(vol.blockSize, k), BlockPlace(vol.blockSize, k), at);
      PutField(Dir(), k, at, t);
      vol.Put(addr + at, t, 0, BlockIndex(vol.blockSize, k), BlockPlace(vol.blockSize, k) + at);
    }

    lemma RootSize()
      requires Base()
      ensures |Dir()| <= 4096 * 0xFFFE
    {
      vol.NoWrap(0, |vol.ch[0]|);
    }

    /** fs_read_blk on the root directory, at the entry of slot `k` or just past the last one. */
    method ReadRoot(offset: u32, len: nat, buf: array<byte>, ghost k: nat) returns (r: int)
      requires Base() && k <= Slots(Dir()) && offset == ENTRY_SIZE * k && 0 < len <= ENTRY_SIZE
      requires buf != vol.data && buf as object != vol.fat && buf.Length == len
      modifies vol`errno, buf
      ensures Base() && vol.errno == old(vol.errno)
      ensures k < Slots(Dir()) ==> r == len && buf[..] == Entry(Dir(), k)[..len]
      ensures k == Slots(Dir()) ==> r == 0 && buf[..] == old(buf[..])
    {
      hide Rep, At, Got, Splice, Entry, Slots;
      RootSize();
      ghost var q, o := Split(vol.blockSize, offset);
      vol.FetchedFits(0, q, o, len);
      GotEntry(Dir(), k, len, buf[..]);
      r := vol.ReadBlk(ROOT, offset, len, buf, 0, 0, 0, q, o);
    }

    /**
     * The directory offset of the entry called `fname`, the first one in directory order; NOT_FOUND if there is
     * none.
     */
    method Find(fname: cstring) returns (offset: u32)
      requires Base() && DirOK(Dir(), vol.ch)
      modifies vol`errno
      ensures Base()
      ensures FindSlot(Dir(), fname, 0) == -1 ==> offset == NOT_FOUND && vol.errno == PENOFILE
      ensures FindSlot(Dir(), fname, 0) != -1 ==>
                offset == ENTRY_SIZE * FindSlot(Dir(), fname, 0) && offset < 4096 * 0xFFFE
                && vol.errno == old(vol.errno)
    {
      hide Rep, DirOK, Entry, Slots, NameOf, CStr, FindSlot, SameName;
      offset := 0;
      var tempname := new byte[NAME_LEN];
      ghost var k := 0;
      RootSize();
      while true
        invariant fresh(tempname)
        invariant Base() && DirOK(Dir(), vol.ch) && vol.errno == old(vol.errno)
        invariant k <= Slots(Dir()) && offset == ENTRY_SIZE * k
        invariant FindSlot(Dir(), fname, k) == FindSlot(Dir(), fname, 0)
        invariant k == Slots(Dir()) ==> tempname[0] != 0 && !SameName(tempname[..], fname, 0)
        decreases Slots(Dir()) - k
      {
        var r := ReadRoot(offset, NAME_LEN, tempname, k);
        if r == -1 { return NOT_FOUND; }
        if k < Slots(Dir()) { FindStep(Dir(), vol.ch, fname, k, tempname[..]); }
        if tempname[0] == 0 { break; }
        if SameName(tempname[..], fname, 0) {
          return offset;
        }
        if r == 0 { break; }
        offset := offset + ENTRY_SIZE;
        k := k + 1;
      }
      FindEnd(Dir(), fname);
      vol.errno := PENOFILE;
      return NOT_FOUND;
    }

    // ---- the open-file table in place ----

    ghost predicate TableShape()
      reads this
    {
      0 < openFiles.Length && openedCount <= openFiles.Length
    }

    ghost function Handles(): seq<File?>
      requires TableShape()
      reads this, openFiles
    {
      openFiles[..openedCount]
    }

    method TrackOpen(f: File)
      requires TableShape()
      modifies this`openFiles, this`openedCount, openFiles
      ensures TableShape() && (openFiles == old(openFiles) || fresh(openFiles))
      ensures Handles() == old(Handles()) + [f]
    {
      if openedCount == openFiles.Length {
        var more := new File?[openFiles.Length * 2];
        forall i | 0 <= i < openFiles.Length {
          more[i] := openFiles[i];
        }
        openFiles := more;
      }
      openFiles[openedCount] := f;
      openedCount := openedCount + 1;
    }

    /** Lines 701-705: handle and last handle change places, and the table is one shorter. */
    method TakeOut(i: nat)
      requires TableShape() && i < openedCount
      modifies this`openedCount, openFiles
      ensures TableShape() && openedCount == old(openedCount) - 1
      ensures Handles() == SwapRemove(old(Handles()), i)
      ensures openFiles[i] == if i == openedCount then old(openFiles[i]) else old(openFiles[openedCount - 1])
    {
      var temp := openFiles[openedCount - 1];
      openFiles[openedCount - 1] := openFiles[i];
      openFiles[i] := temp;
      openedCount := openedCount - 1;
    }

    method TrackClose(f: File, ghost idx: nat) returns (count: nat)
      requires TableShape() && idx < openedCount
      requires forall i :: 0 <= i < openedCount ==> openFiles[i] != null && (openFiles[i] == f <==> i == idx)
      modifies this`openedCount, openFiles
      ensures TableShape()
      ensures Handles() == SwapRemove(old(Handles()), idx)
      ensures count == CloseCount(old(Handles()), idx)
    {
      hide CountEntry, SwapRemove, CloseTurn;
      ghost var h := Handles();
      TurnStart(h, idx, f.entry);
      count := 0;
      var i := 0;
      while i < openedCount
        invariant TableShape() && i >= 0 && CloseTurn(h, idx, f.entry, i, Handles(), count)
        decreases |h| - i
      {
        ghost var cur, before := Handles(), count;
        TurnHere(h, idx, i, cur, count);
        if openFiles[i] == f {
          TakeOut(i);
        }
        if openFiles[i].entry == f.entry {
          count := count + 1;
        }
        TurnDone(h, idx, i, cur, before, Handles(), count);
        i := i + 1;
      }
      TurnLast(h, idx, f.entry, i, Handles(), count);
    }

    // ---- the invariant of the mounted filesystem ----

    ghost predicate Valid()
      reads this, vol, vol.fat, vol.data, openFiles
    {
      && Base() && |vol.files| == |vol.ch| == 1 + Slots(vol.files[0]) && vol.blockSize >= ENTRY_SIZE
      && DirOK(Dir(), vol.ch)
      && TableShape() && openFiles as object != vol.data && openFiles as object != vol.fat
      && TableOK(Handles(), vol.blockSize, vol.ch[0], Dir())
    }

    /** Nothing of the volume has changed. */
    twostate predicate SameVolume()
      reads vol, vol.fat
    {
      vol.files == old(vol.files) && vol.ch == old(vol.ch) && vol.fat[..] == old(vol.fat[..])
    }

    /**
     * Close a handle. A file unlinked while open is deleted now when fs_trackclose reports that this was the last
     * handle.
     */
    method Close(f: File, ghost idx: nat)
      requires Valid() && idx < |Handles()| && Handles()[idx] == f
      modifies this`openedCount, openFiles, vol`files, vol`ch, vol.fat, vol.data
      ensures Valid() && Handles() == SwapRemove(old(Handles()), idx)
      ensures var e := Entry(old(Dir()), f.slot);
              if CloseCount(old(Handles()), idx) == 0 && Mark(e) == 2
              then vol.files == PutFile(old(vol.files), f.slot, WithMark(e, 1), [])
                   && vol.ch == old(vol.ch)[f.slot + 1 := []]
                      && vol.Free() == old(vol.Free()) + |old(vol.ch)[f.slot + 1]|
              else SameVolume()
    {
      hide Rep, DirOK, TableOK, Entry, Slots, PutEntry, CloseCount, EntryAddr, FreeSet, NameOf, SizeOf;
      ghost var k, h := f.slot, Handles();
      RemoveKeepsTable(h, idx, vol.blockSize, vol.ch[0], Dir());
      HandleFacts(idx);
      DerefIs(f.entry, k);
      var count := TrackClose(f, idx);
      if count == 0 && Mark(Deref(f.entry)) == 2 {
        RootBlocks();
        NoneLeft(h, idx, vol.blockSize, vol.ch[0], Dir());
        Dropped(Dir(), vol.ch, k);
        PutKeepsTable(Handles(), vol.blockSize, vol.ch[0], Dir(), k, WithMark(Entry(Dir(), k), 1));
        Poke(f.entry, 0, [1], k);
        DerefIs(f.entry, k);
        PutGet(old(Dir()), k, WithMark(Entry(old(Dir()), k), 1), k);
        var _ := vol.FreeBlk(BlockOf(Deref(f.entry)), k + 1);
      }
    }

    lemma HandleFacts(i: nat)
      requires Valid() && i < openedCount
      ensures openFiles[i] != null && PointsTo(openFiles[i].entry, openFiles[i].slot)
              && Live(Entry(Dir(), openFiles[i].slot))
      ensures forall k :: 0 <= k < openedCount ==> openFiles[k] != null && (openFiles[k] == openFiles[i] <==> k == i)
    {
      hide Base, DirOK, Entry, Slots, PointsAt;
      assert Handles()[i] == openFiles[i];
      assert forall k :: 0 <= k < openedCount ==> Handles()[k] == openFiles[k];
    }

    /** fs_dataoffset on the root directory: a pointer to the entry at `offset`. */
    method EntryAt(offset: u32, ghost k: nat) returns (addr: nat)
      requires Base() && k < Slots(Dir()) && offset == ENTRY_SIZE * k
      modifies vol`errno
      ensures Base() && PointsTo(addr, k) && vol.errno == old(vol.errno)
    {
      hide Rep, Entry, Slots;
      SlotPlace(k);
      addr := vol.DataOffset(ROOT, offset, 0, 0, BlockIndex(vol.blockSize, k), BlockPlace(vol.blockSize, k));
    }

    lemma TableFacts()
      requires Valid()
      ensures forall i :: 0 <= i < openedCount ==> openFiles[i] == Handles()[i] && openFiles[i] != null
      ensures forall i :: 0 <= i < openedCount ==>
                PointsTo(openFiles[i].entry, openFiles[i].slot) && Live(Entry(Dir(), openFiles[i].slot))
    {
      hide Rep, DirOK, TableOK, Entry, Slots, EntryAddr;
      forall i | 0 <= i < openedCount
        ensures openFiles[i] == Handles()[i] && openFiles[i] != null && PointsTo(openFiles[i].entry, openFiles[i].slot)
        ensures Live(Entry(Dir(), openFiles[i].slot))
      {
        HandleFacts(i);
      }
    }

    /** Is a file of that name open? */
    method NameInUse(entry: nat, ghost k: nat) returns (inUse: bool)
      requires Valid() && PointsTo(entry, k)
      ensures HandlesSlotted() && k < Slots(Dir())
      ensures inUse <==> Busy(Handles(), Dir(), k)
    {
      hide Rep, DirOK, TableOK, Entry, Slots, EntryAddr, SameName, NameOf, CStr;
      TableFacts();
      DerefIs(entry, k);
      inUse := false;
      for i := 0 to openedCount
        invariant forall i' :: 0 <= i' < i ==> NameOf(Entry(Dir(), openFiles[i'].slot)) != NameOf(Entry(Dir(), k))
      {
        DerefIs(openFiles[i].entry, openFiles[i].slot);
        NamesCompared(Entry(Dir(), openFiles[i].slot), Entry(Dir(), k));
        if SameName(Deref(openFiles[i].entry)[..NAME_LEN], Deref(entry)[..NAME_LEN], 0) {
          assert NameOf(Entry(Dir(), Handles()[i].slot)) == NameOf(Entry(Dir(), k));
          return true;
        }
      }
    }

    /** Every handle is on some slot. */
    ghost predicate HandlesSlotted()
      reads this, openFiles, vol
    {
      TableShape() && vol.files != [] && forall i :: 0 <= i < |Handles()| ==>
        Handles()[i] != null && Handles()[i].slot < Slots(Dir())
    }

    lemma Slotted()
      requires Valid()
      ensures HandlesSlotted()
    {
      hide Base, DirOK, Entry, Slots, EntryAddr;
    }

    /**
     * Remove the name; the blocks go too, unless the file is in use: then it is only marked. A name that finds a
     * deleted entry does no harm as long as that entry names no block.
     */
    method Unlink(fname: cstring) returns (r: int)
      requires Valid() && !FindsStale(Dir(), fname)
      modifies vol`errno, vol`files, vol`ch, vol.fat, vol.data
      ensures Valid() && old(HandlesSlotted())
      ensures var k := FindSlot(old(Dir()), fname, 0);
              var inUse := Busy(Handles(), old(Dir()), k);
              && vol.files == UnlinkFiles(old(vol.files), k, inUse)
              && vol.ch == UnlinkChains(old(vol.ch), k, inUse)
              && vol.Free() == old(vol.Free()) + UnlinkFrees(old(vol.ch), k, inUse)
              && if k == -1 then r == -1 && vol.errno == PENOFILE && SameVolume()
                 else r == 0 && vol.errno == old(vol.errno)
    {
      hide Rep, DirOK, TableOK, Entry, Slots, PutEntry, EntryAddr, FindSlot, Busy, FreeSet, NameOf;
      Slotted();
      var offset := Find(fname);
      ghost var k := FindSlot(Dir(), fname, 0);
      if offset == NOT_FOUND {
        NotBusy(Handles(), Dir());
        return -1;
      }
      ghost var e := Entry(Dir(), k);
      FoundEntry(Dir(), vol.ch, fname);
      var entry := EntryAt(offset, k);
      var inUse := NameInUse(entry, k);
      BusyIs(Handles(), vol.blockSize, vol.ch[0], Dir(), vol.ch, k);
      DerefIs(entry, k);
      if !inUse {
        Drop(entry, k);
      } else {
        Unlinked(Dir(), vol.ch, k);
        PutKeepsTable(Handles(), vol.blockSize, vol.ch[0], Dir(), k, WithMark(e, 2));
        Poke(entry, 0, [2], k);
      }
      return 0;
    }

    /** Lines 302-304 for a file nobody has open. */
    method Drop(entry: nat, ghost k: nat)
      requires Valid() && PointsTo(entry, k) && !OpenOn(Handles(), k) && Mark(Entry(Dir(), k)) != 0
      requires Live(Entry(Dir(), k)) || BlockOf(Entry(Dir(), k)) == 0
      modifies vol`files, vol`ch, vol.fat, vol.data
      ensures Valid() && PointsTo(entry, k)
      ensures vol.files == PutFile(old(vol.files), k, WithMark(Entry(old(Dir()), k), 1), [])
      ensures vol.ch == old(vol.ch)[k + 1 := []] && vol.Free() == old(vol.Free()) + |old(vol.ch)[k + 1]|
    {
      hide Rep, DirOK, TableOK, Entry, Slots, PutEntry, EntryAddr;
      DerefIs(entry, k);
      Dropped(Dir(), vol.ch, k);
      PutKeepsTable(Handles(), vol.blockSize, vol.ch[0], Dir(), k, WithMark(Entry(Dir(), k), 1));
      var _ := vol.FreeBlk(BlockOf(Deref(entry)), k + 1);
      Poke(entry, 0, [1], k);
    }

    /**
     * Give the file `oldname` the name `newname`, removing what had it. Renaming a file to its own name is only
     * harmless while it is open or has no blocks; reviving a deleted entry, only if it names no block.
     */
    method Rename(oldname: cstring, newname: cstring) returns (r: int)
      requires Valid() && (ValidName(newname) ==> !FindsStale(Dir(), oldname))
      requires oldname == newname && ValidName(newname) && FindSlot(Dir(), oldname, 0) != -1 ==>
                 OpenOn(Handles(), FindSlot(Dir(), oldname, 0)) || vol.ch[FindSlot(Dir(), oldname, 0) + 1] == []
      modifies vol`errno, vol`files, vol`ch, vol.fat, vol.data
      ensures Valid()
      ensures var k, t := FindSlot(old(Dir()), oldname, 0), FindSlot(old(Dir()), newname, 0);
              if k == -1 then r == -1 && vol.errno == PENOFILE && SameVolume()
              else if !ValidName(newname) then r == -1 && vol.errno == PEFNAME && SameVolume()
              else
                && r == 0
                && vol.files == RenameFiles(UnlinkFiles(old(vol.files), t, OpenOn(Handles(), t)), k, newname)
                && vol.ch == UnlinkChains(old(vol.ch), t, OpenOn(Handles(), t))
                && vol.Free() == old(vol.Free()) + UnlinkFrees(old(vol.ch), t, OpenOn(Handles(), t))
    {
      hide Rep, DirOK, TableOK, Entry, Slots, PutEntry, EntryAddr, FindSlot, ValidName, UnlinkFiles, UnlinkChains,
          PointsAt, OpenOn;
      var offset := Find(oldname);
      if offset == NOT_FOUND { return -1; }
      var ok := CheckName(newname);
      if !ok {
        vol.errno := PEFNAME;
        return -1;
      }
      ValidNotGhostly(newname);
      r := Replace(offset, oldname, newname);
    }

    /** Lines 396-404: the old owner of the new name goes, the file takes the name. */
    method Replace(offset: u32, ghost oldname: cstring, newname: cstring) returns (r: int)
      requires Valid() && !FindsStale(Dir(), oldname) && ValidName(newname)
      requires FindSlot(Dir(), oldname, 0) != -1 && offset == ENTRY_SIZE * FindSlot(Dir(), oldname, 0)
      requires oldname == newname ==>
                 OpenOn(Handles(), FindSlot(Dir(), oldname, 0)) || vol.ch[FindSlot(Dir(), oldname, 0) + 1] == []
      modifies vol`errno, vol`files, vol`ch, vol.fat, vol.data
      ensures Valid() && r == 0 && |newname| < NAME_LEN
      ensures var k, t := FindSlot(old(Dir()), oldname, 0), FindSlot(old(Dir()), newname, 0);
              && vol.files == RenameFiles(UnlinkFiles(old(vol.files), t, OpenOn(Handles(), t)), k, newname)
              && vol.ch == UnlinkChains(old(vol.ch), t, OpenOn(Handles(), t))
              && vol.Free() == old(vol.Free()) + UnlinkFrees(old(vol.ch), t, OpenOn(Handles(), t))
    {
      hide Base, Rep, DirOK, TableOK, Entry, Slots, PutEntry, EntryAddr, FindSlot, ValidName, UnlinkFiles,
          UnlinkChains, UnlinkFrees, PointsAt, OpenOn, RenameFiles, Busy;
      ghost var files, ch, h := vol.files, vol.ch, Handles();
      ghost var k, t := FindSlot(files[0], oldname, 0), FindSlot(files[0], newname, 0);
      NonNull();
      ghost var inUse := OpenOn(h, t);
      ValidNotGhostly(newname);
      FoundEntry(files[0], ch, oldname);
      NotDead(files[0], newname);
      if t != -1 { FoundListed(files[0], ch, newname); }
      Slotted();
      if t != -1 { BusyIs(h, vol.blockSize, ch[0], files[0], ch, t); } else { NotBusy(h, files[0]); }
      r := Unlink(newname);
      if r == -1 {
        if vol.errno != PENOFILE { return -1; }
      }
      assert Handles() == h && vol.files == UnlinkFiles(files, t, inUse) && vol.ch == UnlinkChains(ch, t, inUse);
      var entry := EntryAt(offset, k);
      Renamed(files, ch, k, oldname, t, newname, inUse);
      PutName(entry, newname, k);
      return 0;
    }

    lemma NonNull()
      requires Valid()
      ensures forall i :: 0 <= i < |Handles()| ==> Handles()[i] != null
    {}

    /** Line 402. */
    method PutName(entry: nat, newname: cstring, ghost k: nat)
      requires Valid() && PointsTo(entry, k) && |newname| < NAME_LEN
      requires Live(WithName(Entry(Dir(), k), newname))
      requires DirOK(PutEntry(Dir(), k, WithName(Entry(Dir(), k), newname)), vol.ch)
      modifies vol`files, vol.data
      ensures Valid() && vol.files == RenameFiles(old(vol.files), k, newname)
    {
      hide Rep, DirOK, TableOK, Entry, Slots, PutEntry, EntryAddr;
      PutKeepsTable(Handles(), vol.blockSize, vol.ch[0], Dir(), k, WithName(Entry(Dir(), k), newname));
      Poke(entry, 0, Padded(newname), k);
    }

    /** Lines 420-426 and 389-395: is this a name a file may have? */
    method CheckName(name: cstring) returns (ok: bool)
      ensures ok <==> ValidName(name)
    {
      if |name| == 0 || |name| > 31 { return false; }
      for i := 0 to |name|
        invariant forall i' :: 0 <= i' < i ==> NameChar(name[i'])
      {
        if !NameChar(name[i]) { return false; }
      }
      return true;
    }

    /** Lines 428-437: the offset of the first unused slot. */
    method FindUnused() returns (r: int, offset: u32)
      requires Valid()
      modifies vol`errno
      ensures Valid() && vol.errno == old(vol.errno)
      ensures offset == ENTRY_SIZE * FirstUnused(Dir(), 0) && offset <= 4096 * 0xFFFE
      ensures r == 0 <==> FirstUnused(Dir(), 0) == Slots(Dir())
      ensures r == 0 || r == 1
    {
      hide Rep, DirOK, TableOK, Entry, Slots;
      offset := 0;
      var indicator := new byte[1];
      ghost var k := 0;
      RootSize();
      while true
        invariant Valid() && vol.errno == old(vol.errno)
        invariant k <= Slots(Dir()) && offset == ENTRY_SIZE * k
        invariant FirstUnused(Dir(), k) == FirstUnused(Dir(), 0)
        invariant k == Slots(Dir()) ==> indicator[0] != 0 && indicator[0] != 1
        decreases Slots(Dir()) - k
      {
        r := ReadRoot(offset, 1, indicator, k);
        if r == -1 { assert false; }
        if indicator[0] == 0 || indicator[0] == 1 || r == 0 { break; }
        offset := offset + ENTRY_SIZE;
        k := k + 1;
      }
    }

    /** The root chain grows by one zeroed block. */
    method GrowRoot(offset: u32) returns (ok: bool)
      requires Valid() && offset == ENTRY_SIZE * Slots(Dir()) && FirstUnused(Dir(), 0) == Slots(Dir()) && vol.Roomy(1)
      modifies vol`errno, vol`files, vol`ch, vol.fat, vol.data
      ensures Valid()
      ensures ok <==> old(vol.Free()) > 0
      ensures !ok ==> vol.errno == PETOOFAT && SameVolume()
      ensures ok ==> vol.errno == old(vol.errno) && vol.Free() == old(vol.Free()) - 1
      ensures ok ==> vol.files == GrownFiles(old(vol.files), vol.blockSize)
      ensures ChainsKept(old(vol.ch), vol.ch) && (ok ==> |vol.ch[0]| == |old(vol.ch)[0]| + 1)
    {
      hide Rep, DirOK, TableOK, Entry, Slots, At, Splice, FirstUnused, FreeSet;
      ghost var n, bs := |vol.ch[0]|, vol.blockSize;
      ghost var d, ch := Dir(), vol.ch;
      assert At(bs, n, 0) == |d| by { AtBlock(bs, n); }
      MulStep(bs, n);
      var blkno := vol.ExtendBlk(ROOT, offset, 0, 0, n, 0);
      if blkno == -1 { return false; }
      var addr := vol.DataOffset(ROOT, offset, 0, 0, n, 0);
      vol.SizeOf(0);
      ZeroedTail(vol.files[0], d, bs);
      vol.Put(addr, Zeros(vol.blockSize), 0, n, 0);
      RootGrown(bs, Handles(), d, ch, vol.ch[0]);
      vol.Pad(bs / ENTRY_SIZE);
      return true;
    }

    /** Lines 447-454: the fields of a new entry, one store after the other. */
    method FillEntry(entry: nat, name: cstring, ghost k: nat)
      requires Base() && PointsTo(entry, k) && |name| < NAME_LEN
      modifies vol`files, vol.data
      ensures Base() && PointsTo(entry, k)
      ensures vol.files == old(vol.files)[0 := PutEntry(old(Dir()), k, NewEntry(Entry(old(Dir()), k), name))]
    {
      hide Rep, Entry, Slots, PutEntry, EntryAddr, Splice;
      ghost var d := Dir();
      ghost var e1 := WithName(Entry(d, k), name);
      ghost var e2, e3 := WithSize(e1, 0), WithBlock(WithSize(e1, 0), 0);
      PutGet(d, k, e1, k);
      PutGet(d, k, e2, k);
      PutGet(d, k, e3, k);
      PutTwice(d, k, e1, e2);
      PutTwice(d, k, e2, e3);
      PutTwice(d, k, e3, WithKind(e3, REGULAR, READ_WRITE));
      Poke(entry, 0, Padded(name), k);
      Poke(entry, 32, Enc32(0), k);
      Poke(entry, 36, Enc16(0), k);
      Poke(entry, 38, [REGULAR, READ_WRITE], k);
    }

    /** Lines 446-466: the slot is found, make the file there. */
    method Create(offset: u32, name: cstring, mode: Mode, ghost k: nat) returns (f: File)
      requires Valid() && FindSlot(Dir(), name, 0) == -1 && ValidName(name)
      requires k == FirstUnused(Dir(), 0) < Slots(Dir()) && offset == ENTRY_SIZE * k
      modifies this`openFiles, this`openedCount, openFiles, vol`errno, vol`files, vol.data
      ensures Valid() && (openFiles == old(openFiles) || fresh(openFiles)) && vol.errno == old(vol.errno)
      ensures fresh(f) && f.slot == k && f.mode == mode && f.offset == 0 && Handles() == old(Handles()) + [f]
      ensures k < Slots(Dir()) && SizeOf(Entry(Dir(), k)) == 0
      ensures vol.files == old(vol.files)[0 := PutEntry(old(Dir()), k, NewEntry(Entry(old(Dir()), k), name))]
    {
      hide Rep, DirOK, TableOK, Entry, Slots, PutEntry, EntryAddr, FindSlot, ValidName, FirstUnused, NewEntry;
      ghost var d, h, root := Dir(), Handles(), vol.ch[0];
      ValidNotGhostly(name);
      ghost var e := NewEntry(Entry(d, k), name);
      Created(d, vol.ch, k, name);
      NewEntryFields(Entry(d, k), name);
      PutGet(d, k, e, k);
      PutKeepsTable(h, vol.blockSize, root, d, k, e);
      UnusedClosed(h, vol.blockSize, root, d, k);
      var entry := EntryAt(offset, k);
      f := new File(entry, mode, 0, k);
      FillEntry(entry, name, k);
      AddKeepsTable(h, vol.blockSize, root, Dir(), f);
      TrackOpen(f);
    }

    /** Create a file in the first unused slot and open it. */
    method MakeFile(name: cstring, mode: Mode) returns (f: File?)
      requires Valid() && mode != F_READ && FindSlot(Dir(), name, 0) == -1
      requires MustGrow(vol.files, name, mode) ==> vol.Roomy(1)
      modifies this`openFiles, this`openedCount, openFiles, vol`errno, vol`files, vol`ch, vol.fat, vol.data
      ensures Valid() && (openFiles == old(openFiles) || fresh(openFiles))
      ensures f == null <==>
                !ValidName(name) || (FirstUnused(old(Dir()), 0) == Slots(old(Dir())) && old(vol.Free()) == 0)
      ensures f != null <==>
              && 1 <= |name| <= 31
              && (forall i :: 0 <= i < |name| ==>
                    || 48 <= name[i] <= 57 || 65 <= name[i] <= 90 || 97 <= name[i] <= 122
                    || name[i] == 45 || name[i] == 46 || name[i] == 95)
              && (FirstUnused(old(Dir()), 0) < Slots(old(Dir())) || old(vol.Free()) > 0)
      ensures f == null ==>
                && vol.errno == (if ValidName(name) then PETOOFAT else PEFNAME)
                && SameVolume() && Handles() == old(Handles())
      ensures f != null ==> fresh(f) && f.slot == FirstUnused(old(Dir()), 0) && f.mode == mode && f.offset == 0
      ensures f != null ==> Handles() == old(Handles()) + [f] && |name| < NAME_LEN
      ensures f != null ==> f.slot < Slots(Dir()) && SizeOf(Entry(Dir(), f.slot)) == 0
      ensures f != null ==> vol.files == MadeFiles(old(vol.files), vol.blockSize, name)
      ensures ChainsKept(old(vol.ch), vol.ch)
      ensures f != null ==> vol.Free() == old(vol.Free()) - DirGrowth(old(Dir()))
    {
      hide Rep, DirOK, TableOK, Entry, Slots, PutEntry, EntryAddr, FindSlot, FirstUnused, NewEntry, ChainsKept;
      KeepsChains(vol.ch);
      ValidNameIs(name);
      var ok := CheckName(name);
      if !ok {
        vol.errno := PEFNAME;
        return null;
      }
      var r, offset := FindUnused();
      ghost var d, ch := Dir(), vol.ch;
      ghost var k := FirstUnused(d, 0);
      if r == 0 {
        ok := GrowRoot(offset);
        if !ok { return null; }
        GrownSearch(vol.blockSize, d, ch, name);
      }
      f := Create(offset, name, mode, k);
    }

    /** Lines 127-138: may the entry be opened in this mode? */
    method CheckLock(entry: nat, mode: Mode, ghost k: nat) returns (free: bool)
      requires Valid() && PointsTo(entry, k)
      ensures free <==> !Locked(Handles(), k, mode)
      ensures forall i :: 0 <= i < |Handles()| ==> Handles()[i] != null
      ensures free <==>
              || (forall i :: 0 <= i < |Handles()| ==> Handles()[i].slot != k)
              || (mode == F_READ && forall i :: 0 <= i < |Handles()| && Handles()[i].slot == k ==>
                    Handles()[i].mode == F_READ)
    {
      hide Rep, DirOK, TableOK, Entry, Slots, EntryAddr;
      NonNull();
      LockedIff(Handles(), k, mode);
      TableFacts();
      RootBlocks();
      EntriesTold(entry, k);
      for i := 0 to openedCount
        invariant forall i' :: 0 <= i' < i ==>
                    !(openFiles[i'].slot == k && (openFiles[i'].mode != F_READ || mode != F_READ))
      {
        var other := openFiles[i];
        if other.entry != entry { continue; }
        if other.mode != F_READ || mode != F_READ {
          assert Handles()[i].slot == k;
          return false;
        }
      }
      return true;
    }

    lemma EntriesTold(entry: nat, k: nat)
      requires Valid() && PointsTo(entry, k)
      ensures forall i :: 0 <= i < openedCount ==>
                openFiles[i] != null && (openFiles[i].entry == entry <==> openFiles[i].slot == k)
    {
      hide Rep, DirOK, TableOK, Entry, Slots, EntryAddr;
      TableFacts();
      RootBlocks();
      SameEntry(Handles(), vol.blockSize, vol.ch[0], Dir(), entry, k);
      assert forall i :: 0 <= i < openedCount ==> Handles()[i] == openFiles[i];
    }

    /** Lines 149-154: give back the blocks and the size. */
    method Truncate(f: File)
      requires Valid() && PointsTo(f.entry, f.slot) && Live(Entry(Dir(), f.slot))
      modifies vol`files, vol`ch, vol.fat, vol.data
      ensures Valid() && PointsTo(f.entry, f.slot)
      ensures vol.files == PutFile(old(vol.files), f.slot, Emptied(Entry(old(Dir()), f.slot)), [])
      ensures vol.ch == old(vol.ch)[f.slot + 1 := []] && vol.Free() == old(vol.Free()) + |old(vol.ch)[f.slot + 1]|
    {
      hide Rep, DirOK, TableOK, Entry, Slots, PutEntry, EntryAddr, Splice, FreeSet, NameOf, SizeOf, BlockOf;
      ghost var d, k := Dir(), f.slot;
      ghost var e := Entry(d, k);
      DerefIs(f.entry, k);
      EmptiedIs(d, vol.ch, k);
      PutKeepsTable(Handles(), vol.blockSize, vol.ch[0], d, k, Emptied(e));
      PutGet(d, k, WithBlock(e, 0), k);
      PutTwice(d, k, WithBlock(e, 0), Emptied(e));
      var _ := vol.FreeBlk(BlockOf(Deref(f.entry)), k + 1);
      Poke(f.entry, 36, Enc16(0), k);
      Poke(f.entry, 32, Enc32(0), k);
    }

    /**
     * Open a file. Readers share; a writer is alone. Writing and appending create the file when it is missing;
     * writing to a file that may be written to starts from nothing.
     */
    method Open(name: cstring, mode: Mode) returns (f: File?)
      requires Valid() && !FindsDead(Dir(), name) && (MustGrow(vol.files, name, mode) ==> vol.Roomy(1))
      modifies this`openFiles, this`openedCount, openFiles, vol`errno, vol`files, vol`ch, vol.fat, vol.data
      ensures Valid() && (openFiles == old(openFiles) || fresh(openFiles))
      ensures old(NoNull(Handles())) && |old(vol.ch)| == |old(vol.files)| && vol.blockSize >= ENTRY_SIZE
      ensures f != null <==> old(CanOpen(vol.files, vol.Free(), Handles(), name, mode))
      ensures var h, k := old(Handles()), FindSlot(old(Dir()), name, 0);
              k != -1 ==>
                && (f != null <==>
                      || (forall i :: 0 <= i < |h| ==> h[i].slot != k)
                      || (mode == F_READ && forall i :: 0 <= i < |h| && h[i].slot == k ==> h[i].mode == F_READ))
                && (f == null ==> vol.errno == PEINUSE)
      ensures f == null && FindSlot(old(Dir()), name, 0) == -1 ==>
                vol.errno == if mode == F_READ then PENOFILE else if ValidName(name) then PETOOFAT else PEFNAME
      ensures f == null ==>
                SameVolume() && Handles() == old(Handles()) && vol.errno == OpenError(old(vol.files), name, mode)
      ensures f != null ==> fresh(f) && f.mode == mode && Handles() == old(Handles()) + [f] && f.slot < Slots(Dir())
      ensures f != null ==> f.offset == if mode == F_APPEND then SizeOf(Entry(Dir(), f.slot)) else 0
      ensures f != null && FindSlot(old(Dir()), name, 0) != -1 ==>
                vol.errno == old(vol.errno) && (!Empties(old(vol.files), name, mode) ==> SameVolume())
      ensures f != null ==>
                DidOpen(vol.blockSize, old(vol.files), old(vol.ch), old(vol.Free()), vol.files, vol.ch, vol.Free(),
                    name, mode, f.slot)
    {
      hide Rep, DirOK, TableOK, Entry, Slots, PutEntry, EntryAddr, FindSlot, FirstUnused, MadeFiles, ChainsKept,
          Emptied, Locked;
      NonNull();
      ghost var h, k := Handles(), FindSlot(Dir(), name, 0);
      if k != -1 { LockedIff(h, k, mode); }
      var offset := Find(name);
      if offset == NOT_FOUND {
        if mode != F_READ && vol.errno == PENOFILE {
          f := MakeFile(name, mode);
          return;
        }
        return null;
      }
      f := OpenFound(offset, name, mode);
    }

    /** Lines 123-155: the entry is there. */
    method OpenFound(offset: u32, ghost name: cstring, mode: Mode) returns (f: File?)
      requires Valid() && !FindsDead(Dir(), name) && FindSlot(Dir(), name, 0) != -1
               && offset == ENTRY_SIZE * FindSlot(Dir(), name, 0)
      modifies this`openFiles, this`openedCount, openFiles, vol`errno, vol`files, vol`ch, vol.fat, vol.data
      ensures Valid() && (openFiles == old(openFiles) || fresh(openFiles))
      ensures f == null ==> SameVolume() && Handles() == old(Handles()) && vol.errno == PEINUSE
      ensures f == null <==> Locked(old(Handles()), FindSlot(old(Dir()), name, 0), mode)
      ensures f != null ==>
                fresh(f) && f.mode == mode && Handles() == old(Handles()) + [f] && vol.errno == old(vol.errno)
      ensures f != null ==> f.slot == FindSlot(old(Dir()), name, 0) < Slots(Dir())
      ensures f != null ==> f.offset == if mode == F_APPEND then SizeOf(Entry(Dir(), f.slot)) else 0
      ensures f != null ==> if mode == F_WRITE && May(Entry(old(Dir()), f.slot), PERM_WRITE)
                            then vol.files == PutFile(old(vol.files), f.slot, Emptied(Entry(old(Dir()), f.slot)), [])
                                 && vol.ch == old(vol.ch)[f.slot + 1 := []]
                                    && vol.Free() == old(vol.Free()) + |old(vol.ch)[f.slot + 1]|
                            else SameVolume()
    {
      hide Base, Rep, DirOK, TableOK, Entry, Slots, PutEntry, EntryAddr, FindSlot, Emptied, PointsAt, Locked;
      ghost var k := FindSlot(Dir(), name, 0);
      FoundEntry(Dir(), vol.ch, name);
      var entry := EntryAt(offset, k);
      f := Admit(entry, mode, k);
      if f == null { return; }
      DerefIs(entry, k);
      if mode == F_WRITE && May(Deref(entry), PERM_WRITE) {
        Truncate(f);
      }
    }

    /** Lines 127-146: take the lock, track the handle. */
    method Admit(entry: nat, mode: Mode, ghost k: nat) returns (f: File?)
      requires Valid() && PointsTo(entry, k) && Live(Entry(Dir(), k))
      modifies this`openFiles, this`openedCount, openFiles, vol`errno
      ensures Valid() && (openFiles == old(openFiles) || fresh(openFiles)) && PointsTo(entry, k)
      ensures f == null <==> Locked(old(Handles()), k, mode)
      ensures f == null ==> vol.errno == PEINUSE && Handles() == old(Handles())
      ensures f != null ==> fresh(f) && f.slot == k && f.mode == mode && f.entry == entry && vol.errno == old(vol.errno)
      ensures f != null ==>
                && Handles() == old(Handles()) + [f]
                && f.offset == if mode == F_APPEND then SizeOf(Entry(Dir(), k)) else 0
    {
      hide Rep, DirOK, TableOK, Entry, Slots, PutEntry, EntryAddr, FindSlot;
      DerefIs(entry, k);
      var free := CheckLock(entry, mode, k);
      if !free {
        vol.errno := PEINUSE;
        return null;
      }
      NonNull();
      f := new File(entry, mode, if mode == F_APPEND then SizeOf(Deref(entry)) else 0, k);
      Unlocked(Handles(), f);
      AddKeepsTable(Handles(), vol.blockSize, vol.ch[0], Dir(), f);
      TrackOpen(f);
    }

    /** `f` is the handle at place `idx` of the open-file table. */
    ghost predicate Tracked(f: File, idx: nat)
      requires TableShape()
      reads this, openFiles, vol
    {
      idx < openedCount && openFiles[idx] == f && vol.files != [] && f.slot < Slots(Dir())
    }

    lemma TrackedFacts(f: File, idx: nat)
      requires Valid() && Tracked(f, idx)
      ensures PointsTo(f.entry, f.slot) && f.slot < Slots(Dir()) && Live(Entry(Dir(), f.slot))
      ensures f.entry + ENTRY_SIZE <= vol.data.Length && Deref(f.entry) == Entry(Dir(), f.slot)
      ensures var e, c := Entry(Dir(), f.slot), vol.ch[f.slot + 1];
              && (if c == [] then BlockOf(e) == 0 && SizeOf(e) == 0 else BlockOf(e) == c[0] != 0)
      ensures |vol.files[f.slot + 1]| == vol.blockSize * |vol.ch[f.slot + 1]| <= 4096 * 0xFFFE
    {
      hide Rep, TableOK, EntryAddr;
      HandleFacts(idx);
      DerefIs(f.entry, f.slot);
      assert SlotOK(Entry(Dir(), f.slot), vol.ch[f.slot + 1]);
      vol.SizeOf(f.slot + 1);
      vol.NoWrap(f.slot + 1, |vol.ch[f.slot + 1]|);
    }

    /**
     * What fs_read delivers: the content from the offset on; but when offset and length sum up to 2^32 or more, what
     * the block layer fetches, not clipped to the size.
     */
    ghost function Delivered(f: File, len: u32): seq<byte>
      requires Valid() && f.slot < Slots(Dir())
      reads this, vol, vol.fat, vol.data, openFiles, f
    {
      var off := f.offset;
      if off > SizeOf(Entry(Dir(), f.slot)) || off + len < 0x1_0000_0000 then Got(Content(vol.files, f.slot), off, len)
      else FetchedAt(f, off, len)
    }

    ghost function FetchedAt(f: File, off: u32, len: u32): seq<byte>
      requires vol.blockSize > 0 && f.slot + 1 < |vol.ch| && f.slot + 1 < |vol.files|
      reads vol, vol.data
    {
      vol.Fetched(f.slot + 1, off / vol.blockSize, off % vol.blockSize, len)
    }

    /** Read through a handle. */
    method Read(f: File, len: u32, buf: array<byte>, ghost idx: nat) returns (r: int)
      requires Valid() && Tracked(f, idx)
      requires len <= buf.Length && buf != vol.data && buf as object != vol.fat && buf as object != openFiles
      modifies f, vol`errno, buf
      ensures Valid() && old(|Delivered(f, len)|) <= len
      ensures !May(Entry(Dir(), f.slot), PERM_READ) ==>
                r == -1 && vol.errno == PEFPERM && f.offset == old(f.offset) && buf[..] == old(buf[..])
      ensures May(Entry(Dir(), f.slot), PERM_READ) ==>
                && r == |old(Delivered(f, len))| && f.offset == old(f.offset) + r && vol.errno == old(vol.errno)
                && buf[..] == Splice(old(buf[..]), 0, old(Delivered(f, len)))
    {
      hide Base, Rep, DirOK, TableOK, Entry, Slots, EntryAddr, At, Got, Splice, ReadLength, ContentOf, SizeOf,
          Delivered, FetchedAt, PointsAt;
      TrackedFacts(f, idx);
      ghost var k := f.slot;
      DeliveredIs(f, len, idx);
      if !May(Deref(f.entry), PERM_READ) {
        Raise(PEFPERM);
        return -1;
      }
      var n := ReadLength(f.offset, len, SizeOf(Deref(f.entry)));
      GotZero(vol.files[k + 1], f.offset, buf[..], 0);
      if n == 0 { return 0; }
      r := ReadOn(f, n, buf, idx);
    }

    /** Lines 196-198: read `n` bytes of the chain and move on. */
    method ReadOn(f: File, n: u32, buf: array<byte>, ghost idx: nat) returns (r: int)
      requires Valid() && Tracked(f, idx) && SizeOf(Entry(Dir(), f.slot)) > 0
      requires n <= buf.Length && buf != vol.data && buf as object != vol.fat && buf as object != openFiles
      modifies f, vol`errno, buf
      ensures Valid() && Tracked(f, idx) && vol.errno == old(vol.errno) && f.offset == old(f.offset) + r
      ensures |FetchedAt(f, old(f.offset), n)| <= n && r == |FetchedAt(f, old(f.offset), n)|
      ensures buf[..] == Splice(old(buf[..]), 0, FetchedAt(f, old(f.offset), n))
    {
      hide Rep, DirOK, TableOK, Entry, Slots, EntryAddr, At, Got, Splice, Volume.Fetched;
      TrackedFacts(f, idx);
      ghost var q, o := Split(vol.blockSize, f.offset);
      vol.FetchedEnds(f.slot + 1, q, o, n);
      r := vol.ReadBlk(BlockOf(Deref(f.entry)), f.offset, n, buf, 0, f.slot + 1, 0, q, o);
      f.offset := f.offset + r;
    }

    /** Lines 192-196: the length asked for, and what the block layer makes of it. */
    lemma DeliveredIs(f: File, len: u32, idx: nat)
      requires Valid() && Tracked(f, idx)
      ensures vol.blockSize > 0 && f.slot + 1 < |vol.ch| == |vol.files| && |Delivered(f, len)| <= len
      ensures var size := SizeOf(Entry(Dir(), f.slot));
              var n := ReadLength(f.offset, len, size);
              && n <= len
              && if n == 0 then Delivered(f, len) == [] else size > 0 && Delivered(f, len) == FetchedAt(f, f.offset, n)
    {
      hide Rep, DirOK, TableOK, Entry, Slots, EntryAddr, At, Got, ContentOf, SizeOf, PointsAt;
      TrackedFacts(f, idx);
      ghost var size, k := SizeOf(Entry(Dir(), f.slot)), f.slot;
      ghost var n := ReadLength(f.offset, len, size);
      ghost var q, o := Split(vol.blockSize, f.offset);
      ReadIsSlice(Entry(Dir(), k), vol.files[k + 1], f.offset, len);
      ReadLengthIff(f.offset, len, size);
      GotZero(vol.files[k + 1], f.offset, [], 0);
      SizeBelow(vol.blockSize, q, o);
      vol.FetchedFits(k + 1, q, o, n);
    }

    /** Move the handle; the arithmetic is that of 32-bit unsigned words. */
    method LSeek(f: File, offset: int, whence: int, ghost idx: nat) returns (r: u32)
      requires Valid() && Tracked(f, idx)
      requires -0x8000_0000 <= offset < 0x8000_0000
      modifies f, vol`errno
      ensures Valid()
      ensures whence !in {F_SEEK_SET, F_SEEK_CUR, F_SEEK_END} ==>
                r == 0xFFFF_FFFF && vol.errno == PEINVAL && f.offset == old(f.offset)
      ensures whence in {F_SEEK_SET, F_SEEK_CUR, F_SEEK_END} ==>
                var from := if whence == F_SEEK_SET then 0
                            else if whence == F_SEEK_CUR then old(f.offset) as int
                            else SizeOf(Entry(Dir(), f.slot));
                r == f.offset == (from + offset) % 0x1_0000_0000 && vol.errno == old(vol.errno)
    {
      hide Rep, DirOK, TableOK, Entry, Slots, EntryAddr;
      TrackedFacts(f, idx);
      if whence == F_SEEK_SET {
        f.offset := offset % 0x1_0000_0000;
      } else if whence == F_SEEK_CUR {
        f.offset := (f.offset + offset) % 0x1_0000_0000;
      } else if whence == F_SEEK_END {
        f.offset := (SizeOf(Deref(f.entry)) + offset) % 0x1_0000_0000;
      } else {
        vol.errno := PEINVAL;
        return 0xFFFF_FFFF;
      }
      return f.offset;
    }

    /** Lines 225-229: a file about to get bytes gets its first block. */
    method EnsureBlock(f: File, ghost idx: nat) returns (ok: bool)
      requires Valid() && Tracked(f, idx) && vol.Roomy(1 - |vol.ch[f.slot + 1]|)
      modifies vol`errno, vol`files, vol`ch, vol.fat, vol.data
      ensures Valid() && Tracked(f, idx)
      ensures ok <==> old(vol.ch[f.slot + 1]) != [] || old(vol.Free()) > 0
      ensures !ok ==> vol.errno == PETOOFAT && SameVolume()
      ensures ok ==> vol.errno == old(vol.errno) && OneSlot(old(vol.files), old(vol.ch), vol.files, vol.ch, f.slot)
      ensures ok ==>
                && |vol.ch[f.slot + 1]| == Max(1, |old(vol.ch[f.slot + 1])|)
                && SizeOf(Entry(Dir(), f.slot)) == SizeOf(Entry(old(Dir()), f.slot))
      ensures ok ==>
                old(vol.ch[f.slot + 1]) <= vol.ch[f.slot + 1] && old(vol.files[f.slot + 1]) <= vol.files[f.slot + 1]
      ensures vol.Free() + |vol.ch[f.slot + 1]| == old(vol.Free() + |vol.ch[f.slot + 1]|)
    {
      hide Rep, DirOK, TableOK, Entry, Slots, PutEntry, EntryAddr, Splice, OneSlot;
      TrackedFacts(f, idx);
      OneSlotRefl(vol.files, vol.ch, f.slot);
      if BlockOf(Deref(f.entry)) == 0 {
        ok := FirstBlock(f, idx);
      } else {
        ok := true;
      }
    }

    method FirstBlock(f: File, ghost idx: nat) returns (ok: bool)
      requires Valid() && Tracked(f, idx) && vol.Roomy(1) && vol.ch[f.slot + 1] == []
      modifies vol`errno, vol`files, vol`ch, vol.fat, vol.data
      ensures Valid() && Tracked(f, idx)
      ensures ok <==> old(vol.Free()) > 0
      ensures !ok ==> vol.errno == PETOOFAT && SameVolume()
      ensures ok ==> vol.errno == old(vol.errno) && OneSlot(old(vol.files), old(vol.ch), vol.files, vol.ch, f.slot)
      ensures ok ==> |vol.ch[f.slot + 1]| == 1 && SizeOf(Entry(Dir(), f.slot)) == SizeOf(Entry(old(Dir()), f.slot))
      ensures ok ==> old(vol.files[f.slot + 1]) == []
      ensures vol.Free() + |vol.ch[f.slot + 1]| == old(vol.Free())
    {
      hide Rep, DirOK, TableOK, Entry, Slots, PutEntry, EntryAddr, Splice, OneSlot, FreeSet;
      ghost var d, ch, k, h := Dir(), vol.ch, f.slot, Handles();
      TrackedFacts(f, idx);
      var block := vol.Append(0, k + 1);
      if block == 0 {
        vol.errno := PETOOFAT;
        return false;
      }
      ghost var e := WithBlock(Entry(d, k), block);
      BlockField(Entry(d, k), block);
      Resized(d, ch, k, e, [block as nat]);
      PutKeepsTable(h, vol.blockSize, vol.ch[0], d, k, e);
      PutGet(d, k, e, k);
      assert vol.ch[k + 1] == [block as nat];
      Poke(f.entry, 36, Enc16(block), k);
      assert vol.files == PutFile(old(vol.files), k, e, vol.files[k + 1]);
      OneSlotPut(old(vol.files), ch, k, e, vol.files[k + 1], [block as nat]);
      return true;
    }

    /** Lines 236-237: zero `n` bytes behind the end of the file, inside one block. */
    method FillStep(f: File, size: u32, n: nat, ghost idx: nat)
      requires Valid() && Tracked(f, idx) && size == SizeOf(Entry(Dir(), f.slot))
      requires n > 0 && size + n <= |vol.files[f.slot + 1]| && InBlock(vol.blockSize, size, n)
      modifies vol`errno, vol`files, vol.data
      ensures Valid() && Tracked(f, idx) && vol.errno == old(vol.errno)
      ensures OneSlot(old(vol.files), old(vol.ch), vol.files, vol.ch, f.slot)
      ensures SizeOf(Entry(Dir(), f.slot)) == size + n
      ensures vol.files[f.slot + 1] == Splice(old(vol.files[f.slot + 1]), size, Zeros(n))
    {
      hide Base, Rep, DirOK, TableOK, Entry, Slots, PutEntry, EntryAddr, Splice, OneSlot, PointsAt;
      ghost var k := f.slot;
      TrackedFacts(f, idx);
      ZeroOut(f, size, n, idx);
      ghost var f1 := vol.files;
      OneSlotBytes(old(vol.files), vol.ch, k, f1[k + 1]);
      SetSize(f, size + n, idx);
      OneSlotTrans(old(vol.files), vol.ch, f1, vol.ch, vol.files, vol.ch, k);
    }

    /** bzero on the file's bytes, inside one block. */
    method ZeroOut(f: File, size: u32, n: nat, ghost idx: nat)
      requires Valid() && Tracked(f, idx)
      requires n > 0 && size + n <= |vol.files[f.slot + 1]| && InBlock(vol.blockSize, size, n)
      modifies vol`errno, vol`files, vol.data
      ensures Valid() && Tracked(f, idx) && vol.errno == old(vol.errno)
      ensures vol.files == old(vol.files)[f.slot + 1 := Splice(old(vol.files[f.slot + 1]), size, Zeros(n))]
    {
      hide Rep, DirOK, TableOK, Entry, Slots, PutEntry, EntryAddr, Splice, At;
      ghost var k := f.slot;
      TrackedFacts(f, idx);
      ghost var q, o := Split(vol.blockSize, size);
      InChain(vol.blockSize, |vol.ch[k + 1]|, q, o, n);
      var addr := vol.DataOffset(BlockOf(Deref(f.entry)), size, k + 1, 0, q, o);
      vol.Put(addr, Zeros(n), k + 1, q, o);
    }

    /** f->entry->size = v, for a file that has blocks. */
    method SetSize(f: File, v: u32, ghost idx: nat)
      requires Valid() && Tracked(f, idx) && vol.ch[f.slot + 1] != []
      modifies vol`files, vol.data
      ensures Valid() && Tracked(f, idx)
      ensures OneSlot(old(vol.files), vol.ch, vol.files, vol.ch, f.slot)
      ensures SizeOf(Entry(Dir(), f.slot)) == v && vol.files[f.slot + 1] == old(vol.files[f.slot + 1])
    {
      hide Rep, DirOK, TableOK, Entry, Slots, PutEntry, EntryAddr, Splice, OneSlot;
      ghost var d, ch, k, h := Dir(), vol.ch, f.slot, Handles();
      TrackedFacts(f, idx);
      ghost var e := WithSize(Entry(d, k), v);
      SizeField(Entry(d, k), v);
      Resized(d, ch, k, e, ch[k + 1]);
      PutKeepsTable(h, vol.blockSize, ch[0], d, k, e);
      PutGet(d, k, e, k);
      Poke(f.entry, 32, Enc32(v), k);
      assert vol.files == PutFile(old(vol.files), k, e, vol.files[k + 1]);
      assert ch[k + 1 := ch[k + 1]] == ch;
      OneSlotPut(old(vol.files), ch, k, e, vol.files[k + 1], ch[k + 1]);
    }

    /**
     * Lines 232-238: a hole up to the offset is filled with zeros, block by block. It must lie in blocks the file
     * has.
     */
    method FillHole(f: File, ghost idx: nat)
      requires Valid() && Tracked(f, idx)
      requires f.offset <= SizeOf(Entry(Dir(), f.slot)) || f.offset <= |vol.files[f.slot + 1]|
      modifies vol`errno, vol`files, vol.data
      ensures Valid() && Tracked(f, idx) && vol.errno == old(vol.errno)
      ensures OneSlot(old(vol.files), old(vol.ch), vol.files, vol.ch, f.slot)
      ensures SizeOf(Entry(Dir(), f.slot)) == Max(SizeOf(Entry(old(Dir()), f.slot)), f.offset)
      ensures vol.files[f.slot + 1] == Filled(old(vol.files[f.slot + 1]), SizeOf(Entry(old(Dir()), f.slot)), f.offset)
    {
      hide Base, Rep, DirOK, TableOK, Entry, Slots, PutEntry, EntryAddr, Splice, OneSlot, Filled, PointsAt, SizeOf,
          BlockOf, TableShape, FillPart, InBlock;
      ghost var k, size0, b0 := f.slot, SizeOf(Entry(Dir(), f.slot)), vol.files[f.slot + 1];
      OneSlotRefl(vol.files, vol.ch, k);
      FillNone(b0, size0, size0);
      FillNone(b0, size0, f.offset);
      TrackedFacts(f, idx);
      var size := SizeOf(Deref(f.entry));
      while f.offset > size
        invariant Valid() && Tracked(f, idx) && vol.errno == old(vol.errno)
        invariant size0 <= size == SizeOf(Entry(Dir(), k)) <= Max(size0, f.offset)
        invariant OneSlot(old(vol.files), old(vol.ch), vol.files, vol.ch, k)
        invariant |vol.files[k + 1]| == |b0| && (f.offset <= size0 || f.offset <= |b0|)
        invariant vol.files[k + 1] == if size > |b0| then b0 else Filled(b0, size0, size)
        decreases f.offset - size
      {
        var toWrite := FillPart(vol.blockSize, size, f.offset);
        FillMore(b0, size0, size, toWrite);
        FillInBlock(vol.blockSize, size, f.offset);
        ghost var f1, c1 := vol.files, vol.ch;
        FillStep(f, size, toWrite, idx);
        OneSlotTrans(old(vol.files), old(vol.ch), f1, c1, vol.files, vol.ch, k);
        TrackedFacts(f, idx);
        size := SizeOf(Deref(f.entry));
      }
    }

    /** Line 241: fs_write_blk on the file's chain. */
    method WriteOut(f: File, str: seq<byte>, ghost idx: nat) returns (r: int)
      requires Valid() && Tracked(f, idx) && vol.ch[f.slot + 1] != [] && str != []
      requires f.offset % vol.blockSize + |str| < 0x1_0000_0000
      requires vol.Roomy(CeilDiv(f.offset + |str|, vol.blockSize) - |vol.ch[f.slot + 1]|)
      modifies vol`errno, vol`files, vol`ch, vol.fat, vol.data
      ensures Valid() && Tracked(f, idx) && (r == |str| || r == -1)
      ensures vol.files == old(vol.files)[f.slot + 1 := vol.files[f.slot + 1]]
              && vol.ch == old(vol.ch)[f.slot + 1 := vol.ch[f.slot + 1]]
      ensures old(vol.ch[f.slot + 1]) <= vol.ch[f.slot + 1]
      ensures vol.Free() + |vol.ch[f.slot + 1]| == old(vol.Free() + |vol.ch[f.slot + 1]|)
      ensures Wrote(old(vol.files[f.slot + 1]), vol.files[f.slot + 1], f.offset, str, r)
      ensures var n := CeilDiv(f.offset + |str|, vol.blockSize);
              if r == -1 then vol.errno == PETOOFAT && vol.Free() == 0 && |vol.ch[f.slot + 1]| < n
              else vol.errno == old(vol.errno) && |vol.ch[f.slot + 1]| == Max(|old(vol.ch[f.slot + 1])|, n)
    {
      hide Rep, DirOK, TableOK, Entry, Slots, PutEntry, EntryAddr, Wrote, At, CeilDiv;
      ghost var k, bs, ch := f.slot, vol.blockSize, vol.ch;
      TrackedFacts(f, idx);
      ghost var q, o := Split(bs, f.offset);
      NeedFacts(bs, q, o, |str|);
      r := vol.WriteBlk(BlockOf(Deref(f.entry)), f.offset, str, k + 1, 0, q, o, CeilDiv(f.offset + |str|, bs) - q);
      Lengthened(Dir(), ch, k, vol.ch[k + 1]);
    }

    /** Lines 241-247: write, move the handle, and record the new size. A failed write moves the handle back by one. */
    method WriteTail(f: File, str: seq<byte>, ghost idx: nat) returns (r: int)
      requires Valid() && Tracked(f, idx) && vol.ch[f.slot + 1] != [] && str != []
      requires f.offset % vol.blockSize + |str| < 0x1_0000_0000
      requires vol.Roomy(CeilDiv(f.offset + |str|, vol.blockSize) - |vol.ch[f.slot + 1]|)
      modifies f, vol`errno, vol`files, vol`ch, vol.fat, vol.data
      ensures Valid() && Tracked(f, idx) && (r == |str| || r == -1)
      ensures OneSlot(old(vol.files), old(vol.ch), vol.files, vol.ch, f.slot)
      ensures old(vol.ch[f.slot + 1]) <= vol.ch[f.slot + 1]
      ensures vol.Free() + |vol.ch[f.slot + 1]| == old(vol.Free() + |vol.ch[f.slot + 1]|)
      ensures Wrote(old(vol.files[f.slot + 1]), vol.files[f.slot + 1], old(f.offset), str, r)
      ensures f.offset == if r == -1 then (old(f.offset) - 1) % 0x1_0000_0000 else old(f.offset) + |str|
      ensures SizeOf(Entry(Dir(), f.slot)) == Max(SizeOf(Entry(old(Dir()), f.slot)), f.offset)
      ensures var n := CeilDiv(old(f.offset) + |str|, vol.blockSize);
              if r == -1 then vol.errno == PETOOFAT && vol.Free() == 0 && |vol.ch[f.slot + 1]| < n
              else vol.errno == old(vol.errno) && |vol.ch[f.slot + 1]| == Max(|old(vol.ch[f.slot + 1])|, n)
    {
      hide Base, Rep, DirOK, TableOK, Entry, Slots, PutEntry, EntryAddr, Wrote, At, CeilDiv, OneSlot, PointsAt,
          SizeOf, BlockOf;
      ghost var k := f.slot;
      r := WriteOut(f, str, idx);
      ghost var f1 := vol.files;
      OneSlotTail(old(vol.files), old(vol.ch), k, vol.files[k + 1], vol.ch[k + 1]);
      TrackedFacts(f, idx);
      WroteFits(old(vol.files[k + 1]), vol.files[k + 1], f.offset, str, r);
      OneSlotRefl(vol.files, vol.ch, k);
      f.offset := (f.offset + r) % 0x1_0000_0000;
      if f.offset > SizeOf(Deref(f.entry)) {
        SetSize(f, f.offset, idx);
      }
      OneSlotTrans(old(vol.files), old(vol.ch), f1, vol.ch, vol.files, vol.ch, k);
    }

    /** How many blocks a file has once `len` bytes are written at `off`. */
    ghost function BlocksFor(off: nat, len: nat): nat
      requires vol.blockSize > 0
      reads this, vol
    {
      CeilDiv(off + len, vol.blockSize)
    }

    /**
     * What a write needs for the C arithmetic to be defined: 32-bit sums that do not wrap, a hole inside the blocks
     * the file has (or its first one), and, in the largest geometry, enough free blocks.
     */
    ghost predicate SafeWrite(k: nat, off: nat, len: nat)
      requires Valid() && k < Slots(Dir())
      reads this, vol, vol.fat, vol.data, openFiles
    {
      && off % vol.blockSize + len < 0x1_0000_0000
      && (off <= SizeOf(Entry(Dir(), k)) || off <= vol.blockSize * Max(1, |vol.ch[k + 1]|))
      && vol.Roomy(BlocksFor(off, len) - |vol.ch[k + 1]|)
    }

    /** Lines 225-247: there are bytes to write, at the handle's offset. */
    method WriteSome(f: File, str: seq<byte>, ghost idx: nat) returns (r: int)
      requires Valid() && Tracked(f, idx) && str != [] && SafeWrite(f.slot, f.offset, |str|)
      modifies f, vol`errno, vol`files, vol`ch, vol.fat, vol.data
      ensures Valid() && Tracked(f, idx)
      ensures Written(old(vol.files), old(vol.ch), old(vol.Free()), old(f.offset), f, str, r)
    {
      hide Base, Rep, DirOK, TableOK, Entry, Slots, PutEntry, EntryAddr, Wrote, At, CeilDiv, OneSlot, PointsAt,
          Filled, Overlay, WriteEffect, SizeOf, BlockOf, FreeSet, NameOf, PermOf, Mark;
      ghost var k, off, e0 := f.slot, f.offset, Entry(Dir(), f.slot);
      ghost var b0 := vol.files[k + 1];
      CeilDivBounds(off + |str|, vol.blockSize);
      OneSlotRefl(vol.files, vol.ch, k);
      NoEffect(e0, b0, off, str);
      TrackedFacts(f, idx);
      var ok := EnsureBlock(f, idx);
      if !ok { return -1; }
      ghost var f1, c1 := vol.files, vol.ch;
      TrackedFacts(f, idx);
      r := FillAndWrite(f, str, idx);
      OneSlotTrans(old(vol.files), old(vol.ch), f1, c1, vol.files, vol.ch, k);
      EffectIs(e0, b0, f1[k + 1], Entry(Dir(), k), vol.files[k + 1], off, str, r);
    }

    /** Lines 231-247: the file has a block. */
    method FillAndWrite(f: File, str: seq<byte>, ghost idx: nat) returns (r: int)
      requires Valid() && Tracked(f, idx) && vol.ch[f.slot + 1] != [] && str != []
      requires f.offset % vol.blockSize + |str| < 0x1_0000_0000
      requires f.offset <= SizeOf(Entry(Dir(), f.slot)) || f.offset <= |vol.files[f.slot + 1]|
      requires vol.Roomy(CeilDiv(f.offset + |str|, vol.blockSize) - |vol.ch[f.slot + 1]|)
      modifies f, vol`errno, vol`files, vol`ch, vol.fat, vol.data
      ensures Valid() && Tracked(f, idx) && (r == |str| || r == -1)
      ensures OneSlot(old(vol.files), old(vol.ch), vol.files, vol.ch, f.slot)
      ensures old(vol.ch[f.slot + 1]) <= vol.ch[f.slot + 1]
      ensures vol.Free() + |vol.ch[f.slot + 1]| == old(vol.Free() + |vol.ch[f.slot + 1]|)
      ensures Wrote(Filled(old(vol.files[f.slot + 1]), SizeOf(Entry(old(Dir()), f.slot)), old(f.offset)),
                vol.files[f.slot + 1], old(f.offset), str, r)
      ensures f.offset == if r == -1 then (old(f.offset) - 1) % 0x1_0000_0000 else old(f.offset) + |str|
      ensures SizeOf(Entry(Dir(), f.slot)) == Max(Max(SizeOf(Entry(old(Dir()), f.slot)), old(f.offset)), f.offset)
      ensures var n := CeilDiv(old(f.offset) + |str|, vol.blockSize);
              if r == -1 then vol.errno == PETOOFAT && vol.Free() == 0 && |vol.ch[f.slot + 1]| < n
              else vol.errno == old(vol.errno) && |vol.ch[f.slot + 1]| == Max(|old(vol.ch[f.slot + 1])|, n)
    {
      hide Base, Rep, DirOK, TableOK, Entry, Slots, PutEntry, EntryAddr, Wrote, At, CeilDiv, OneSlot, PointsAt, Filled;
      FillHole(f, idx);
      ghost var f2 := vol.files;
      r := WriteTail(f, str, idx);
      OneSlotTrans(old(vol.files), old(vol.ch), f2, old(vol.ch), vol.files, vol.ch, f.slot);
    }

    /** Where a write through `f` starts: appending always goes to the end. */
    ghost function WriteStart(f: File): u32
      requires Valid() && f.slot < Slots(Dir())
      reads this, vol, vol.fat, vol.data, openFiles, f
    {
      if f.mode == F_APPEND then SizeOf(Entry(Dir(), f.slot)) else f.offset
    }

    /** Write `str` through a handle. It succeeds exactly when the blocks it takes are there. */
    method Write(f: File, str: seq<byte>, ghost idx: nat) returns (r: int)
      requires Valid() && Tracked(f, idx)
      requires f.mode != F_READ && May(Entry(Dir(), f.slot), PERM_WRITE) && str != [] ==>
                 SafeWrite(f.slot, WriteStart(f), |str|)
      modifies f, vol`errno, vol`files, vol`ch, vol.fat, vol.data
      ensures Valid() && Tracked(f, idx)
      ensures f.mode == F_READ ==> r == -1 && vol.errno == PEFMODE && SameVolume() && f.offset == old(f.offset)
      ensures f.mode != F_READ && !May(Entry(old(Dir()), f.slot), PERM_WRITE) ==>
                r == -1 && vol.errno == PEFPERM && SameVolume() && f.offset == old(f.offset)
      ensures f.mode != F_READ && May(Entry(old(Dir()), f.slot), PERM_WRITE) && str == [] ==>
                r == 0 && SameVolume()
                && f.offset == if f.mode == F_APPEND then SizeOf(Entry(Dir(), f.slot)) else old(f.offset)
      ensures f.mode != F_READ && May(Entry(old(Dir()), f.slot), PERM_WRITE) && str != [] ==>
                Written(old(vol.files), old(vol.ch), old(vol.Free()), old(WriteStart(f)), f, str, r)
      ensures f.slot < Slots(old(Dir())) && |old(vol.files)| == 1 + Slots(old(Dir()))
      ensures r == |str| > 0 && SizeOf(Entry(old(Dir()), f.slot)) <= |old(vol.files)[f.slot + 1]| ==>
                var c := Content(old(vol.files), f.slot);
                if f.mode == F_APPEND then
                  Content(vol.files, f.slot) == c + str && f.offset == |c + str| == SizeOf(Entry(Dir(), f.slot))
                else
                  Content(vol.files, f.slot) == Overlay(c, old(f.offset), str) && f.offset == old(f.offset) + |str|
      ensures r == -1 && f.mode == F_APPEND && May(Entry(old(Dir()), f.slot), PERM_WRITE)
              && 0 < SizeOf(Entry(old(Dir()), f.slot)) <= |old(vol.files)[f.slot + 1]| ==>
                var c := Content(old(vol.files), f.slot);
                Content(vol.files, f.slot) == c && f.offset == |c| - 1
    {
      hide Base, Rep, DirOK, TableOK, Entry, Slots, PutEntry, EntryAddr, CeilDiv, OneSlot, PointsAt, WriteEffect,
          DidWrite, Overlay, SizeOf, Content, SafeWrite;
      TrackedFacts(f, idx);
      ghost var files0, ch0 := vol.files, vol.ch;
      assert SizeOf(Entry(Dir(), f.slot)) > 0 ==> ch0[f.slot + 1] != [];
      if !(f.mode == F_WRITE || f.mode == F_APPEND) {
        Raise(PEFMODE);
        return -1;
      }
      if !May(Deref(f.entry), PERM_WRITE) {
        Raise(PEFPERM);
        return -1;
      }
      if f.mode == F_APPEND {
        var _ := LSeek(f, 0, F_SEEK_END, idx);
      }
      if |str| == 0 {
        return 0;
      }
      ghost var off := f.offset;
      r := WriteSome(f, str, idx);
      if SizeOf(Entry(files0[0], f.slot)) <= |files0[f.slot + 1]| {
        if r == |str| {
          WroteAt(vol.blockSize, files0, ch0, old(vol.Free()), vol.files, vol.ch, vol.Free(), f.slot, off, str,
              r, f.offset, vol.errno);
        } else if 0 < off == SizeOf(Entry(files0[0], f.slot)) {
          TornAtEnd(vol.blockSize, files0, ch0, old(vol.Free()), vol.files, vol.ch, vol.Free(), f.slot, off, str, r,
              f.offset, vol.errno);
        }
      }
    }

    method Raise(code: int)
      requires Valid()
      modifies vol`errno
      ensures Valid() && vol.errno == code
    {
      hide Rep, DirOK, TableOK;
      vol.errno := code;
    }

    /** A write of `str` at `off` through `f` has returned `r`. */
    ghost predicate Written(files0: seq<seq<byte>>, ch0: seq<seq<nat>>, free0: nat, off: nat, f: File, str: seq<byte>,
        r: int)
      requires Valid()
      reads this, vol, vol.fat, vol.data, openFiles, f
    {
      DidWrite(vol.blockSize, files0, ch0, free0, vol.files, vol.ch, vol.Free(), f.slot, off, str, r, f.offset,
          vol.errno)
    }

    /** All entries of files in the directory, in directory order. */
    method LsAll() returns (list: seq<entry>)
      requires Base() && DirOK(Dir(), vol.ch)
      modifies vol`errno
      ensures Base() && list == Listing(Dir(), 0) && vol.errno == old(vol.errno)
    {
      hide Rep, DirOK, Entry, Slots, NameOf, Listing;
      list := [];
      var offset: u32 := 0;
      var tempf := new byte[ENTRY_SIZE];
      ghost var k := 0;
      RootSize();
      while true
        invariant fresh(tempf)
        invariant Base() && DirOK(Dir(), vol.ch) && vol.errno == old(vol.errno)
        invariant k <= Slots(Dir()) && offset == ENTRY_SIZE * k
        invariant list + Listing(Dir(), k) == Listing(Dir(), 0)
        decreases Slots(Dir()) - k
      {
        var r := ReadRoot(offset, ENTRY_SIZE, tempf, k);
        ListingStep(Dir(), k);
        if tempf[0] == 0 || r == 0 { break; }
        assert tempf[..] == Entry(Dir(), k);
        if 2 < tempf[0] < 0x80 {
          list := list + [tempf[..]];
        }
        offset := offset + ENTRY_SIZE;
        k := k + 1;
      }
    }
  }
}
