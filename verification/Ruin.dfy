/** How an ordinary program comes to the states from which one more call ruins the filesystem. */
module Ruins {
  import opened Bytes
  import opened Clients
  import opened Contents
  import opened Directory
  import opened Fat
  import opened FileSystems
  import opened Images
  import opened Meaning
  import opened OpenTable
  import opened Volumes

  /** `name` is a file with blocks; once it is closed, it must not be renamed to its own name. */
  ghost predicate HasFile(files: seq<seq<byte>>, ch: seq<seq<nat>>, name: cstring)
    requires Sized(files, ch)
  {
    var k := FindSlot(files[0], name, 0);
    k != -1 && Listed(Entry(files[0], k)) && ch[k + 1] != []
  }

  /** What is left of the name in the entry of a deleted file. */
  function Remains(name: cstring): cstring
    requires name != []
  {
    name[0 := 1]
  }

  /** The first byte written to a file gets it a block and moves no search. */
  lemma WroteFirst(bs: nat, files0: seq<seq<byte>>, ch0: seq<seq<nat>>, free0: nat, files: seq<seq<byte>>,
      ch: seq<seq<nat>>, free: nat, k: nat, x: byte, r: int, at: int, code: int, nm: cstring)
    requires bs > 0 && DidWrite(bs, files0, ch0, free0, files, ch, free, k, 0, [x], r, at, code)
    requires free0 + |ch0[k + 1]| >= 1
    ensures r == 1 && ch[k + 1] != [] && FindSlot(files[0], nm, 0) == FindSlot(files0[0], nm, 0)
    ensures k < Slots(files0[0]) == Slots(files[0]) && Mark(Entry(files[0], k)) == Mark(Entry(files0[0], k))
  {
    hide Entry, Slots, FindSlot, WriteEffect, SizeOf;
    assert CeilDiv(1, bs) == 1;
    OneSlotSearch(files0, ch0, files, ch, k, nm);
    OneSlotKeeps(files0, ch0, files, ch, k);
  }

  /** Create a file. A search for some other name that found nothing still finds nothing. */
  method NewFile(fs: FileSystem, name: cstring, ghost other: cstring) returns (f: File)
    requires fs.Valid() && fs.TableShape() && fs.Handles() == [] && fs.vol.Free() >= 2
    requires ValidName(name) && FindSlot(fs.Dir(), name, 0) == -1
    requires other != name && FindSlot(fs.Dir(), other, 0) == -1
    modifies fs`openFiles, fs`openedCount, fs.openFiles, fs.vol`errno, fs.vol`files, fs.vol`ch, fs.vol.fat, fs.vol.data
    ensures fs.Valid() && fs.TableShape() && fs.Handles() == [f] && Files(fs.vol.files)
    ensures fs.openFiles == old(fs.openFiles) || fresh(fs.openFiles)
    ensures fresh(f) && f.mode == F_WRITE && fs.Tracked(f, 0) && f.offset == 0
    ensures f.slot == FindSlot(fs.Dir(), name, 0) && Listed(Entry(fs.Dir(), f.slot)) && MayAt(fs, f, PERM_WRITE)
    ensures FindSlot(fs.Dir(), other, 0) == -1
    ensures |fs.vol.ch| == 1 + Slots(fs.Dir()) && fs.vol.Free() + |fs.vol.ch[f.slot + 1]| >= 1
  {
    hide FileSystem.Base, FileSystem.Valid, EntriesOK, EndsOnce, TableOK, Entry, Slots, FindSlot, FreeSet,
        ValidName, May, SizeOf, Catalog, Content, UniqueNames, NameOf, Live, TightKept;
    Shaped(fs);
    NotDead(fs.Dir(), name);
    ValidNotGhostly(name);
    ghost var files0, ch0 := fs.vol.files, fs.vol.ch;
    f := OpenNamed(fs, name, F_WRITE);
    Shaped(fs);
    OtherSearch(files0, fs.vol.files, ch0, name, f.slot, other);
  }

  /** Create a file, write a byte, close it. */
  method MakeFile(fs: FileSystem, name: cstring, x: byte, ghost other: cstring)
    requires fs.Valid() && fs.TableShape() && fs.Handles() == [] && fs.vol.Free() >= 2
    requires ValidName(name) && FindSlot(fs.Dir(), name, 0) == -1
    requires other != name && FindSlot(fs.Dir(), other, 0) == -1
    modifies fs`openFiles, fs`openedCount, fs.openFiles, fs.vol`errno, fs.vol`files, fs.vol`ch, fs.vol.fat, fs.vol.data
    ensures fs.Valid() && fs.TableShape() && fs.Handles() == [] && Ordered(fs.vol.files, fs.vol.ch)
    ensures HasFile(fs.vol.files, fs.vol.ch, name) && FindSlot(fs.Dir(), other, 0) == -1
  {
    hide FileSystem.Base, FileSystem.Valid, DirOK, TableOK, Entry, Slots, FindSlot, FreeSet, ValidName, May, SizeOf,
        Content, DidWrite, NameOf;
    var f := NewFile(fs, name, other);
    ghost var files, ch, free := fs.vol.files, fs.vol.ch, fs.vol.Free();
    FirstFits(fs, f);
    var r := fs.Write(f, [x], 0);
    WroteFirst(fs.vol.blockSize, files, ch, free, fs.vol.files, fs.vol.ch, fs.vol.Free(), f.slot, x, r, f.offset,
        fs.vol.errno, name);
    WroteFirst(fs.vol.blockSize, files, ch, free, fs.vol.files, fs.vol.ch, fs.vol.Free(), f.slot, x, r, f.offset,
        fs.vol.errno, other);
    Shaped(fs);
    CloseNamed(fs, f, 0);
    Shaped(fs);
  }

  /** One byte at the start of a file is no trouble. */
  lemma FirstFits(fs: FileSystem, f: File)
    requires fs.Valid() && fs.TableShape() && fs.Tracked(f, 0) && f.mode == F_WRITE && f.offset == 0
    requires f.slot + 1 < |fs.vol.ch| && fs.vol.Free() + |fs.vol.ch[f.slot + 1]| >= 1
    ensures fs.vol.blockSize > 0 && fs.SafeWrite(f.slot, fs.WriteStart(f), 1)
  {
    hide DirOK, TableOK, Entry, Slots, FreeSet, SizeOf, Rep;
    assert CeilDiv(1, fs.vol.blockSize) == 1;
  }

  lemma FirstBlockOf(files: seq<seq<byte>>, ch: seq<seq<nat>>, name: cstring)
    requires Ordered(files, ch) && HasFile(files, ch, name)
    ensures var e := Entry(files[0], FindSlot(files[0], name, 0)); BlockOf(e) != 0 && Live(e)
  {
    hide EndsOnce, UniqueNames, Entry, FindSlot, NameOf;
    var k := FindSlot(files[0], name, 0);
    assert SlotOK(Entry(files[0], k), ch[k + 1]);
  }

  /** Deleting a closed file with blocks leaves an entry that still names the first of them. */
  lemma DeletedRemains(files: seq<seq<byte>>, ch: seq<seq<nat>>, name: cstring)
    requires Ordered(files, ch) && HasFile(files, ch, name) && name != [] && FindSlot(files[0], Remains(name), 0) == -1
    ensures FindsStale(UnlinkFiles(files, FindSlot(files[0], name, 0), false)[0], Remains(name))
  {
    hide Slots, Entry, EntriesOK, NameOf, BlockOf, SizeOf, FindSlot, EndsOnce, UniqueNames;
    var k := FindSlot(files[0], name, 0);
    var e, files' := Entry(files[0], k), UnlinkFiles(files, k, false);
    FirstBlockOf(files, ch, name);
    FoundEntry(files[0], ch, name);
    MarkField(e, 1);
    PutSame(files, k, WithMark(e, 1), []);
    Dropped(files[0], ch, k);
    FindSlotIs(files[0], Remains(name), 0);
    FindSlotIs(files'[0], Remains(name), 0);
    var k' := FindSlot(files'[0], Remains(name), 0);
    assert Mark(Entry(files'[0], k)) == 1 && NameOf(Entry(files'[0], k)) == Remains(name);
    assert k' == k;
  }

  /**
   * mkfs, mount, create a file, write a byte, close, unlink: nothing out of the ordinary, and a name has come about
   * that must not be unlinked, renamed or opened.
   */
  method LeaveRemains(blocks: int, config: int, name: cstring, x: byte) returns (fs: FileSystem?)
    requires ValidName(name)
    ensures fs != null <==> Geometry(config, blocks)
    ensures fs != null ==> name != [] && fs.Valid() && OfGeometry(fs.vol, config, blocks) && fs.Handles() == []
                           && fs.vol.files != [] && FindsStale(fs.Dir(), Remains(name))
  {
    hide FileSystem.Base, FileSystem.Valid, DirOK, TableOK, Entry, Slots, FindSlot, FreeSet, FindsStale, HasFile;
    ValidNotGhostly(name);
    NotOne(name);
    fs := Format(blocks, config);
    if fs == null { return; }
    Shaped(fs);
    GeometryFacts(config, blocks);
    MakeFile(fs, name, x, Remains(name));
    DeletedRemains(fs.vol.files, fs.vol.ch, name);
    NotDead(fs.Dir(), name);
    ghost var files := fs.vol.files;
    assert !Busy([], files[0], FindSlot(files[0], name, 0));
    var _ := fs.Unlink(name);
  }

  lemma NotOne(name: cstring)
    requires ValidName(name)
    ensures name != [] && Remains(name) != name
  {
    assert NameChar(name[0]);
  }

  /** Unlinking such a name leaves nothing that could be mounted as a filesystem in order. */
  lemma RemainsRuin(fs: FileSystem, config: int, blocks: int, name: cstring, n: nat, fat: seq<u16>, ch: seq<seq<nat>>)
    requires fs.Valid() && OfGeometry(fs.vol, config, blocks) && fs.vol.files != [] && FindsStale(fs.Dir(), name)
    requires FreeWalk(fs.vol.fat[..], BlockOf(Entry(fs.Dir(), FindSlot(fs.Dir(), name, 0))), n, fat)
    ensures |fat| == fs.vol.fat.Length > 0
    ensures !(fat[0] == fs.vol.header && WellFormed(fat, ch) && DirOK(fs.Dir(), ch) && ch[0] != [] && ch[0][0] == ROOT)
  {
    hide TableOK, Entry, Slots, FindSlot, EntriesOK, EndsOnce, UniqueNames, FreeWalk, WellFormed, BlockOf;
    Shaped(fs);
    FoundEntry(fs.Dir(), fs.vol.ch, name);
    GhostUnlinkBreaks(fs.vol.fat[..], fs.vol.ch, fs.Dir(), FindSlot(fs.Dir(), name, 0), n, fat, ch);
  }
}
