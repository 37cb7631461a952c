/**
 * Whole runs: any list of calls on a mounted filesystem, failed calls and failed writes included, made on the real
 * thing.
 */
module Sessions {
  import opened Bytes
  import opened Calls
  import opened Clients
  import opened Contents
  import opened Directory
  import opened Errno
  import opened Fat
  import opened FileSystems
  import opened Images
  import opened Meaning
  import opened OpenTable
  import opened Volumes

  ghost function HandleSet(fs: FileSystem): set<File>
    requires fs.TableShape()
    reads fs, fs.openFiles
  {
    set f: File | f in fs.Handles()
  }

  ghost function OffsetsOf(h: seq<File?>): map<File, u32>
    reads set f: File | f in h
  {
    map f: File | f in h :: f.offset
  }

  /** The state the filesystem is in. */
  ghost function Now(fs: FileSystem): Snap
    requires fs.TableShape()
    reads fs, fs.openFiles, fs.vol, fs.vol.fat, fs.vol.data, HandleSet(fs)
  {
    Snap(fs.vol.blockSize, fs.vol.files, fs.vol.ch, fs.vol.Free(), fs.Handles(), OffsetsOf(fs.Handles()),
        fs.vol.fat[..], fs.vol.data[..])
  }

  lemma NowInOrder(fs: FileSystem)
    requires fs.Valid()
    ensures fs.TableShape() && InOrder(Now(fs)) && Proper(Now(fs))
    ensures Sized(fs.vol.files, fs.vol.ch) && fs.vol.blockSize >= ENTRY_SIZE
    ensures |Now(fs).fat| == fs.vol.fat.Length > 0 && Now(fs).fat[0] == fs.vol.header
  {
    hide Rep, DirOK, Entry, EntryAddr, Live;
  }

  lemma OffsetsAdd(h: seq<File?>, f: File)
    requires f !in h
    ensures OffsetsOf(h + [f]) == OffsetsOf(h)[f := f.offset]
  {}

  lemma OffsetsRemove(h: seq<File?>, i: nat)
    requires i < |h| && h[i] != null && forall k :: 0 <= k < |h| && k != i ==> h[k] != h[i]
    ensures OffsetsOf(SwapRemove(h, i)) == OffsetsOf(h) - {h[i]}
  {
    var r := SwapRemove(h, i);
    forall f: File | f in h && f != h[i]
      ensures f in r
    {
      var k :| 0 <= k < |h| && h[k] == f;
      assert r[if k == |h| - 1 then i else k] == f;
    }
  }

  const SKIPPED := Outcome(false, 0, [], 0)

  // ---- the calls, one at a time ----

  /** Does the name come up with a deleted entry? `stale`: one that still names a block. */
  method FindsDeleted(fs: FileSystem, name: cstring) returns (dead: bool, stale: bool)
    requires fs.Valid() && fs.TableShape()
    modifies fs.vol`errno
    ensures fs.Valid() && fs.vol.files != []
    ensures (dead <==> FindsDead(fs.Dir(), name)) && (stale <==> FindsStale(fs.Dir(), name))
  {
    hide Rep, DirOK, TableOK, Entry, Slots, EntryAddr, FindSlot;
    dead, stale := false, false;
    if |name| > 0 && name[0] == 1 {
      var offset := fs.Find(name);
      if offset != NOT_FOUND {
        dead := true;
        ghost var k := FindSlot(fs.Dir(), name, 0);
        var addr := fs.EntryAt(offset, k);
        fs.DerefIs(addr, k);
        stale := BlockOf(fs.Deref(addr)) != 0;
      }
    }
  }

  method DoOpen(fs: FileSystem, name: cstring, mode: Mode) returns (o: Outcome)
    requires fs.Valid() && fs.TableShape() && Files(fs.vol.files) && !FindsDead(fs.Dir(), name)
    requires MustGrow(fs.vol.files, name, mode) ==> fs.vol.Roomy(1)
    modifies fs, fs.openFiles, fs.vol, fs.vol.fat, fs.vol.data
    ensures fs.Valid() && fs.TableShape() && (fs.openFiles == old(fs.openFiles) || fresh(fs.openFiles))
    ensures forall f: File :: f in fs.Handles() ==> f in old(fs.Handles()) || fresh(f)
    ensures Proper(old(Now(fs))) && o.made && Opens(name, mode, old(Now(fs)), Now(fs), o)
  {
    hide FileSystem.Base, FileSystem.Valid, DirOK, TableOK, Entry, Slots, FindSlot, FindsDead, FindsStale, InOrder,
        FreeSet, SizeOf, CanOpen, DidOpen, OpenError, Proper, OffsetsOf, MustGrow;
    NowInOrder(fs);
    ghost var s := Now(fs);
    var f := fs.Open(name, mode);
    NowInOrder(fs);
    o := Outcome(true, if f == null then -1 else 0, [], fs.vol.errno);
    if f != null {
      OffsetsAdd(s.h, f);
      ghost var s' := Now(fs);
      assert s'.h == s.h + [f] && s'.h[..|s.h|] == s.h && s'.h[|s.h|] == f && f !in s.h;
      assert s'.at == s.at[f := f.offset];
      assert AddsHandle(mode, s, s');
      assert DidOpen(s.bs, s.files, s.ch, s.free, s'.files, s'.ch, s'.free, name, mode, f.slot);
    }
  }

  lemma OnceThere(fs: FileSystem, place: nat)
    requires fs.Valid() && fs.TableShape() && place < |fs.Handles()|
    ensures NoNull(fs.Handles()) && forall i :: 0 <= i < |fs.Handles()| && i != place ==>
              fs.Handles()[i] != fs.Handles()[place]
  {
    hide FileSystem.Base, DirOK, Entry, Slots, PointsAt, Live;
  }

  lemma StaysThere(h: seq<File?>, i: nat)
    requires i < |h|
    ensures forall f :: f in SwapRemove(h, i) ==> f in h
  {}

  method DoClose(fs: FileSystem, place: nat) returns (o: Outcome)
    requires fs.Valid() && fs.TableShape() && place < |fs.Handles()|
    modifies fs, fs.openFiles, fs.vol, fs.vol.fat, fs.vol.data
    ensures fs.Valid() && fs.TableShape() && fs.openFiles == old(fs.openFiles)
    ensures forall f: File :: f in fs.Handles() ==> f in old(fs.Handles())
    ensures Proper(old(Now(fs))) && o.made && Closes(place, old(Now(fs)), Now(fs), o)
  {
    hide FileSystem.Base, FileSystem.Valid, DirOK, TableOK, Entry, Slots, CloseCount, PutFile, InOrder, Proper, FreeSet,
        SwapRemove, Live, PointsAt, OffsetsOf;
    NowInOrder(fs);
    ghost var s := Now(fs);
    AtPlace(fs, place);
    OnceThere(fs, place);
    var f := fs.openFiles[place];
    OffsetsRemove(s.h, place);
    StaysThere(s.h, place);
    fs.Close(f, place);
    NowInOrder(fs);
    assert Now(fs).at == s.at - {f};
    o := Outcome(true, 0, [], 0);
  }

  /** What the handle's place in the table says about the filesystem's handle. */
  lemma AtPlace(fs: FileSystem, place: nat)
    requires fs.Valid() && fs.TableShape() && place < fs.openedCount
    ensures fs.openFiles[place] != null && fs.Handles()[place] == fs.openFiles[place]
            && fs.Tracked(fs.openFiles[place], place)
    ensures Proper(Now(fs)) && place < |Now(fs).h| && Now(fs).h[place] == fs.openFiles[place]
            && fs.openFiles[place] in fs.Handles()
    ensures Now(fs).at[fs.openFiles[place]] == fs.openFiles[place].offset
    ensures fs.openFiles[place].slot < Slots(fs.Dir())
            && EntryFor(Now(fs), place) == Entry(fs.Dir(), fs.openFiles[place].slot)
  {
    hide FileSystem.Base, FileSystem.Valid, DirOK, TableOK, Entry, Slots;
    NowInOrder(fs);
    LastTracked(fs, place);
  }

  method DoRead(fs: FileSystem, place: nat, len: u32) returns (o: Outcome)
    requires fs.Valid() && fs.TableShape() && place < |fs.Handles()|
    modifies fs.vol`errno, HandleSet(fs)
    ensures fs.Valid() && fs.TableShape() && fs.Handles() == old(fs.Handles())
    ensures Proper(old(Now(fs))) && o.made && Reads(place, len, old(Now(fs)), Now(fs), o)
  {
    hide FileSystem.Base, FileSystem.Valid, DirOK, TableOK, Entry, Slots, InOrder, Proper, FreeSet, May, SizeOf,
        Content, Got, FetchedFrom, Splice, FileSystem.Delivered, Delivery;
    NowInOrder(fs);
    ghost var s := Now(fs);
    AtPlace(fs, place);
    var f := fs.openFiles[place];
    ghost var g := Delivery(s, place, len);
    DeliveryIs(fs, place, len);
    var buf := new byte[len];
    ghost var b0 := buf[..];
    var r := fs.Read(f, len, buf, place);
    NowInOrder(fs);
    assert Now(fs).at == s.at[f := f.offset];
    if r == -1 {
      o := Outcome(true, -1, [], fs.vol.errno);
    } else {
      ReadPiece(b0, buf[..], g);
      o := Outcome(true, r, buf[..r], 0);
    }
  }

  lemma DeliveryIs(fs: FileSystem, place: nat, len: u32)
    requires fs.Valid() && fs.TableShape() && place < fs.openedCount
    ensures fs.openFiles[place] != null && fs.openFiles[place].slot < Slots(fs.Dir())
    ensures Proper(Now(fs)) && Delivery(Now(fs), place, len) == fs.Delivered(fs.openFiles[place], len)
  {
    hide FileSystem.Base, FileSystem.Valid, DirOK, TableOK, Entry, Slots, SizeOf, Content, Got, FetchedFrom;
    AtPlace(fs, place);
  }

  method DoSeek(fs: FileSystem, place: nat, offset: int, whence: int) returns (o: Outcome)
    requires fs.Valid() && fs.TableShape() && place < |fs.Handles()| && -0x8000_0000 <= offset < 0x8000_0000
    modifies fs.vol`errno, HandleSet(fs)
    ensures fs.Valid() && fs.TableShape() && fs.Handles() == old(fs.Handles())
    ensures Proper(old(Now(fs))) && o.made && Seeks(place, offset, whence, old(Now(fs)), Now(fs), o)
  {
    hide FileSystem.Base, FileSystem.Valid, DirOK, TableOK, Entry, Slots, InOrder, Proper, FreeSet, SizeOf;
    NowInOrder(fs);
    ghost var s := Now(fs);
    AtPlace(fs, place);
    var f := fs.openFiles[place];
    var r := fs.LSeek(f, offset, whence, place);
    NowInOrder(fs);
    assert Now(fs).at == s.at[f := f.offset];
    o := Outcome(true, r, [], fs.vol.errno);
  }

  /** How many blocks a file has. */
  method CountBlocks(fs: FileSystem, f: File, ghost place: nat) returns (n: nat)
    requires fs.Valid() && fs.Tracked(f, place)
    ensures f.slot + 1 < |fs.vol.ch| && n == |fs.vol.ch[f.slot + 1]|
  {
    hide DirOK, TableOK, Entry, Slots, Rep;
    Shaped(fs);
    fs.TrackedFacts(f, place);
    ghost var j := f.slot + 1;
    ghost var c := fs.vol.ch[j];
    var cur: u16 := BlockOf(fs.Deref(f.entry));
    if cur == 0 { return 0; }
    n := 1;
    fs.vol.NextBlock(j, 0);
    while fs.vol.fat[cur] != EOF
      invariant 1 <= n <= |c| && cur == c[n - 1] < fs.vol.fat.Length
      invariant fs.vol.fat[cur] == EOF <==> n == |c|
      invariant n < |c| ==> fs.vol.fat[cur] == c[n]
      decreases |c| - n
    {
      cur := fs.vol.fat[cur];
      fs.vol.NextBlock(j, n);
      n := n + 1;
    }
  }

  /** How many blocks are free. */
  method CountFree(fs: FileSystem) returns (n: nat)
    requires fs.Valid()
    ensures n == fs.vol.Free()
  {
    hide DirOK, TableOK, Entry, Slots, Rep;
    ghost var fat := fs.vol.fat[..];
    var limit := Min(fs.vol.fat.Length, EOF);
    n := 0;
    var b := 1;
    assert FreeBelow(fat, 1) == {};
    while b < limit
      invariant 1 <= b <= limit && n == |FreeBelow(fat, b)|
    {
      OneMoreFree(fat, b);
      if fs.vol.fat[b] == FREE { n := n + 1; }
      b := b + 1;
    }
    assert FreeBelow(fat, limit) == FreeSet(fat);
  }

  ghost function FreeBelow(fat: seq<u16>, n: nat): set<nat>
    requires n <= |fat|
  {
    set b: nat | 1 <= b < n && fat[b] == FREE
  }

  lemma OneMoreFree(fat: seq<u16>, b: nat)
    requires 1 <= b < |fat|
    ensures |FreeBelow(fat, b + 1)| == |FreeBelow(fat, b)| + if fat[b] == FREE then 1 else 0
  {
    assert FreeBelow(fat, b + 1) == FreeBelow(fat, b) + if fat[b] == FREE then {b} else {};
  }

  /** Whether as many blocks may be asked for. */
  method HasRoom(fs: FileSystem, n: int) returns (ok: bool)
    requires fs.Valid() && fs.TableShape()
    ensures Proper(Now(fs)) && (ok <==> RoomLeft(Now(fs), n))
  {
    hide FileSystem.Base, FileSystem.Valid, DirOK, TableOK, Entry, Slots, FreeSet;
    NowInOrder(fs);
    if fs.vol.fat.Length <= EOF { return true; }
    var free := CountFree(fs);
    return n <= free;
  }

  /** Whether opening `name` has to make the directory grow. */
  method HasToGrow(fs: FileSystem, name: cstring, mode: Mode) returns (grows: bool)
    requires fs.Valid() && fs.TableShape()
    modifies fs.vol`errno
    ensures fs.Valid() && Files(fs.vol.files) && (grows <==> MustGrow(fs.vol.files, name, mode))
  {
    hide Rep, DirOK, TableOK, Entry, Slots, EntryAddr, FindSlot, FirstUnused, ValidName, InOrder, FreeSet;
    NowInOrder(fs);
    if mode == F_READ { return false; }
    var valid := fs.CheckName(name);
    var offset := fs.Find(name);
    if offset != NOT_FOUND || !valid { return false; }
    var r, _ := fs.FindUnused();
    return r == 0;
  }

  /** Whether the C arithmetic of this write is defined: the caller's side of the bargain. */
  method WriteIsSafe(fs: FileSystem, place: nat, len: nat) returns (safe: bool)
    requires fs.Valid() && fs.TableShape() && place < fs.openedCount
    ensures Proper(Now(fs)) && (safe <==> SafeAt(Now(fs), place, len))
  {
    hide FileSystem.Base, FileSystem.Valid, DirOK, TableOK, Entry, Slots, Rep, SizeOf, CeilDiv, AsksOutside, RoomLeft,
        FreeSet, InOrder, Proper, Live, PointsAt;
    NowInOrder(fs);
    AtPlace(fs, place);
    Shaped(fs);
    var f := fs.openFiles[place];
    fs.TrackedFacts(f, place);
    var n := CountBlocks(fs, f, place);
    var size := SizeOf(fs.Deref(f.entry));
    var start := if f.mode == F_APPEND then size else f.offset;
    AsksOutsideIff(fs.vol.blockSize, Max(1, n), size, start);
    var room := HasRoom(fs, CeilDiv(start + len, fs.vol.blockSize) - n);
    safe := room && start % fs.vol.blockSize + len < 0x1_0000_0000
      && (start <= size || start <= fs.vol.blockSize * Max(1, n));
  }

  /** What is permitted is what fs_write asks for. */
  lemma SafeThere(fs: FileSystem, place: nat, len: nat)
    requires fs.Valid() && fs.TableShape() && place < fs.openedCount
    requires Proper(Now(fs)) && SafeAt(Now(fs), place, len)
    ensures fs.openFiles[place] != null && fs.openFiles[place].slot < Slots(fs.Dir())
    ensures fs.SafeWrite(fs.openFiles[place].slot, fs.WriteStart(fs.openFiles[place]), len)
  {
    hide FileSystem.Base, DirOK, TableOK, Entry, Slots, SizeOf, CeilDiv, AsksOutside;
    AtPlace(fs, place);
    var f := fs.openFiles[place];
    AsksOutsideIff(fs.vol.blockSize, Max(1, |fs.vol.ch[f.slot + 1]|), SizeOf(Entry(fs.Dir(), f.slot)),
        fs.WriteStart(f));
  }

  method DoWrite(fs: FileSystem, place: nat, str: seq<byte>) returns (o: Outcome)
    requires fs.Valid() && fs.TableShape() && Proper(Now(fs)) && place < |fs.Handles()|
    requires Writes(Now(fs), place, str) ==> SafeAt(Now(fs), place, |str|)
    modifies fs.vol, fs.vol.fat, fs.vol.data, HandleSet(fs)
    ensures fs.Valid() && fs.TableShape() && fs.Handles() == old(fs.Handles())
    ensures Proper(old(Now(fs))) && o.made && DoesWrite(place, str, old(Now(fs)), Now(fs), o)
  {
    hide FileSystem.Base, FileSystem.Valid, DirOK, TableOK, Entry, Slots, SizeOf, CeilDiv, May, InOrder, Proper,
        FreeSet, FileSystem.SafeWrite, SafeAt, DidWrite;
    ghost var s := Now(fs);
    AtPlace(fs, place);
    var f := fs.openFiles[place];
    if Writes(s, place, str) { SafeThere(fs, place, |str|); }
    var r := fs.Write(f, str, place);
    NowInOrder(fs);
    assert Now(fs).at == s.at[f := f.offset];
    o := Outcome(true, r, [], fs.vol.errno);
  }

  method DoUnlink(fs: FileSystem, name: cstring) returns (o: Outcome)
    requires fs.Valid() && fs.TableShape() && fs.vol.files != [] && !FindsStale(fs.Dir(), name)
    modifies fs.vol, fs.vol.fat, fs.vol.data
    ensures fs.Valid() && fs.TableShape() && fs.Handles() == old(fs.Handles())
    ensures Proper(old(Now(fs))) && o.made && Unlinks(name, old(Now(fs)), Now(fs), o)
  {
    hide FileSystem.Base, FileSystem.Valid, DirOK, TableOK, Entry, Slots, InOrder, Proper, FreeSet, FindSlot,
        FindsStale, FindsDead, UnlinkFiles, UnlinkChains, UnlinkFrees, Busy;
    NowInOrder(fs);
    var r := fs.Unlink(name);
    NowInOrder(fs);
    o := Outcome(true, r, [], fs.vol.errno);
  }

  /** Whether a file may be renamed to its own name. */
  method SelfIsHarmless(fs: FileSystem, name: cstring) returns (harmless: bool)
    requires fs.Valid() && fs.TableShape() && ValidName(name)
    modifies fs.vol`errno
    ensures fs.Valid() && Proper(Now(fs)) && (harmless <==> HarmlessSelf(Now(fs), name))
  {
    hide FileSystem.Base, Rep, DirOK, TableOK, Entry, Slots, EntryAddr, FindSlot, ValidName, Busy, OpenOn, PointsAt,
        Live, InOrder, NameOf, BlockOf, FreeSet, OffsetsOf;
    NowInOrder(fs);
    var offset := fs.Find(name);
    NowInOrder(fs);
    if offset == NOT_FOUND { return true; }
    ghost var k := FindSlot(fs.Dir(), name, 0);
    ValidNotGhostly(name);
    FoundEntry(fs.Dir(), fs.vol.ch, name);
    var addr := fs.EntryAt(offset, k);
    fs.DerefIs(addr, k);
    var inUse := fs.NameInUse(addr, k);
    BusyIs(fs.Handles(), fs.vol.blockSize, fs.vol.ch[0], fs.Dir(), fs.vol.ch, k);
    assert SlotOK(Entry(fs.Dir(), k), fs.vol.ch[k + 1]) by { SlotIsOK(fs.Dir(), fs.vol.ch, k); }
    ListedLives(Entry(fs.Dir(), k));
    harmless := inUse || BlockOf(fs.Deref(addr)) == 0;
  }

  lemma SlotIsOK(d: seq<byte>, ch: seq<seq<nat>>, k: nat)
    requires DirOK(d, ch) && k < Slots(d)
    ensures SlotOK(Entry(d, k), ch[k + 1])
  {}

  method DoRename(fs: FileSystem, oldname: cstring, newname: cstring) returns (o: Outcome)
    requires fs.Valid() && fs.TableShape() && Proper(Now(fs)) && Permitted(Rename(oldname, newname), Now(fs))
    modifies fs.vol, fs.vol.fat, fs.vol.data
    ensures fs.Valid() && fs.TableShape() && fs.Handles() == old(fs.Handles())
    ensures Proper(old(Now(fs))) && o.made && Renames(oldname, newname, old(Now(fs)), Now(fs), o)
  {
    hide FileSystem.Base, FileSystem.Valid, DirOK, TableOK, Entry, Slots, InOrder, Proper, FreeSet, FindSlot,
        FindsStale, FindsDead, UnlinkFiles, UnlinkChains, UnlinkFrees, RenameFiles, ValidName, OpenOn;
    NowInOrder(fs);
    var r := fs.Rename(oldname, newname);
    NowInOrder(fs);
    o := Outcome(true, r, [], fs.vol.errno);
  }

  // ---- may the call be made? ----

  method RenameIsPermitted(fs: FileSystem, oldname: cstring, newname: cstring) returns (ok: bool)
    requires fs.Valid() && fs.TableShape()
    modifies fs.vol`errno
    ensures fs.Valid() && Proper(Now(fs)) && (ok <==> Permitted(Rename(oldname, newname), Now(fs)))
  {
    hide FileSystem.Base, FileSystem.Valid, DirOK, TableOK, Entry, Slots, InOrder, Proper, FreeSet, FindSlot,
        FindsStale, FindsDead, ValidName, HarmlessSelf;
    NowInOrder(fs);
    var valid := fs.CheckName(newname);
    if !valid { return true; }
    var _, stale := FindsDeleted(fs, oldname);
    NowInOrder(fs);
    if stale || oldname != newname { return !stale; }
    ok := SelfIsHarmless(fs, newname);
  }

  /** The caller's side of the bargain, decided at run time. Nothing changes but, perhaps, errno. */
  method IsPermitted(fs: FileSystem, c: Call) returns (ok: bool)
    requires fs.Valid() && fs.TableShape()
    modifies fs.vol`errno
    ensures fs.Valid() && fs.TableShape() && Proper(Now(fs)) && (ok <==> Permitted(c, Now(fs)))
  {
    hide FileSystem.Base, FileSystem.Valid, DirOK, TableOK, Entry, Slots, InOrder, Proper, FreeSet, FindSlot,
        FindsStale, FindsDead, SafeAt, HarmlessSelf, May;
    NowInOrder(fs);
    match c {
      case Open(name, mode) =>
        var dead, _ := FindsDeleted(fs, name);
        var grows := HasToGrow(fs, name, mode);
        var room := HasRoom(fs, 1);
        NowInOrder(fs);
        return !dead && (grows ==> room);
      case Write(place, str) =>
        if place >= fs.openedCount { return false; }
        AtPlace(fs, place);
        var f := fs.openFiles[place];
        fs.TrackedFacts(f, place);
        if f.mode != F_READ && May(fs.Deref(f.entry), PERM_WRITE) && |str| > 0 {
          ok := WriteIsSafe(fs, place, |str|);
          return;
        }
        return true;
      case Unlink(name) =>
        var _, stale := FindsDeleted(fs, name);
        NowInOrder(fs);
        return !stale;
      case Rename(oldname, newname) =>
        ok := RenameIsPermitted(fs, oldname, newname);
      case Seek(place, offset, whence) =>
        return place < fs.openedCount && -0x8000_0000 <= offset < 0x8000_0000;
      case Close(place) => return place < fs.openedCount;
      case Read(place, len) => return place < fs.openedCount;
    }
  }

  // ---- runs ----

  /**
   * One call: made exactly when it is permitted, with the result and the state its contract promises; keeping the
   * filesystem in order, and readers, untouched names and block counts as stated for runs.
   */
  method Step(fs: FileSystem, c: Call, ghost nm: cstring) returns (o: Outcome)
    requires fs.Valid() && fs.TableShape()
    modifies fs, fs.openFiles, fs.vol, fs.vol.fat, fs.vol.data, HandleSet(fs)
    ensures fs.Valid() && fs.TableShape() && (fs.openFiles == old(fs.openFiles) || fresh(fs.openFiles))
    ensures forall f: File :: f in fs.Handles() ==> f in old(fs.Handles()) || fresh(f)
    ensures InOrder(old(Now(fs))) && InOrder(Now(fs)) && Stepped(c, old(Now(fs)), Now(fs), o)
    ensures Kept(nm, Touches(c, nm), Failed(c, o), old(Now(fs)), Now(fs))
    ensures o.made ==> Effect(c, old(Now(fs)), Now(fs), o)
  {
    hide FileSystem.Base, FileSystem.Valid, InOrder, Kept, Effect, Opens, Closes, Reads, DoesWrite, Seeks, Unlinks,
        Renames, FindsDead, FindsStale, SafeAt, Writes, HarmlessSelf;
    NowInOrder(fs);
    var ok := IsPermitted(fs, c);
    if !ok {
      o := SKIPPED;
      StepKeeps(c, old(Now(fs)), Now(fs), o, nm);
      return;
    }
    match c {
      case Open(name, mode) => o := DoOpen(fs, name, mode);
      case Close(place) => o := DoClose(fs, place);
      case Read(place, len) => o := DoRead(fs, place, len);
      case Write(place, str) => o := DoWrite(fs, place, str);
      case Seek(place, offset, whence) => o := DoSeek(fs, place, offset, whence);
      case Unlink(name) => o := DoUnlink(fs, name);
      case Rename(oldname, newname) => o := DoRename(fs, oldname, newname);
    }
    NowInOrder(fs);
    StepKeeps(c, old(Now(fs)), Now(fs), o, nm);
  }

  predicate TouchesAny(calls: seq<Call>, nm: cstring) {
    exists i :: 0 <= i < |calls| && Touches(calls[i], nm)
  }

  predicate FailedAny(calls: seq<Call>, outs: seq<Outcome>)
    requires |outs| == |calls|
  {
    exists i :: 0 <= i < |calls| && Failed(calls[i], outs[i])
  }

  /** The states a run went through: each call, in its turn, was made or not, and did what it does. */
  ghost predicate Path(calls: seq<Call>, trace: seq<Snap>, outs: seq<Outcome>) {
    && |outs| == |calls| && |trace| == |calls| + 1
    && (forall i :: 0 <= i < |trace| ==> InOrder(trace[i]))
    && (forall i :: 0 <= i < |calls| ==> Stepped(calls[i], trace[i], trace[i + 1], outs[i]))
  }

  lemma PathStep(c: Call, s: Snap, o: Outcome, calls: seq<Call>, trace: seq<Snap>, outs: seq<Outcome>)
    requires InOrder(s) && Path(calls, trace, outs) && Stepped(c, s, trace[0], o)
    ensures Path([c] + calls, [s] + trace, [o] + outs)
  {
    hide InOrder, Stepped;
    InOrderFacts(s);
    forall i | 0 <= i < |trace|
      ensures Proper(trace[i])
    {
      InOrderFacts(trace[i]);
    }
    var cs, t, os := [c] + calls, [s] + trace, [o] + outs;
    forall i | 0 <= i < |t|
      ensures InOrder(t[i])
    {
      if i > 0 { assert t[i] == trace[i - 1]; }
    }
    forall i | 0 <= i < |cs|
      ensures Stepped(cs[i], t[i], t[i + 1], os[i])
    {
      if i > 0 { assert cs[i] == calls[i - 1] && t[i] == trace[i - 1] && t[i + 1] == trace[i] && os[i] == outs[i - 1]; }
    }
  }

  lemma AnyStep(c: Call, o: Outcome, calls: seq<Call>, outs: seq<Outcome>, nm: cstring)
    requires |outs| == |calls|
    ensures TouchesAny([c] + calls, nm) <==> Touches(c, nm) || TouchesAny(calls, nm)
    ensures FailedAny([c] + calls, [o] + outs) <==> Failed(c, o) || FailedAny(calls, outs)
  {
    hide Touches, Failed;
    var cs, os := [c] + calls, [o] + outs;
    assert cs[0] == c && os[0] == o && cs[1..] == calls && os[1..] == outs;
    assert TouchesAny(cs, nm) <==> Touches(cs[0], nm) || TouchesAny(cs[1..], nm) by { TouchesMore(cs, nm); }
    assert FailedAny(cs, os) <==> Failed(cs[0], os[0]) || FailedAny(cs[1..], os[1..]) by { FailedMore(cs, os); }
  }

  lemma TouchesMore(calls: seq<Call>, nm: cstring)
    requires calls != []
    ensures TouchesAny(calls, nm) <==> Touches(calls[0], nm) || TouchesAny(calls[1..], nm)
  {
    hide Touches;
    if TouchesAny(calls, nm) && !Touches(calls[0], nm) {
      var i :| 0 <= i < |calls| && Touches(calls[i], nm);
      assert calls[1..][i - 1] == calls[i];
    }
    if TouchesAny(calls[1..], nm) {
      var i :| 0 <= i < |calls[1..]| && Touches(calls[1..][i], nm);
      assert calls[i + 1] == calls[1..][i];
    }
  }

  lemma FailedMore(calls: seq<Call>, outs: seq<Outcome>)
    requires calls != [] && |outs| == |calls|
    ensures FailedAny(calls, outs) <==> Failed(calls[0], outs[0]) || FailedAny(calls[1..], outs[1..])
  {
    hide Failed;
    if FailedAny(calls, outs) && !Failed(calls[0], outs[0]) {
      var i :| 0 <= i < |calls| && Failed(calls[i], outs[i]);
      assert calls[1..][i - 1] == calls[i] && outs[1..][i - 1] == outs[i];
    }
    if FailedAny(calls[1..], outs[1..]) {
      var i :| 0 <= i < |calls[1..]| && Failed(calls[1..][i], outs[1..][i]);
      assert calls[i + 1] == calls[1..][i] && outs[i + 1] == outs[1..][i];
    }
  }

  /**
   * Any run keeps the filesystem in working order, and every call in it is made exactly when it is permitted, with the
   * outcome and the next state it promises. A reader that stays open sees the same content throughout, whatever is
   * unlinked, renamed, created or written meanwhile. A name no call touches, and nobody had open for writing, stands
   * for the same content afterwards. Unless a write ran out of space, every file still owns exactly the blocks its
   * size takes.
   */
  method Run(fs: FileSystem, calls: seq<Call>, ghost nm: cstring) returns (outs: seq<Outcome>, ghost trace: seq<Snap>)
    requires fs.Valid() && fs.TableShape()
    modifies fs, fs.openFiles, fs.vol, fs.vol.fat, fs.vol.data, HandleSet(fs)
    ensures fs.Valid() && fs.TableShape() && (fs.openFiles == old(fs.openFiles) || fresh(fs.openFiles))
    ensures forall f: File :: f in fs.Handles() ==> f in old(fs.Handles()) || fresh(f)
    ensures Path(calls, trace, outs) && trace[0] == old(Now(fs)) && trace[|calls|] == Now(fs)
    ensures Kept(nm, TouchesAny(calls, nm), FailedAny(calls, outs), old(Now(fs)), Now(fs))
    decreases |calls|
  {
    hide FileSystem.Base, FileSystem.Valid, InOrder, Stepped, Kept, Effect, Path, TouchesAny, FailedAny, Touches,
        Failed;
    NowInOrder(fs);
    ghost var s := Now(fs);
    if calls == [] {
      outs, trace := [], [s];
      NoPath(s);
      SameKept(nm, TouchesAny(calls, nm), FailedAny(calls, outs), s, s);
      return;
    }
    var o := Step(fs, calls[0], nm);
    ghost var s1 := Now(fs);
    ghost var t;
    outs, t := Run(fs, calls[1..], nm);
    assert calls == [calls[0]] + calls[1..];
    PathSize(calls[1..], t, outs);
    PathStep(calls[0], s, o, calls[1..], t, outs);
    AnyStep(calls[0], o, calls[1..], outs, nm);
    KeptTrans(nm, Touches(calls[0], nm), TouchesAny(calls[1..], nm), Failed(calls[0], o), FailedAny(calls[1..], outs),
        s, s1, Now(fs));
    outs, trace := [o] + outs, [s] + t;
  }

  lemma NoPath(s: Snap)
    requires InOrder(s)
    ensures Path([], [s], [])
  {}

  lemma PathSize(calls: seq<Call>, trace: seq<Snap>, outs: seq<Outcome>)
    requires Path(calls, trace, outs)
    ensures |outs| == |calls| && |trace| == |calls| + 1
  {}

  lemma KeptTrans(nm: cstring, t1: bool, t2: bool, d1: bool, d2: bool, s0: Snap, s1: Snap, s2: Snap)
    requires Kept(nm, t1, d1, s0, s1) && Kept(nm, t2, d2, s1, s2) && s1.bs == s0.bs
    requires forall f: File :: f in s0.h && f in s2.h ==> f in s1.h
    ensures Kept(nm, t1 || t2, d1 || d2, s0, s2)
  {
    hide Keeps, Ordered;
    KeepsTrans(nm, t1, t2, d1, d2, s0.bs, s0.h, s0.files, s0.ch, s1.h, s1.files, s1.ch, s2.h, s2.files, s2.ch);
  }

  /**
   * Every state reachable from a fresh filesystem, in each of the 160 geometries: the run starts with nothing there,
   * every block is free or owned at its end, and the volume can be mounted again.
   */
  method FromScratch(blocks: int, config: int, calls: seq<Call>, ghost nm: cstring)
    returns (fs: FileSystem?, outs: seq<Outcome>, ghost trace: seq<Snap>)
    ensures fs != null <==> Geometry(config, blocks)
    ensures fs != null ==>
              && fs.Valid() && fs.TableShape() && OfGeometry(fs.vol, config, blocks)
              && Path(calls, trace, outs) && trace[|calls|] == Now(fs)
              && trace[0].h == [] && Ordered(trace[0].files, trace[0].ch) && Catalog(trace[0].files) == map[]
              && Kept(nm, TouchesAny(calls, nm), FailedAny(calls, outs), trace[0], Now(fs))
              && fs.vol.Free() + Total(fs.vol.ch) == Min(Cells(config, blocks), EOF) - 1
              && (!FailedAny(calls, outs) ==> Tight(fs.vol.files, fs.vol.ch, fs.vol.blockSize))
              && (!TouchesAny(calls, nm) ==> nm !in Catalog(fs.vol.files))
  {
    hide FileSystem.Base, FileSystem.Valid, DirOK, TableOK, Entry, Slots, Placed, Touches, TouchesAny, Failed,
        FailedAny, Tight, Catalog, Total, ReadersStable, FreeSet, Cells, Path, InOrder, Stepped;
    fs := Format(blocks, config);
    outs, trace := [], [];
    if fs == null { return; }
    Shaped(fs);
    ghost var s := Now(fs);
    outs, trace := Run(fs, calls, nm);
    PathSize(calls, trace, outs);
    Shaped(fs);
    NowInOrder(fs);
    AllBlocks(Now(fs));
  }

  /** Unmount and mount: a run may go on from the state it ended in, the handles gone. */
  method Restart(fs: FileSystem, ghost config: int, ghost blocks: int) returns (again: FileSystem)
    requires fs.Valid() && fs.TableShape() && OfGeometry(fs.vol, config, blocks)
    ensures again.Valid() && again.TableShape() && OfGeometry(again.vol, config, blocks)
    ensures Now(again) == Now(fs).(h := [], at := map[])
    ensures fresh(again) && fresh(again.vol) && fresh(again.vol.fat) && fresh(again.vol.data) && fresh(again.openFiles)
  {
    hide FileSystem.Base, FileSystem.Valid, DirOK, TableOK, Entry, Slots, FreeSet, InOrder;
    again := Remount(fs, config, blocks);
    NowInOrder(again);
    assert OffsetsOf(again.Handles()) == map[];
  }
}
