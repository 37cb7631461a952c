/**
 * The calls as a state machine over values: when a program may make a call, what the state is afterwards, and what that
 * means for names, contents, readers and block counts. Line numbers are those of src/fs/fat.c.
 */
module Calls {
  import opened Bytes
  import opened Clients
  import opened Contents
  import opened Directory
  import opened Errno
  import opened Fat
  import opened FileSystems
  import opened Meaning
  import opened OpenTable
  import opened Store
  import opened Volumes

  /** One call. Handles are named by their place in the open-file table. */
  datatype Call =
    | Open(name: cstring, mode: Mode)
    | Close(place: nat)
    | Read(place: nat, len: u32)
    | Write(place: nat, str: seq<byte>)
    | Seek(place: nat, offset: int, whence: int)
    | Unlink(name: cstring)
    | Rename(oldname: cstring, newname: cstring)

  /** The call may change what `nm` stands for, or prepare to. */
  predicate Touches(c: Call, nm: cstring) {
    match c
    case Open(name, mode) => mode != F_READ && name == nm
    case Unlink(name) => name == nm
    case Rename(oldname, newname) => oldname == nm || newname == nm
    case _ => false
  }

  /**
   * What became of a call: whether it was made, what it returned (-1 for failure), the bytes read, errno after a
   * failure.
   */
  datatype Outcome = Outcome(made: bool, result: int, bytes: seq<byte>, code: int)

  /**
   * The state of a mounted filesystem: block size; the bytes of the directory and of each slot's chain; the chains;
   * how many blocks are free; the open-file table, the handles' offsets; and the table and the data region as they lie
   * in the host file.
   */
  datatype Snap = Snap(bs: nat, files: seq<seq<byte>>, ch: seq<seq<nat>>, free: nat, h: seq<File?>, at: map<File, u32>,
                       fat: seq<u16>, data: seq<byte>)

  /** Every handle is on some slot and has an offset. */
  ghost predicate Proper(s: Snap) {
    && Sized(s.files, s.ch) && s.bs >= ENTRY_SIZE
    && (forall i :: 0 <= i < |s.h| ==> s.h[i] != null && s.h[i].slot < Slots(s.files[0]))
    && (forall f: File :: f in s.h ==> f in s.at)
  }

  /** The invariant of the mounted filesystem. */
  ghost predicate InOrder(s: Snap) {
    && Proper(s) && Ordered(s.files, s.ch) && s.bs % ENTRY_SIZE == 0
    && Rep(s.bs, s.fat, s.data, s.ch, s.files) && s.free == |FreeSet(s.fat)|
    && TableOK(s.h, s.bs, s.ch[0], s.files[0])
  }

  // ---- when a call may be made ----

  /** The entry a handle is on. */
  ghost function EntryFor(s: Snap, place: nat): entry
    requires Proper(s) && place < |s.h|
  {
    Entry(s.files[0], s.h[place].slot)
  }

  /** Where a write through the handle starts. */
  ghost function StartOf(s: Snap, place: nat): u32
    requires Proper(s) && place < |s.h|
  {
    if s.h[place].mode == F_APPEND then SizeOf(EntryFor(s, place)) else s.at[s.h[place]]
  }

  /** The write gets as far as the bytes. */
  ghost predicate Writes(s: Snap, place: nat, str: seq<byte>)
    requires Proper(s) && place < |s.h|
  {
    s.h[place].mode != F_READ && May(EntryFor(s, place), PERM_WRITE) && str != []
  }

  /** In the largest geometry, whose last cell has no block, no more may be asked for than there is. */
  predicate RoomLeft(s: Snap, n: int) {
    |s.fat| <= EOF || n <= s.free
  }

  /** The 32-bit sums do not wrap, filling the hole asks for no place outside the chain, and there is room. */
  ghost predicate SafeAt(s: Snap, place: nat, len: nat)
    requires Proper(s) && place < |s.h|
  {
    var n, start := |s.ch[s.h[place].slot + 1]|, StartOf(s, place);
    && start % s.bs + len < 0x1_0000_0000 && !AsksOutside(s.bs, Max(1, n), SizeOf(EntryFor(s, place)), start)
    && RoomLeft(s, CeilDiv(start + len, s.bs) - n)
  }

  /** The call is one the C code gives a meaning to, and that does not ruin the filesystem. */
  ghost predicate Permitted(c: Call, s: Snap)
    requires Proper(s)
  {
    match c
    case Open(name, mode) => !FindsDead(s.files[0], name) && (MustGrow(s.files, name, mode) ==> RoomLeft(s, 1))
    case Close(place) => place < |s.h|
    case Read(place, len) => place < |s.h|
    case Write(place, str) => place < |s.h| && (Writes(s, place, str) ==> SafeAt(s, place, |str|))
    case Seek(place, offset, whence) => place < |s.h| && -0x8000_0000 <= offset < 0x8000_0000
    case Unlink(name) => !FindsStale(s.files[0], name)
    case Rename(oldname, newname) =>
      ValidName(newname) ==> !FindsStale(s.files[0], oldname) && (oldname == newname ==> HarmlessSelf(s, oldname))
  }

  /** Renaming the file to its own name does no harm. */
  ghost predicate HarmlessSelf(s: Snap, name: cstring)
    requires Proper(s)
  {
    var k := FindSlot(s.files[0], name, 0);
    k == -1 || OpenOn(s.h, k) || s.ch[k + 1] == []
  }

  // ---- what a call does ----

  /** Directory, chains and bytes are as they were. */
  ghost predicate SameFiles(s: Snap, s': Snap) {
    s'.bs == s.bs && s'.files == s.files && s'.ch == s.ch && s'.free == s.free
  }

  /** And so are the handles. */
  ghost predicate SameState(s: Snap, s': Snap) {
    SameFiles(s, s') && s'.h == s.h && s'.at == s.at
  }

  ghost predicate Opens(name: cstring, mode: Mode, s: Snap, s': Snap, o: Outcome)
    requires Proper(s)
  {
    if !CanOpen(s.files, s.free, s.h, name, mode) then
      o.result == -1 && o.code == OpenError(s.files, name, mode) && SameState(s, s')
    else
      && o.result == 0 && s'.bs == s.bs && AddsHandle(mode, s, s')
      && DidOpen(s.bs, s.files, s.ch, s.free, s'.files, s'.ch, s'.free, name, mode, s'.h[|s.h|].slot)
      && s'.h[|s.h|].slot < Slots(s'.files[0])
      && s'.at == s.at[s'.h[|s.h|] := if mode == F_APPEND then SizeOf(Entry(s'.files[0], s'.h[|s.h|].slot)) else 0]
  }

  /** There is one handle more, at the end of the table. */
  ghost predicate AddsHandle(mode: Mode, s: Snap, s': Snap) {
    && |s'.h| == |s.h| + 1 && s'.h[..|s.h|] == s.h
    && s'.h[|s.h|] != null && s'.h[|s.h|] !in s.h && s'.h[|s.h|].mode == mode && s'.files != []
  }

  ghost predicate Closes(place: nat, s: Snap, s': Snap, o: Outcome)
    requires Proper(s) && place < |s.h|
  {
    var f: File := s.h[place];
    var e := EntryFor(s, place);
    && o.result == 0 && s'.bs == s.bs && s'.h == SwapRemove(s.h, place) && s'.at == s.at - {f}
    && if CloseCount(s.h, place) == 0 && Mark(e) == 2
       then s'.files == PutFile(s.files, f.slot, WithMark(e, 1), []) && s'.ch == s.ch[f.slot + 1 := []]
            && s'.free == s.free + |s.ch[f.slot + 1]|
       else SameFiles(s, s')
  }

  /** What fs_read delivers; see `FileSystem.Delivered`. */
  ghost function Delivery(s: Snap, place: nat, len: u32): seq<byte>
    requires Proper(s) && place < |s.h|
  {
    var f: File := s.h[place];
    var off := s.at[f];
    if off > SizeOf(EntryFor(s, place)) || off + len < 0x1_0000_0000 then Got(Content(s.files, f.slot), off, len)
    else FetchedFrom(s.data, s.bs, s.ch[f.slot + 1], s.files[f.slot + 1], off / s.bs, off % s.bs, len)
  }

  ghost predicate Reads(place: nat, len: u32, s: Snap, s': Snap, o: Outcome)
    requires Proper(s) && place < |s.h|
  {
    if !May(EntryFor(s, place), PERM_READ) then o.result == -1 && o.code == PEFPERM && o.bytes == [] && SameState(s, s')
    else
      var f: File := s.h[place];
      && o.bytes == Delivery(s, place, len) && o.result == |o.bytes| && SameFiles(s, s') && s'.h == s.h
      && f in s'.at && s'.at == s.at[f := s'.at[f]] && s'.at[f] as int == s.at[f] as int + o.result
  }

  ghost predicate DoesWrite(place: nat, str: seq<byte>, s: Snap, s': Snap, o: Outcome)
    requires Proper(s) && place < |s.h|
  {
    var f: File := s.h[place];
    if f.mode == F_READ then o.result == -1 && o.code == PEFMODE && SameState(s, s')
    else if !May(EntryFor(s, place), PERM_WRITE) then o.result == -1 && o.code == PEFPERM && SameState(s, s')
    else
      && s'.bs == s.bs && s'.h == s.h && f in s'.at && s'.at == s.at[f := s'.at[f]]
      && if str == [] then o.result == 0 && SameFiles(s, s') && s'.at[f] == StartOf(s, place)
         else DidWrite(s.bs, s.files, s.ch, s.free, s'.files, s'.ch, s'.free, f.slot, StartOf(s, place), str, o.result,
                       s'.at[f], o.code)
  }

  ghost predicate Seeks(place: nat, offset: int, whence: int, s: Snap, s': Snap, o: Outcome)
    requires Proper(s) && place < |s.h|
  {
    if whence !in {F_SEEK_SET, F_SEEK_CUR, F_SEEK_END} then
      o.result == 0xFFFF_FFFF && o.code == PEINVAL && SameState(s, s')
    else
      var f: File := s.h[place];
      var from: int := if whence == F_SEEK_SET then 0 else if whence == F_SEEK_CUR then s.at[f]
                       else SizeOf(EntryFor(s, place));
      && o.result == (from + offset) % 0x1_0000_0000 && SameFiles(s, s') && s'.h == s.h
      && s'.at == s.at[f := (from + offset) % 0x1_0000_0000]
  }

  ghost predicate Unlinks(name: cstring, s: Snap, s': Snap, o: Outcome)
    requires Proper(s)
  {
    var k := FindSlot(s.files[0], name, 0);
    var open := Busy(s.h, s.files[0], k);
    && s'.bs == s.bs && s'.h == s.h && s'.at == s.at
    && s'.files == UnlinkFiles(s.files, k, open) && s'.ch == UnlinkChains(s.ch, k, open)
    && s'.free == s.free + UnlinkFrees(s.ch, k, open)
    && if k == -1 then o.result == -1 && o.code == PENOFILE else o.result == 0
  }

  ghost predicate Renames(oldname: cstring, newname: cstring, s: Snap, s': Snap, o: Outcome)
    requires Proper(s)
  {
    var k, t := FindSlot(s.files[0], oldname, 0), FindSlot(s.files[0], newname, 0);
    if k == -1 then o.result == -1 && o.code == PENOFILE && SameState(s, s')
    else if !ValidName(newname) then o.result == -1 && o.code == PEFNAME && SameState(s, s')
    else
      var open := OpenOn(s.h, t);
      && o.result == 0 && s'.bs == s.bs && s'.h == s.h && s'.at == s.at
      && s'.files == RenameFiles(UnlinkFiles(s.files, t, open), k, newname) && s'.ch == UnlinkChains(s.ch, t, open)
      && s'.free == s.free + UnlinkFrees(s.ch, t, open)
  }

  /** One call, made in state `s`, ends in state `s'`. */
  ghost predicate Next(c: Call, s: Snap, s': Snap, o: Outcome)
    requires Proper(s) && Permitted(c, s)
  {
    match c
    case Open(name, mode) => Opens(name, mode, s, s', o)
    case Close(place) => Closes(place, s, s', o)
    case Read(place, len) => Reads(place, len, s, s', o)
    case Write(place, str) => DoesWrite(place, str, s, s', o)
    case Seek(place, offset, whence) => Seeks(place, offset, whence, s, s', o)
    case Unlink(name) => Unlinks(name, s, s', o)
    case Rename(oldname, newname) => Renames(oldname, newname, s, s', o)
  }

  /** Cell 0 of the table, the header of the image, is as it was. */
  predicate SameHeader(s: Snap, s': Snap) {
    |s'.fat| == |s.fat| > 0 && s'.fat[0] == s.fat[0]
  }

  /** A call is made exactly when it is permitted, and does then what it does; otherwise nothing happens. */
  ghost predicate Stepped(c: Call, s: Snap, s': Snap, o: Outcome)
    requires Proper(s)
  {
    (o.made <==> Permitted(c, s)) && SameHeader(s, s') && if Permitted(c, s) then Next(c, s, s', o) else s' == s
  }

  /** A write that ran out of space. */
  predicate Failed(c: Call, o: Outcome) {
    c.Write? && o.made && o.result == -1 && o.code == PETOOFAT
  }

  /** As much as fitted is in place, and the file reads accordingly. */
  ghost predicate WroteTorn(s: Snap, s': Snap, k: nat, start: nat, str: seq<byte>)
    requires Proper(s) && Proper(s') && k < Slots(s.files[0]) && k < Slots(s'.files[0])
  {
    && start <= |s'.files[k + 1]| <= start + |str|
    && Content(s'.files, k) == Torn(Content(s.files, k), start, str[..|s'.files[k + 1]| - start])
  }

  /** A file that is there can be opened when nobody has it open, or when it is opened for reading among readers. */
  ghost predicate MayJoin(h: seq<File?>, k: nat, mode: Mode)
    requires NoNull(h)
  {
    || (forall i :: 0 <= i < |h| ==> h[i].slot != k)
    || (mode == F_READ && forall i :: 0 <= i < |h| && h[i].slot == k ==> h[i].mode == F_READ)
  }

  /** What a call means for the names and their contents, and for the handles. */
  ghost predicate Effect(c: Call, s: Snap, s': Snap, o: Outcome)
    requires Proper(s) && Proper(s') && Permitted(c, s) && Ordered(s.files, s.ch) && Ordered(s'.files, s'.ch)
  {
    var m, m' := Catalog(s.files), Catalog(s'.files);
    match c
    case Open(name, mode) =>
      && m' == (if o.result == -1 then m else Assign(m, name, Held(s'.files, name)))
      && OpenEffect(s, s', name, mode, o)
    case Close(place) =>
      && m' == m && o.result == 0 && |s'.h| == |s.h| - 1
      && (forall f: File :: f in s'.h ==> f in s.h && f != s.h[place])
      && (forall f: File :: f in s.h && f != s.h[place] ==> f in s'.h)
    case Read(place, len) => m' == m && s'.h == s.h && ReadEffect(s, s', place, len, o)
    case Seek(place, offset, whence) => m' == m && s'.h == s.h && SeekEffect(s, s', place, offset, whence, o)
    case Write(place, str) =>
      var k, e := s.h[place].slot, EntryFor(s, place);
      && k < Slots(s'.files[0])
      && m' == (if Listed(e) then m[NameOf(e) := Content(s'.files, k)] else m)
      && StoreEffect(s, s', place, str, o)
    case Unlink(name) =>
      m' == m - {name} && s'.h == s.h && (ValidName(name) ==> (o.result == 0 <==> name in m))
      && (o.result == 0 || (o.result == -1 && o.code == 1004))
    case Rename(oldname, newname) =>
      && m' == (if o.result == 0 then (m - {oldname, newname})[newname := Held(s.files, oldname)] else m)
      && s'.h == s.h && (ValidName(oldname) && ValidName(newname) ==> (o.result == 0 <==> oldname in m))
      && (o.result == 0 || (o.result == -1 && o.code == if FindSlot(s.files[0], oldname, 0) == -1 then 1004 else 1009))
  }

  /**
   * Opening an old file to write starts from nothing, if it may be written to; any other open finds the content as it
   * was, and a new file has none. There is one handle more, on the file the name finds.
   */
  ghost predicate OpenEffect(s: Snap, s': Snap, name: cstring, mode: Mode, o: Outcome)
    requires Proper(s) && Proper(s')
  {
    var k := FindSlot(s.files[0], name, 0);
    && (o.result != -1 <==>
          if k != -1 then MayJoin(s.h, k, mode)
          else mode != F_READ && ValidName(name) && (FirstUnused(s.files[0], 0) < Slots(s.files[0]) || s.free > 0))
    && (o.result == -1 ==>
          && s'.h == s.h
          && o.code == if k != -1 then 1005 else if mode
               == F_READ then 1004 else if ValidName(name) then 1006 else 1009)
    && (o.result != -1 ==>
          && Held(s'.files, name) == (if k == -1 then []
                                      else if mode == F_WRITE && May(Entry(s.files[0], k), PERM_WRITE) then []
                                      else Content(s.files, k))
          && |s'.h| == |s.h| + 1 && s'.h[..|s.h|] == s.h && s'.h[|s.h|].mode == mode
          && s'.h[|s.h|].slot == FindSlot(s'.files[0], name, 0))
  }

  /** Text appended goes to the end, wherever the handle was; other text goes where the handle is. */
  ghost predicate StoreEffect(s: Snap, s': Snap, place: nat, str: seq<byte>, o: Outcome)
    requires Proper(s) && Proper(s') && place < |s.h| && s.h[place].slot < Slots(s'.files[0])
  {
    var f: File := s.h[place];
    var c, c' := Content(s.files, f.slot), Content(s'.files, f.slot);
    && f in s'.at
    && (f.mode == F_READ ==> o.result == -1 && o.code == 1007)
    && (f.mode != F_READ && !May(EntryFor(s, place), PERM_WRITE) ==> o.result == -1 && o.code == 1008)
    && (f.mode != F_READ && May(EntryFor(s, place), PERM_WRITE) ==>
          && (o.result == |str| || (o.result == -1 && o.code == 1006))
          && (str != [] ==>
                var start := if f.mode == F_APPEND then SizeOf(EntryFor(s, place)) as int else s.at[f] as int;
                o.result == |str| <==> start + |str| <= s.bs * (|s.ch[f.slot + 1]| + s.free)))
    && (o.result == |str| > 0 && SizeOf(EntryFor(s, place)) <= |s.files[f.slot + 1]| ==>
          if f.mode == F_APPEND then c' == c + str && s'.at[f] as int == |c + str|
          else c' == Overlay(c, s.at[f], str) && s'.at[f] as int == s.at[f] as int + |str|)
    && (o.made && o.result == -1 && o.code == 1006 && s'.ch[f.slot + 1] != []
        && SizeOf(EntryFor(s, place)) <= |s.files[f.slot + 1]| ==>
          WroteTorn(s, s', f.slot, if f.mode == F_APPEND then |c| else s.at[f], str))
  }

  /** A read that is permitted gives the bytes from the offset on, up to the length or the end, and moves on. */
  ghost predicate ReadEffect(s: Snap, s': Snap, place: nat, len: u32, o: Outcome)
    requires Proper(s) && Proper(s') && place < |s.h| && s'.h == s.h
  {
    var f: File := s.h[place];
    var c, at := Content(s.files, f.slot), s.at[f] as int;
    && (o.result == -1 <==> !May(EntryFor(s, place), PERM_READ)) && (o.result == -1 ==> o.code == 1008)
    && (o.result != -1 && at + len as int < 0x1_0000_0000 ==>
          && o.bytes == (if at <= |c| then c[at..Min(at + len as int, |c|)] else [])
          && o.result == |o.bytes| && s'.at[f] as int == at + |o.bytes|)
  }

  /** 1, 2 and 3 seek from the start, from where the handle is, and from the end; in 32 bits, without a sign. */
  ghost predicate SeekEffect(s: Snap, s': Snap, place: nat, offset: int, whence: int, o: Outcome)
    requires Proper(s) && Proper(s') && place < |s.h| && s'.h == s.h
  {
    var f: File := s.h[place];
    && (if 1 <= whence <= 3 then o.result == s'.at[f] as int else o.result == 0xFFFF_FFFF && o.code == 22)
    && s'.at[f] as int ==
      if whence == 1 then offset % 0x1_0000_0000
      else if whence == 2 then (s.at[f] as int + offset) % 0x1_0000_0000
      else if whence == 3 then (SizeOf(EntryFor(s, place)) as int + offset) % 0x1_0000_0000
      else s.at[f] as int
  }

  // ---- what no call does ----

  /** As long as a reader has a file open, it sees the same content. */
  ghost predicate ReadersStable(h0: seq<File?>, files0: seq<seq<byte>>, h: seq<File?>, files: seq<seq<byte>>)
    requires Files(files0) && Files(files)
  {
    forall f: File :: f in h0 && f in h && f.mode == F_READ ==> SameContentAt(files0, files, f.slot)
  }

  ghost predicate SameContentAt(files0: seq<seq<byte>>, files: seq<seq<byte>>, s: nat)
    requires Files(files0) && Files(files)
  {
    s < Slots(files0[0]) && s < Slots(files[0]) && Content(files, s) == Content(files0, s)
  }

  ghost predicate Named(files: seq<seq<byte>>, s: nat, nm: cstring)
    requires Files(files)
  {
    s < Slots(files[0]) && Listed(Entry(files[0], s)) && NameOf(Entry(files[0], s)) == nm
  }

  /** Nobody has `nm` open for writing. */
  ghost predicate Quiet(nm: cstring, h: seq<File?>, files: seq<seq<byte>>)
    requires Files(files)
  {
    forall f: File :: f in h && f.mode != F_READ ==> !Named(files, f.slot, nm)
  }

  /** `nm` stands for the same content in both, or for none. */
  ghost predicate SameFor(nm: cstring, m0: map<cstring, seq<byte>>, m: map<cstring, seq<byte>>) {
    (nm in m <==> nm in m0) && (nm in m ==> m[nm] == m0[nm])
  }

  /** Every handle points into the directory. */
  ghost predicate Placed(h: seq<File?>, files: seq<seq<byte>>)
    requires Files(files)
  {
    forall f: File :: f in h ==> f.slot < Slots(files[0])
  }

  /** A change of slot `k` disturbs no reader unless it reads that slot, and then only the content counts. */
  lemma PutStable(h0: seq<File?>, h: seq<File?>, files: seq<seq<byte>>, k: nat, e: entry, b: seq<byte>)
    requires Files(files) && k < Slots(files[0]) && Placed(h0, files)
    requires ContentOf(e, b) == Content(files, k) || forall f: File :: f in h0 && f in h && f.mode == F_READ ==>
               f.slot != k
    ensures Files(PutFile(files, k, e, b)) && ReadersStable(h0, files, h, PutFile(files, k, e, b))
  {
    hide Entry, Slots, ContentOf, Content, PutFile;
    PutSame(files, k, e, b);
    var files' := PutFile(files, k, e, b);
    forall f: File | f in h0 && f in h && f.mode == F_READ
      ensures SameContentAt(files, files', f.slot)
    {
      assert f.slot != k ==> Entry(files'[0], f.slot) == Entry(files[0], f.slot);
    }
  }

  /** A changed slot is not listed under a new name by accident. */
  lemma PutQuiet(nm: cstring, h: seq<File?>, files: seq<seq<byte>>, k: nat, e: entry, b: seq<byte>)
    requires Files(files) && k < Slots(files[0]) && Placed(h, files) && Quiet(nm, h, files)
    requires Listed(e) && NameOf(e) == nm ==> Named(files, k, nm)
    ensures Files(PutFile(files, k, e, b)) && Quiet(nm, h, PutFile(files, k, e, b))
  {
    hide Entry, Slots, ContentOf, Content, PutFile, NameOf, Listed;
    PutSame(files, k, e, b);
    var files' := PutFile(files, k, e, b);
    forall f: File | f in h && f.mode != F_READ
      ensures !Named(files', f.slot, nm)
    {
      assert !Named(files, f.slot, nm);
      assert f.slot != k ==> Entry(files'[0], f.slot) == Entry(files[0], f.slot);
    }
  }

  /** What one call keeps, whatever it is. `touched`: it names `nm`; `failed`: it was a write that ran out of space. */
  ghost predicate Keeps(nm: cstring, touched: bool, failed: bool, bs: nat, h0: seq<File?>, files0: seq<seq<byte>>,
      ch0: seq<seq<nat>>, h: seq<File?>, files: seq<seq<byte>>, ch: seq<seq<nat>>)
    requires Ordered(files0, ch0) && Ordered(files, ch) && bs > 0
  {
    && ReadersStable(h0, files0, h, files)
    && (!touched && Quiet(nm, h0, files0) ==> Quiet(nm, h, files) && SameFor(nm, Catalog(files0), Catalog(files)))
    && (!failed && Tight(files0, ch0, bs) ==> Tight(files, ch, bs))
  }

  lemma NothingChanged(nm: cstring, touched: bool, failed: bool, bs: nat, h0: seq<File?>, h: seq<File?>,
      files: seq<seq<byte>>, ch: seq<seq<nat>>)
    requires Ordered(files, ch) && bs > 0 && Placed(h0, files) && forall f :: f in h ==> f in h0
    ensures Keeps(nm, touched, failed, bs, h0, files, ch, h, files, ch)
  {
    hide Entry, Slots, Content, Catalog, DirOK, Tight, NameOf;
  }

  /** Keeping is transitive: no handle that was closed in between comes back. */
  lemma KeepsTrans(nm: cstring, t1: bool, t2: bool, d1: bool, d2: bool, bs: nat, h0: seq<File?>, f0: seq<seq<byte>>,
      c0: seq<seq<nat>>, h1: seq<File?>, f1: seq<seq<byte>>, c1: seq<seq<nat>>, h2: seq<File?>, f2: seq<seq<byte>>,
      c2: seq<seq<nat>>)
    requires Ordered(f0, c0) && Ordered(f1, c1) && Ordered(f2, c2) && bs > 0
    requires Keeps(nm, t1, d1, bs, h0, f0, c0, h1, f1, c1) && Keeps(nm, t2, d2, bs, h1, f1, c1, h2, f2, c2)
    requires forall f: File :: f in h0 && f in h2 ==> f in h1
    ensures Keeps(nm, t1 || t2, d1 || d2, bs, h0, f0, c0, h2, f2, c2)
  {
    hide Entry, Slots, Content, Catalog, DirOK, Tight, Quiet;
    forall f: File | f in h0 && f in h2 && f.mode == F_READ
      ensures SameContentAt(f0, f2, f.slot)
    {
      assert SameContentAt(f0, f1, f.slot) && SameContentAt(f1, f2, f.slot);
    }
  }

  lemma AfterOpen(nm: cstring, name: cstring, bs: nat, h0: seq<File?>, files0: seq<seq<byte>>, ch0: seq<seq<nat>>,
      f: File, files: seq<seq<byte>>, ch: seq<seq<nat>>)
    requires Ordered(files0, ch0) && Ordered(files, ch) && bs > 0 && Placed(h0, files0)
             && Opened(files0, files, name, f.slot)
    requires files == files0 || forall g: File :: g in h0 ==> g.slot != f.slot
    requires f.mode == F_READ ==> files == files0
    requires Tight(files0, ch0, bs) ==> Tight(files, ch, bs)
    ensures Keeps(nm, f.mode != F_READ && name == nm, false, bs, h0, files0, ch0, h0 + [f], files, ch)
    ensures Catalog(files) == Assign(Catalog(files0), name, Held(files, name))
  {
    hide Entry, Slots, Content, Catalog, DirOK, Tight, NameOf, Listed, Live, UniqueNames, FindSlot;
    forall g: File | g in h0 && g.slot != f.slot
      ensures SameContentAt(files0, files, g.slot) && (Named(files, g.slot, nm) <==> Named(files0, g.slot, nm))
    {
      OpenedOther(files0, files, name, f.slot, g.slot);
    }
    forall g: File | g in h0 && g.slot == f.slot
      ensures SameContentAt(files0, files, g.slot)
    {
    }
  }

  lemma AfterClose(nm: cstring, bs: nat, h0: seq<File?>, h: seq<File?>, files: seq<seq<byte>>, ch: seq<seq<nat>>,
      k: nat)
    requires Ordered(files, ch) && bs > 0 && Placed(h0, files) && k < Slots(files[0]) && Mark(Entry(files[0], k)) == 2
    requires Ordered(PutFile(files, k, WithMark(Entry(files[0], k), 1), []), ch[k + 1 := []])
    requires forall f: File :: f in h ==> f in h0 && f.slot != k
    ensures Keeps(nm, false, false, bs, h0, files, ch, h, PutFile(files, k, WithMark(Entry(files[0], k), 1), []),
                ch[k + 1 := []])
    ensures Catalog(PutFile(files, k, WithMark(Entry(files[0], k), 1), [])) == Catalog(files)
  {
    var e := WithMark(Entry(files[0], k), 1);
    assert !Live(e) && !Listed(e);
    hide Entry, Slots, Content, Catalog, EntriesOK, EndsOnce, UniqueNames, Tight, NameOf, WithMark, Listed;
    PutFileEntry(files, k, e, []);
    PutStable(h0, h, files, k, e, []);
    if Quiet(nm, h0, files) { PutQuiet(nm, h, files, k, e, []); }
    CatalogClosed(files, k);
    if Tight(files, ch, bs) { TightPut(files, ch, bs, k, e, [], []); }
  }

  /** Taking a name away keeps the directory in order. */
  lemma UnlinkOrdered(files: seq<seq<byte>>, ch: seq<seq<nat>>, name: cstring, open: bool)
    requires Ordered(files, ch) && !FindsStale(files[0], name)
    requires open ==> FindSlot(files[0], name, 0) == -1 || Live(Entry(files[0], FindSlot(files[0], name, 0)))
    ensures Ordered(UnlinkFiles(files, FindSlot(files[0], name, 0), open),
                UnlinkChains(ch, FindSlot(files[0], name, 0), open))
  {
    hide Entry, Slots, DirOK, PutEntry, Live, FindSlot, NameOf, BlockOf;
    var k := FindSlot(files[0], name, 0);
    if k != -1 {
      FoundEntry(files[0], ch, name);
      if open { Unlinked(files[0], ch, k); } else { Dropped(files[0], ch, k); }
      PutFileEntry(files, k, WithMark(Entry(files[0], k), 1), []);
      PutFileEntry(files, k, WithMark(Entry(files[0], k), 2), files[k + 1]);
    }
  }

  lemma AfterUnlink(nm: cstring, name: cstring, bs: nat, h: seq<File?>, files: seq<seq<byte>>, ch: seq<seq<nat>>,
      open: bool)
    requires Ordered(files, ch) && bs > 0 && Placed(h, files) && !FindsStale(files[0], name)
    requires open || forall f: File :: f in h ==> f.slot != FindSlot(files[0], name, 0)
    requires open ==> FindSlot(files[0], name, 0) == -1 || Live(Entry(files[0], FindSlot(files[0], name, 0)))
    ensures var k := FindSlot(files[0], name, 0);
            Ordered(UnlinkFiles(files, k, open), UnlinkChains(ch, k, open))
            && Keeps(nm, name == nm, false, bs, h, files, ch, h, UnlinkFiles(files, k, open), UnlinkChains(ch, k, open))
            && Catalog(UnlinkFiles(files, k, open)) == Catalog(files) - {name}
  {
    hide Entry, Slots, Content, Catalog, EntriesOK, EndsOnce, UniqueNames, Tight, NameOf, WithMark, Listed, FindSlot,
        ContentOf, UnlinkFiles, UnlinkChains, SizeOf, PutFile, Quiet, ReadersStable, FindsStale, Live;
    var k := FindSlot(files[0], name, 0);
    if k != -1 { FoundEntry(files[0], ch, name); }
    UnlinkOrdered(files, ch, name, open);
    CatalogUnlinked(files, ch, name, open);
    if Tight(files, ch, bs) { TightUnlinked(files, ch, bs, k, open); }
    UnlinkStable(nm, h, files, ch, k, open);
  }

  lemma UnlinkStable(nm: cstring, h: seq<File?>, files: seq<seq<byte>>, ch: seq<seq<nat>>, k: int, open: bool)
    requires Ordered(files, ch) && Placed(h, files) && -1 <= k < Slots(files[0])
             && (k != -1 ==> Mark(Entry(files[0], k)) != 0)
    requires open || forall f: File :: f in h ==> f.slot != k
    requires Files(UnlinkFiles(files, k, open))
    ensures ReadersStable(h, files, h, UnlinkFiles(files, k, open))
    ensures Quiet(nm, h, files) ==> Quiet(nm, h, UnlinkFiles(files, k, open))
  {
    hide Entry, Slots, Content, Catalog, DirOK, NameOf, WithMark, Listed, ContentOf, SizeOf, PutFile;
    if k == -1 { return; }
    var e := Entry(files[0], k);
    MarkedFields(files[0], ch, k);
    MarkedUnlisted(e);
    if open {
      assert UnlinkFiles(files, k, open)
               == PutFile(files, k, WithMark(e, 2), files[k + 1]) by { UnlinkIsPut(files, k); }
      SameContent(e, WithMark(e, 2), files[k + 1]);
      ContentIs(files, k);
      PutStable(h, h, files, k, WithMark(e, 2), files[k + 1]);
      if Quiet(nm, h, files) { PutQuiet(nm, h, files, k, WithMark(e, 2), files[k + 1]); }
    } else {
      PutStable(h, h, files, k, WithMark(e, 1), []);
      if Quiet(nm, h, files) { PutQuiet(nm, h, files, k, WithMark(e, 1), []); }
    }
  }

  lemma UnlinkIsPut(files: seq<seq<byte>>, k: nat)
    requires Files(files) && k < Slots(files[0])
    ensures UnlinkFiles(files, k, true) == PutFile(files, k, WithMark(Entry(files[0], k), 2), files[k + 1])
  {}

  lemma MarkedUnlisted(e: entry)
    ensures !Listed(WithMark(e, 1)) && !Listed(WithMark(e, 2))
  {}

  /** The name changes hands: the entry of slot `k`, listed as `oldname` or not at all, gets `newname`. */
  lemma AfterNamed(nm: cstring, oldname: cstring, newname: cstring, bs: nat, h: seq<File?>, files: seq<seq<byte>>,
      ch: seq<seq<nat>>, k: nat)
    requires Ordered(files, ch) && bs > 0 && Placed(h, files) && k < Slots(files[0]) && ValidName(newname)
             && |newname| < NAME_LEN
    requires Listed(Entry(files[0], k)) ==> NameOf(Entry(files[0], k)) == oldname
    requires Live(Entry(files[0], k)) || (ch[k + 1] == [] && SizeOf(Entry(files[0], k)) == 0)
    requires Ordered(RenameFiles(files, k, newname), ch)
    ensures Keeps(nm, oldname == nm || newname == nm, false, bs, h, files, ch, h, RenameFiles(files, k, newname), ch)
  {
    hide Entry, Slots, Content, Catalog, EntriesOK, EndsOnce, UniqueNames, Tight, NameOf, WithName, Listed, ContentOf,
        SizeOf, PutFile, Quiet, ReadersStable, RenameFiles, ValidName, Live;
    CatalogNamed(files, k, newname);
    ValidNotGhostly(newname);
    if Tight(files, ch, bs) { TightNamed(files, ch, bs, k, newname); }
    var e := WithName(Entry(files[0], k), newname);
    NameField(Entry(files[0], k), newname);
    SameContent(Entry(files[0], k), e, files[k + 1]);
    ContentIs(files, k);
    assert RenameFiles(files, k, newname) == PutFile(files, k, e, files[k + 1]) by { RenameIsPut(files, k, newname); }
    PutStable(h, h, files, k, e, files[k + 1]);
    if Quiet(nm, h, files) && newname != nm { PutQuiet(nm, h, files, k, e, files[k + 1]); }
  }

  lemma RenameIsPut(files: seq<seq<byte>>, k: nat, newname: cstring)
    requires Files(files) && k < Slots(files[0]) && |newname| < NAME_LEN
    ensures RenameFiles(files, k, newname) == PutFile(files, k, WithName(Entry(files[0], k), newname), files[k + 1])
  {}

  lemma AfterRename(nm: cstring, oldname: cstring, newname: cstring, bs: nat, h: seq<File?>, files: seq<seq<byte>>,
      ch: seq<seq<nat>>, open: bool)
    requires Ordered(files, ch) && bs > 0 && Placed(h, files) && !FindsStale(files[0], oldname) && ValidName(newname)
             && |newname| < NAME_LEN
    requires FindSlot(files[0], oldname, 0) != -1
    requires oldname == newname ==> open || ch[FindSlot(files[0], oldname, 0) + 1] == []
    requires open || forall f: File :: f in h ==> f.slot != FindSlot(files[0], newname, 0)
    ensures var k, t := FindSlot(files[0], oldname, 0), FindSlot(files[0], newname, 0);
            var f := RenameFiles(UnlinkFiles(files, t, open), k, newname);
            Ordered(f, UnlinkChains(ch, t, open)) ==>
              && Keeps(nm, oldname == nm || newname == nm, false, bs, h, files, ch, h, f, UnlinkChains(ch, t, open))
              && Catalog(f) == (Catalog(files) - {oldname, newname})[newname := Held(files, oldname)]
  {
    hide Entry, Slots, Content, Catalog, EntriesOK, EndsOnce, UniqueNames, Tight, NameOf, Listed, ContentOf,
        UnlinkFiles, UnlinkChains, PutFile, Quiet, ReadersStable, RenameFiles, FindSlot, Keeps, ValidName, FindsStale,
        Live, FindsDead, SizeOf, Held;
    var k, t := FindSlot(files[0], oldname, 0), FindSlot(files[0], newname, 0);
    var mid, c := UnlinkFiles(files, t, open), UnlinkChains(ch, t, open);
    NotDead(files[0], newname);
    FoundEntry(files[0], ch, oldname);
    if t != -1 { FoundEntry(files[0], ch, newname); }
    AfterUnlink(nm, newname, bs, h, files, ch, open);
    MidEntry(files, ch, oldname, newname, open);
    MidOwns(files, ch, oldname, newname, open);
    if Ordered(RenameFiles(mid, k, newname), c) {
      CatalogRenamed(files, ch, oldname, newname, open);
      AfterNamed(nm, oldname, newname, bs, h, mid, c, k);
      KeepsTrans(nm, newname == nm, oldname == nm || newname == nm, false, false, bs, h, files, ch, h, mid, c, h,
          RenameFiles(mid, k, newname), c);
    }
  }

  /** An entry about to get its new name is live, or owns nothing. */
  lemma MidOwns(files: seq<seq<byte>>, ch: seq<seq<nat>>, oldname: cstring, newname: cstring, open: bool)
    requires Ordered(files, ch) && ValidName(newname) && FindSlot(files[0], oldname, 0) != -1
             && !FindsStale(files[0], oldname)
    requires oldname == newname ==> open || ch[FindSlot(files[0], oldname, 0) + 1] == []
    ensures var k, t := FindSlot(files[0], oldname, 0), FindSlot(files[0], newname, 0);
            var mid, c := UnlinkFiles(files, t, open), UnlinkChains(ch, t, open);
            && k < Slots(mid[0]) && (Live(Entry(mid[0], k)) || (c[k + 1] == [] && SizeOf(Entry(mid[0], k)) == 0))
  {
    hide Slots, Entry, NameOf, FindSlot, UnlinkFiles, UnlinkChains, SizeOf, BlockOf;
    var k := FindSlot(files[0], oldname, 0);
    MidEntry(files, ch, oldname, newname, open);
    FoundEntry(files[0], ch, oldname);
    FoundApart(files, ch, oldname, newname);
    assert SlotOK(Entry(files[0], k), ch[k + 1]);
  }

  /** `end` is where the write stopped. */
  lemma AfterWrite(nm: cstring, bs: nat, h: seq<File?>, f: File, files0: seq<seq<byte>>, ch0: seq<seq<nat>>,
      files: seq<seq<byte>>, ch: seq<seq<nat>>, failed: bool, end: nat)
    requires Ordered(files0, ch0) && Ordered(files, ch) && bs > 0 && Placed(h, files0) && f in h && f.mode != F_READ
    requires OneSlot(files0, ch0, files, ch, f.slot) && Live(Entry(files0[0], f.slot))
    requires forall g: File :: g in h && g != f ==> g.slot != f.slot
    requires !failed ==> SizeOf(Entry(files[0], f.slot)) == Max(SizeOf(Entry(files0[0], f.slot)), end)
    requires !failed ==> |ch[f.slot + 1]| == Max(|ch0[f.slot + 1]|, CeilDiv(end, bs))
    ensures Keeps(nm, false, failed, bs, h, files0, ch0, h, files, ch)
  {
    hide Entry, Slots, Content, Catalog, EntriesOK, EndsOnce, UniqueNames, Tight, NameOf, Listed, ContentOf, PutFile,
        SizeOf, CeilDiv, PermOf;
    if Listed(Entry(files0[0], f.slot)) { CatalogHas(files0, f.slot); }
    var k := f.slot;
    var e := Entry(files[0], k);
    SameMark(Entry(files0[0], k), e);
    PutStable(h, h, files0, k, e, files[k + 1]);
    if Quiet(nm, h, files0) {
      assert !Named(files0, k, nm);
      PutQuiet(nm, h, files0, k, e, files[k + 1]);
    }
    CatalogWritten(files0, ch0, files, ch, k);
    if !failed && Tight(files0, ch0, bs) { TightWritten(files0, ch0, files, ch, k, bs, end); }
  }

  lemma SameMark(e0: entry, e: entry)
    requires Mark(e) == Mark(e0)
    ensures Listed(e) == Listed(e0)
  {}

  // ---- from the state machine to what it means ----

  /** `Keeps`, from state to state. */
  ghost predicate Kept(nm: cstring, touched: bool, failed: bool, s: Snap, s': Snap) {
    && Ordered(s.files, s.ch) && Ordered(s'.files, s'.ch) && s.bs > 0
    && Keeps(nm, touched, failed, s.bs, s.h, s.files, s.ch, s'.h, s'.files, s'.ch)
  }

  lemma InOrderFacts(s: Snap)
    requires InOrder(s)
    ensures Proper(s) && Ordered(s.files, s.ch) && Placed(s.h, s.files) && s.bs > 0 && NoNull(s.h)
            && UniqueNames(s.files[0])
    ensures forall i :: 0 <= i < |s.h| ==> Live(Entry(s.files[0], s.h[i].slot))
  {
    hide Rep, EntriesOK, EndsOnce, UniqueNames, Entry, Slots, Live, EntryAddr;
    forall f: File | f in s.h
      ensures f.slot < Slots(s.files[0])
    {
      var i :| 0 <= i < |s.h| && s.h[i] == f;
    }
  }

  lemma SameKept(nm: cstring, touched: bool, failed: bool, s: Snap, s': Snap)
    requires InOrder(s) && InOrder(s') && SameFiles(s, s') && forall f :: f in s'.h ==> f in s.h
    ensures Kept(nm, touched, failed, s, s') && Catalog(s'.files) == Catalog(s.files)
  {
    hide InOrder, Entry, Slots, DirOK, Keeps, Placed, Catalog;
    InOrderFacts(s);
    NothingChanged(nm, touched, failed, s.bs, s.h, s'.h, s.files, s.ch);
  }

  /** A writer is alone on its entry, wherever in the table it is. */
  lemma AloneThere(s: Snap, i: nat)
    requires InOrder(s) && i < |s.h| && s.h[i].mode != F_READ
    ensures forall g: File :: g in s.h && g != s.h[i] ==> g.slot != s.h[i].slot
  {
    hide Rep, DirOK, Entry, Slots, EntryAddr, PointsAt;
    forall g: File | g in s.h && g != s.h[i]
      ensures g.slot != s.h[i].slot
    {
      var j :| 0 <= j < |s.h| && s.h[j] == g;
      assert if i < j then Compatible(s.h[i], s.h[j]) else Compatible(s.h[j], s.h[i]);
    }
  }

  lemma OpenKeeps(nm: cstring, name: cstring, mode: Mode, s: Snap, s': Snap, o: Outcome)
    requires InOrder(s) && InOrder(s') && Permitted(Open(name, mode), s) && Opens(name, mode, s, s', o)
    ensures Kept(nm, mode != F_READ && name == nm, false, s, s')
    ensures Effect(Open(name, mode), s, s', o)
  {
    hide InOrder, Entry, Slots, DirOK, Keeps, Placed, Catalog, FindSlot, Opened, Tight, Content, Live, Listed, NameOf,
        SizeOf, FirstUnused, MadeFiles, ChainsKept, Emptied, PutFile, ValidName, Reach, May, Assign, Held, FindsDead,
        Locked;
    InOrderFacts(s);
    InOrderFacts(s');
    InOrderSize(s);
    if FindSlot(s.files[0], name, 0) != -1 { LockedIff(s.h, FindSlot(s.files[0], name, 0), mode); }
    if o.result == -1 { SameKept(nm, mode != F_READ && name == nm, false, s, s'); return; }
    var f: File := s'.h[|s.h|];
    var k := FindSlot(s.files[0], name, 0);
    if k == -1 {
      OpenedNew(s.files, s.ch, s.free, s'.files, s'.ch, s'.free, s.bs, name);
    } else {
      OpenedFound(s.files, s.ch, s.free, s.bs, name, Empties(s.files, name, mode));
    }
    if mode != F_READ { LastAlone(s, s', f); }
    assert s'.h == s.h + [f];
    OpenedHeld(s.files, s'.files, name, f.slot);
    AfterOpen(nm, name, s.bs, s.h, s.files, s.ch, f, s'.files, s'.ch);
  }

  lemma OpenedHeld(files0: seq<seq<byte>>, files: seq<seq<byte>>, name: cstring, k: nat)
    requires Opened(files0, files, name, k)
    ensures Files(files) && k < Slots(files[0]) && FindSlot(files[0], name, 0) == k
    ensures Held(files, name) == Content(files, k)
  {
    hide Entry, Slots, FindSlot, Content, Catalog;
  }

  lemma InOrderSize(s: Snap)
    requires InOrder(s)
    ensures s.bs >= ENTRY_SIZE && s.bs % ENTRY_SIZE == 0
  {
    hide Rep, DirOK, TableOK, Entry, Slots;
  }

  lemma LastAlone(s: Snap, s': Snap, f: File)
    requires InOrder(s') && s'.h == s.h + [f] && f !in s.h && f.mode != F_READ
    ensures forall g: File :: g in s.h ==> g.slot != f.slot
  {
    hide InOrder;
    InOrderFacts(s');
    assert s'.h[|s.h|] == f;
    AloneThere(s', |s.h|);
    forall g: File | g in s.h
      ensures g.slot != f.slot
    {
      assert g in s'.h;
    }
  }

  lemma CloseKeeps(nm: cstring, place: nat, s: Snap, s': Snap, o: Outcome)
    requires InOrder(s) && InOrder(s') && place < |s.h| && Closes(place, s, s', o)
    ensures Kept(nm, false, false, s, s') && Effect(Close(place), s, s', o)
  {
    hide InOrder, Entry, Slots, DirOK, Keeps, Placed, Catalog, CloseCount, PutFile, NameOf, SizeOf, Content;
    InOrderFacts(s);
    InOrderFacts(s');
    RemovedFrom(s, place);
    OthersStay(s, place);
    var f := s.h[place];
    if CloseCount(s.h, place) == 0 && Mark(EntryFor(s, place)) == 2 {
      AfterClose(nm, s.bs, s.h, s'.h, s.files, s.ch, f.slot);
    } else {
      SameKept(nm, false, false, s, s');
    }
  }

  /** The blocks of the directory are apart. */
  lemma RootBlocks(s: Snap)
    requires InOrder(s)
    ensures forall i :: 0 <= i < |s.ch[0]| ==> s.ch[0][i] >= 1
    ensures forall i, i' :: 0 <= i < i' < |s.ch[0]| ==> s.ch[0][i] != s.ch[0][i']
  {
    hide DirOK, TableOK, Entry, Slots, FreeSet, Represents;
    assert Chained(s.fat, s.ch[0]);
  }

  /** What is left of the table after a close; and nothing on that slot, when the close reports zero. */
  lemma RemovedFrom(s: Snap, place: nat)
    requires InOrder(s) && place < |s.h|
    ensures forall i :: 0 <= i < |s.h| ==> s.h[i] != null
    ensures forall f: File :: f in SwapRemove(s.h, place) ==> f in s.h
    ensures CloseCount(s.h, place) == 0 ==> forall f: File :: f in SwapRemove(s.h, place) ==> f.slot != s.h[place].slot
  {
    hide Rep, DirOK, Entry, Slots, EntryAddr, PointsAt, CloseCount;
    RootBlocks(s);
    if CloseCount(s.h, place) == 0 { NoneLeft(s.h, place, s.bs, s.ch[0], s.files[0]); }
  }

  /** A handle is in the table once: closing takes it out, and no other. */
  lemma OthersStay(s: Snap, place: nat)
    requires InOrder(s) && place < |s.h|
    ensures forall f: File :: f in SwapRemove(s.h, place) ==> f in s.h && f != s.h[place]
    ensures forall f: File :: f in s.h && f != s.h[place] ==> f in SwapRemove(s.h, place)
  {
    hide Rep, DirOK, Entry, Slots, EntryAddr, PointsAt, Live;
    var h, r := s.h, SwapRemove(s.h, place);
    forall f: File | f in h && f != h[place]
      ensures f in r
    {
      var i :| 0 <= i < |h| && h[i] == f;
      assert r[if i == |h| - 1 then place else i] == f;
    }
    forall f: File | f in r
      ensures f in h && f != h[place]
    {
      var i :| 0 <= i < |r| && r[i] == f;
      assert h[if i == place then |h| - 1 else i] == f;
    }
  }

  lemma WriteKeeps(nm: cstring, place: nat, str: seq<byte>, s: Snap, s': Snap, o: Outcome)
    requires InOrder(s) && InOrder(s') && place < |s.h| && DoesWrite(place, str, s, s', o) && o.made
    requires Permitted(Write(place, str), s)
    ensures Kept(nm, false, Failed(Write(place, str), o), s, s') && Effect(Write(place, str), s, s', o)
  {
    hide InOrder, Entry, Slots, DirOK, Keeps, Placed, Catalog, NameOf, SizeOf, Content, CeilDiv, PermOf, May, Overlay,
        SafeAt;
    InOrderFacts(s);
    InOrderFacts(s');
    assert s.h[place] in s.h;
    var f: File, failed := s.h[place], Failed(Write(place, str), o);
    var k, e := f.slot, EntryFor(s, place);
    if !Writes(s, place, str) {
      SameKept(nm, false, failed, s, s');
      if Listed(e) { CatalogSelf(s.files, k); }
    } else {
      var end := StartOf(s, place) + |str|;
      WriteMeans(s, s', place, str, o);
      if failed && s'.ch[k + 1] != [] { TornMeans(s, s', place, str, o); }
      AloneThere(s, place);
      AfterWrite(nm, s.bs, s.h, f, s.files, s.ch, s'.files, s'.ch, failed, end);
      CatalogWritten(s.files, s.ch, s'.files, s'.ch, k);
    }
  }

  lemma CatalogSelf(files: seq<seq<byte>>, k: nat)
    requires |files| > 0 && |files| == 1 + Slots(files[0]) && UniqueNames(files[0]) && k < Slots(files[0])
             && Listed(Entry(files[0], k))
    ensures Catalog(files) == Catalog(files)[NameOf(Entry(files[0], k)) := Content(files, k)]
  {
    CatalogHas(files, k);
  }

  lemma WriteMeans(s: Snap, s': Snap, place: nat, str: seq<byte>, o: Outcome)
    requires Proper(s) && place < |s.h| && s.h[place] in s'.at && s.bs > 0 && str != []
    requires DidWrite(s.bs, s.files, s.ch, s.free, s'.files, s'.ch, s'.free, s.h[place].slot, StartOf(s, place), str,
                 o.result, s'.at[s.h[place]], o.code)
    ensures var k, size, end := s.h[place].slot, SizeOf(EntryFor(s, place)), StartOf(s, place) + |str|;
            && OneSlot(s.files, s.ch, s'.files, s'.ch, k) && k < Slots(s'.files[0])
               && |s'.files| == |s.files| == |s.ch| == |s'.ch|
            && (o.result == -1 ==> o.code == PETOOFAT)
            && (o.result != -1 ==> SizeOf(Entry(s'.files[0], k)) == Max(size, end))
            && (o.result != -1 ==> |s'.ch[k + 1]| == Max(|s.ch[k + 1]|, CeilDiv(end, s.bs)))
            && (o.result != -1 && size <= |s.files[k + 1]| ==>
                  Content(s'.files, k) == Overlay(Content(s.files, k), StartOf(s, place), str)
                  && s'.at[s.h[place]] == end
                  && (StartOf(s, place) == size ==>
                        Content(s'.files, k) == Content(s.files, k) + str && end == |Content(s'.files, k)|))
            && (size <= |s.files[k + 1]| ==> |Content(s.files, k)| == size)
            && (o.result != -1 <==> end <= s.bs * (|s.ch[k + 1]| + s.free))
            && (o.result == |str| || o.result == -1)
  {
    CeilDivIff(StartOf(s, place) + |str|, s.bs, |s.ch[s.h[place].slot + 1]| + s.free);
    hide Entry, Slots, SizeOf, CeilDiv, PutFile, NameOf, PermOf;
    if o.result != -1 && SizeOf(EntryFor(s, place)) <= |s.files[s.h[place].slot + 1]| {
      WroteAt(s.bs, s.files, s.ch, s.free, s'.files, s'.ch, s'.free, s.h[place].slot, StartOf(s, place), str, o.result,
          s'.at[s.h[place]], o.code);
    }
    hide ContentOf, Overlay;
  }

  lemma CeilDivIff(a: nat, b: nat, n: nat)
    requires b > 0
    ensures CeilDiv(a, b) <= n <==> a <= b * n
  {
    CeilDivBounds(a, b);
    if a <= b * n { CeilDivFits(a, b, n); }
    if CeilDiv(a, b) <= n { MulMono(b, CeilDiv(a, b), n); }
  }

  /** A write that ran out of space: exactly what fitted has been written. */
  lemma TornMeans(s: Snap, s': Snap, place: nat, str: seq<byte>, o: Outcome)
    requires InOrder(s) && InOrder(s') && place < |s.h| && DoesWrite(place, str, s, s', o) && Writes(s, place, str)
    requires o.result == -1 && s.h[place].slot < Slots(s'.files[0]) && s'.ch[s.h[place].slot + 1] != []
    ensures SizeOf(EntryFor(s, place)) <= |s.files[s.h[place].slot + 1]| ==>
              WroteTorn(s, s', s.h[place].slot, StartOf(s, place), str)
  {
    hide InOrder, Entry, Slots, SizeOf, Content, Torn, Overlay, CeilDiv, DidWrite, May, DirOK, NameOf, EntriesOK,
        EndsOnce, UniqueNames, Live, Mark, PermOf;
    var k := s.h[place].slot;
    InOrderFacts(s);
    InOrderFacts(s');
    BytesOf(s', k + 1);
    if SizeOf(EntryFor(s, place)) <= |s.files[k + 1]| {
      WriteTorn(s.bs, s.files, s.ch, s.free, s'.files, s'.ch, s'.free, k, StartOf(s, place), str, s'.at[s.h[place]],
          o.code);
    }
  }

  /** A chain holds a block's worth of bytes for each of its blocks. */
  lemma BytesOf(s: Snap, j: nat)
    requires InOrder(s) && j < |s.ch|
    ensures |s.files[j]| == s.bs * |s.ch[j]| && (s.ch[j] != [] ==> s.files[j] != [])
    ensures HasBlocks(s.data, s.bs, s.ch[j]) && s.files[j] == Gather(s.data, s.bs, s.ch[j])
  {
    hide Rep, DirOK, TableOK, Entry, Slots, FreeSet, HasBlocks, Gather;
    RepChain(s.bs, s.fat, s.data, s.ch, s.files, j);
    GatherSize(s.data, s.bs, s.ch[j]);
    if s.ch[j] != [] { MulMono(s.bs, 1, |s.ch[j]|); }
  }

  /** Every block is free or in exactly one chain. */
  lemma AllBlocks(s: Snap)
    requires InOrder(s)
    ensures Distinct(s.ch) && s.free + Total(s.ch) == Limit(s.fat) - 1 && |s.data| == s.bs * (s.free + Total(s.ch))
    ensures forall j :: 0 <= j < |s.ch| ==> |s.files[j]| <= 4096 * 0xFFFE
  {
    hide Rep, DirOK, TableOK, Entry, Slots, Distinct, FreeSet, Total;
    RepTotals(s.bs, s.fat, s.data, s.ch, s.files);
    forall j | 0 <= j < |s.ch|
      ensures |s.files[j]| <= 4096 * 0xFFFE
    {
      BytesOf(s, j);
      PartOfTotal(s.ch, j);
      MulMono(s.bs, |s.ch[j]|, 0xFFFE);
    }
  }

  lemma RepTotals(bs: nat, fat: seq<u16>, data: seq<byte>, ch: seq<seq<nat>>, files: seq<seq<byte>>)
    requires Rep(bs, fat, data, ch, files)
    ensures Distinct(ch) && |FreeSet(fat)| + Total(ch) == Limit(fat) - 1 && |data| == bs * (Limit(fat) - 1)
    ensures bs <= 4096
  {
    assert Distinct(ch);
    hide WellFormed, Represents, Distinct, FreeSet, Total;
    Conservation(fat, ch);
  }

  /** The chains and the header say what is in the table: the next state of a call leaves no other. */
  lemma TableDetermined(s: Snap, s': Snap)
    requires InOrder(s) && InOrder(s') && SameHeader(s, s') && s'.ch == s.ch
    ensures s'.fat == s.fat && s'.free == s.free
  {
    hide DirOK, TableOK, Entry, Slots, FreeSet;
    ChainsDetermineTable(s.fat, s'.fat, s.ch);
  }

  lemma NamedIff(files: seq<seq<byte>>, ch: seq<seq<nat>>, name: cstring)
    requires Ordered(files, ch)
    ensures ValidName(name) ==> (name in Catalog(files) <==> FindSlot(files[0], name, 0) != -1)
  {
    hide EntriesOK, EndsOnce, UniqueNames, Entry, Slots, FindSlot, Catalog, Content, ValidName;
    FoundIsInCatalog(files, ch, name);
    if ValidName(name) { ValidNotGhostly(name); }
  }

  lemma UnlinkKeeps(nm: cstring, name: cstring, s: Snap, s': Snap, o: Outcome)
    requires InOrder(s) && InOrder(s') && Permitted(Unlink(name), s) && Unlinks(name, s, s', o)
    ensures Kept(nm, name == nm, false, s, s') && Effect(Unlink(name), s, s', o)
  {
    hide InOrder, Entry, Slots, DirOK, Keeps, Placed, Catalog, FindSlot, FindsStale, UnlinkFiles, UnlinkChains,
        UnlinkFrees, Busy, Live;
    InOrderFacts(s);
    var k := FindSlot(s.files[0], name, 0);
    NamedIff(s.files, s.ch, name);
    BusyThere(s, name);
    AfterUnlink(nm, name, s.bs, s.h, s.files, s.ch, Busy(s.h, s.files[0], k));
  }

  lemma BusyThere(s: Snap, name: cstring)
    requires InOrder(s)
    ensures var k := FindSlot(s.files[0], name, 0);
            && (Busy(s.h, s.files[0], k) || forall f: File :: f in s.h ==> f.slot != k)
            && (Busy(s.h, s.files[0], k) ==> k != -1 && Live(Entry(s.files[0], k)))
            && (ValidName(name) ==> (Busy(s.h, s.files[0], k) <==> OpenOn(s.h, k)))
  {
    hide Rep, DirOK, Entry, Slots, FindSlot, NameOf, ValidName, PointsAt;
    var k := FindSlot(s.files[0], name, 0);
    RootBlocks(s);
    if k == -1 {
      NotBusy(s.h, s.files[0]);
    } else {
      FoundEntry(s.files[0], s.ch, name);
      if ValidName(name) { ValidNotGhostly(name); }
      BusyIs(s.h, s.bs, s.ch[0], s.files[0], s.ch, k);
    }
  }

  lemma RenameKeeps(nm: cstring, oldname: cstring, newname: cstring, s: Snap, s': Snap, o: Outcome)
    requires InOrder(s) && InOrder(s') && Permitted(Rename(oldname, newname), s) && Renames(oldname, newname, s, s', o)
    ensures Kept(nm, oldname == nm || newname == nm, false, s, s') && Effect(Rename(oldname, newname), s, s', o)
  {
    hide InOrder, Entry, Slots, DirOK, Keeps, Placed, Catalog, FindSlot, FindsStale, UnlinkFiles, UnlinkChains,
        UnlinkFrees, Busy, Live, ValidName, RenameFiles, Held, OpenOn;
    InOrderFacts(s);
    var k, t := FindSlot(s.files[0], oldname, 0), FindSlot(s.files[0], newname, 0);
    NamedIff(s.files, s.ch, oldname);
    if k == -1 || !ValidName(newname) {
      SameKept(nm, oldname == nm || newname == nm, false, s, s');
    } else {
      BusyThere(s, newname);
      ValidNotGhostly(newname);
      InOrderFacts(s');
      AfterRename(nm, oldname, newname, s.bs, s.h, s.files, s.ch, OpenOn(s.h, t));
    }
  }

  /**
   * What every permitted call keeps and what it means: a reader sees the same content, a name the call does not
   * touch and nobody writes to stands for the same content, block counts stay exact unless a write ran out of space;
   * and the names change as `Effect` says.
   */
  lemma StepKeeps(c: Call, s: Snap, s': Snap, o: Outcome, nm: cstring)
    requires InOrder(s) && InOrder(s') && Stepped(c, s, s', o)
    ensures Kept(nm, Touches(c, nm), Failed(c, o), s, s')
    ensures o.made ==> Effect(c, s, s', o)
  {
    hide InOrder, Entry, Slots, DirOK, Keeps, Placed, Catalog, Effect, Opens, Closes, DoesWrite, Unlinks, Renames,
        FindsDead, FindsStale, SafeAt, HarmlessSelf, Writes;
    InOrderFacts(s);
    if !o.made {
      SameKept(nm, Touches(c, nm), false, s, s');
    } else {
      match c
      case Open(name, mode) => OpenKeeps(nm, name, mode, s, s', o);
      case Close(place) => CloseKeeps(nm, place, s, s', o);
      case Write(place, str) => WriteKeeps(nm, place, str, s, s', o);
      case Unlink(name) => UnlinkKeeps(nm, name, s, s', o);
      case Rename(oldname, newname) => RenameKeeps(nm, oldname, newname, s, s', o);
      case Read(place, len) => ReadKeeps(nm, c, s, s', o);
      case Seek(place, offset, whence) => ReadKeeps(nm, c, s, s', o);
    }
  }

  lemma ReadKeeps(nm: cstring, c: Call, s: Snap, s': Snap, o: Outcome)
    requires InOrder(s) && InOrder(s') && (c.Read? || c.Seek?) && Permitted(c, s) && Next(c, s, s', o)
    ensures Kept(nm, false, false, s, s') && Effect(c, s, s', o)
  {
    hide InOrder, Entry, Slots, DirOK, Keeps, Placed, Catalog, Delivery, May, SizeOf, ReadEffect, SeekEffect, Reads,
        Seeks;
    InOrderFacts(s);
    InOrderFacts(s');
    if c.Read? { ReadMeans(s, s', c.place, c.len, o); } else { SeekMeans(s, s', c.place, c.offset, c.whence, o); }
    SameKept(nm, false, false, s, s');
  }

  lemma ReadMeans(s: Snap, s': Snap, place: nat, len: u32, o: Outcome)
    requires Proper(s) && Proper(s') && place < |s.h| && Reads(place, len, s, s', o)
    ensures SameFiles(s, s') && s'.h == s.h && ReadEffect(s, s', place, len, o)
  {
    hide Entry, Slots, SizeOf, May, ContentOf;
  }

  lemma SeekMeans(s: Snap, s': Snap, place: nat, offset: int, whence: int, o: Outcome)
    requires Proper(s) && Proper(s') && place < |s.h| && Seeks(place, offset, whence, s, s', o)
    ensures SameFiles(s, s') && s'.h == s.h && SeekEffect(s, s', place, offset, whence, o)
  {
    hide Entry, Slots, SizeOf;
  }

  /**
   * A read is the slice of the content that was asked for: when offset and length stay below 2^32, or the offset is
   * past the end; and otherwise when there is nothing to clip, or the blocks happen to lie so that it does not matter.
   */
  ghost predicate ReadsRight(s: Snap, place: nat, len: u32)
    requires Proper(s) && place < |s.h|
  {
    var k, off, size := s.h[place].slot, s.at[s.h[place]], SizeOf(EntryFor(s, place));
    var b, c := s.files[k + 1], s.ch[k + 1];
    || off > size || (off as int) + (len as int) < 0x1_0000_0000
    || if off % s.bs + len < 0x1_0000_0000 then off as int >= |b| || size as int >= |b|
       else off / s.bs >= |c| || RunsOut(s.data, s.bs, c, Min(size, |b|), off / s.bs, s.free + Total(s.ch))
  }

  lemma ReadsRightIff(s: Snap, place: nat, len: u32)
    requires InOrder(s) && place < |s.h|
    ensures s.h[place].slot < Slots(s.files[0])
    ensures Delivery(s, place, len) == Got(Content(s.files, s.h[place].slot), s.at[s.h[place]], len) <==>
            ReadsRight(s, place, len)
  {
    hide InOrder, Entry, Slots, SizeOf, Got, FetchedFrom, RunsOut, DirOK, Gather, Total;
    InOrderFacts(s);
    var k, off, size := s.h[place].slot, s.at[s.h[place]], SizeOf(EntryFor(s, place));
    if off <= size && (off as int) + (len as int) >= 0x1_0000_0000 {
      AllBlocks(s);
      BytesOf(s, k + 1);
      WrappedRead(s.data, s.bs, s.ch[k + 1], s.files[k + 1], size, off, len, s.free + Total(s.ch));
    }
  }

  // ---- ordinary calls ----

  /**
   * No call is left out that a program would ordinarily make: any read, seek or close through a handle, any unlink of
   * a name a file can have, any rename from one such name to another; and, with at most 0xFFFF cells or a block to
   * spare, any open of such a name, any text appended, and any other text written at or before the end.
   */
  ghost predicate Ordinary(c: Call, s: Snap)
    requires Proper(s)
  {
    match c
    case Read(place, len) => place < |s.h|
    case Seek(place, offset, whence) => place < |s.h| && -0x8000_0000 <= offset < 0x8000_0000
    case Close(place) => place < |s.h|
    case Unlink(name) => ValidName(name)
    case Rename(oldname, newname) => ValidName(oldname) && ValidName(newname) && oldname != newname
    case Open(name, mode) => ValidName(name) && (|s.fat| <= 0xFFFF || s.free > 0)
    case Write(place, str) =>
      && place < |s.h| && |str| < 0x8000_0000
      && (s.h[place].mode == F_APPEND || s.at[s.h[place]] <= SizeOf(EntryFor(s, place)))
      && (|s.fat| <= 0xFFFF || SizeOf(EntryFor(s,
             place)) as int + |str| <= s.bs * (|s.ch[s.h[place].slot + 1]| + s.free))
  }

  lemma OrdinaryMade(c: Call, s: Snap, s': Snap, o: Outcome)
    requires InOrder(s) && Stepped(c, s, s', o) && Ordinary(c, s)
    ensures o.made
  {
    hide InOrder, Entry, Slots, SizeOf, FindsDead, FindsStale, AsksOutside, FindSlot, FirstUnused, CeilDiv, ValidName,
        Next, May;
    InOrderFacts(s);
    match c {
      case Open(name, mode) => NotDead(s.files[0], name);
      case Unlink(name) => NotDead(s.files[0], name);
      case Rename(oldname, newname) => NotDead(s.files[0], oldname);
      case Write(place, str) => OrdinaryWrite(s, place, |str|);
      case _ =>
    }
  }

  lemma OrdinaryWrite(s: Snap, place: nat, len: nat)
    requires InOrder(s) && place < |s.h| && len < 0x8000_0000 && StartOf(s, place) <= SizeOf(EntryFor(s, place))
    requires |s.fat| <= 0xFFFF
             || SizeOf(EntryFor(s, place)) as int + len <= s.bs * (|s.ch[s.h[place].slot + 1]| + s.free)
    ensures SafeAt(s, place, len)
  {
    hide InOrder, Entry, Slots, SizeOf, AsksOutside, CeilDiv, DirOK;
    InOrderFacts(s);
    BlockSizeOf(s);
    var n, start, size := |s.ch[s.h[place].slot + 1]|, StartOf(s, place), SizeOf(EntryFor(s, place));
    AsksOutsideIff(s.bs, Max(1, n), size, start);
    if |s.fat| > 0xFFFF { CeilDivFits(start + len, s.bs, n + s.free); }
  }

  lemma BlockSizeOf(s: Snap)
    requires InOrder(s)
    ensures 64 <= s.bs <= 4096
  {
    hide DirOK, TableOK, Entry, Slots, FreeSet, WellFormed, Represents;
  }
}
