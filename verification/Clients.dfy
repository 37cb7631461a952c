/** Programs over the filesystem: copying a file, concatenating files into one. */
module Clients {
  import opened Bytes
  import opened Contents
  import opened Directory
  import opened Errno
  import opened Fat
  import opened FileSystems
  import opened Meaning
  import opened OpenTable
  import opened Volumes

  const BUFFER_SIZE := 4096

  /** The content of a handle's file. */
  ghost function ContentAt(fs: FileSystem, f: File): seq<byte>
    requires fs.Valid() && f.slot < Slots(fs.Dir())
    reads fs, fs.vol, fs.vol.fat, fs.vol.data, fs.openFiles
  {
    Content(fs.vol.files, f.slot)
  }

  /** A handle through which one can add to the end of a file whose size is right, if one may write at all. */
  ghost predicate AtEnd(fs: FileSystem, f: File)
    requires fs.Valid() && f.slot < Slots(fs.Dir())
    reads fs, fs.vol, fs.vol.fat, fs.vol.data, fs.openFiles, f
  {
    && f.mode != F_READ
    && (May(Entry(fs.Dir(), f.slot), PERM_WRITE) ==>
          fs.WriteStart(f) == SizeOf(Entry(fs.Dir(), f.slot)) <= |fs.vol.files[f.slot + 1]|)
  }

  /** There is room for the file of `f` to grow to `len` bytes, as far as that matters. */
  ghost predicate RoomFor(fs: FileSystem, f: File, len: nat)
    requires fs.Valid() && f.slot < Slots(fs.Dir())
    reads fs, fs.vol, fs.vol.fat, fs.vol.data, fs.openFiles
  {
    May(Entry(fs.Dir(), f.slot), PERM_WRITE) ==> fs.vol.Roomy(CeilDiv(len, fs.vol.blockSize) - |fs.vol.ch[f.slot + 1]|)
  }

  /** The blocks the file of `f` has or could still get suffice for `len` bytes. */
  ghost predicate Enough(fs: FileSystem, f: File, len: nat)
    requires fs.Valid() && f.slot < Slots(fs.Dir())
    reads fs, fs.vol, fs.vol.fat, fs.vol.data, fs.openFiles
  {
    CeilDiv(len, fs.vol.blockSize) <= fs.vol.Free() + |fs.vol.ch[f.slot + 1]|
  }

  ghost predicate MayAt(fs: FileSystem, f: File, bit: nat)
    requires fs.Valid() && f.slot < Slots(fs.Dir()) && bit > 0
    reads fs, fs.vol, fs.vol.fat, fs.vol.data, fs.openFiles
  {
    May(Entry(fs.Dir(), f.slot), bit)
  }

  /** A write of `str` at the end of a file of the right size appends it. */
  lemma Appended(e0: entry, b0: seq<byte>, e: entry, b: seq<byte>, str: seq<byte>)
    requires SizeOf(e0) <= |b0| && WriteEffect(e0, b0, e, b, SizeOf(e0), str, |str|)
    ensures ContentOf(e, b) == ContentOf(e0, b0) + str && SizeOf(e) == SizeOf(e0) + |str| <= |b|
  {
    assert Overlay(ContentOf(e0, b0), SizeOf(e0), str) == ContentOf(e0, b0) + str;
    assert |ContentOf(e, b)| == SizeOf(e0) + |str|;
  }

  lemma ReadPiece(b0: seq<byte>, b: seq<byte>, g: seq<byte>)
    requires |g| <= |b0| && b == Splice(b0, 0, g)
    ensures b[..|g|] == g
  {}

  lemma NextPiece(c: seq<byte>, off: nat, n: nat)
    requires off <= |c| && n > 0
    ensures off + |Got(c, off, n)| <= |c| && c[..off] + Got(c, off, n) == c[..off + |Got(c, off, n)|]
    ensures Got(c, off, n) == [] ==> off == |c|
  {}

  /** The handles of a copy: the file read and the file written, and what they hold. */
  ghost predicate Copying(fs: FileSystem, src: File, dest: File, isrc: nat, idest: nat)
    reads fs, fs.vol, fs.vol.fat, fs.vol.data, fs.openFiles
  {
    && fs.Valid() && fs.Tracked(src, isrc) && fs.Tracked(dest, idest) && src != dest && src.slot != dest.slot
    && 0 < |fs.vol.files| == |fs.vol.ch| && |fs.vol.files| == 1 + Slots(fs.vol.files[0]) && fs.vol.blockSize > 0
  }

  /** One turn of the loop of cp and cat: read a chunk, write it. */
  method CopyChunk(fs: FileSystem, src: File, dest: File, buf: array<byte>, ghost isrc: nat,
      ghost idest: nat) returns (r: int, w: int)
    requires Copying(fs, src, dest, isrc, idest) && AtEnd(fs, dest) && src.offset <= |ContentAt(fs, src)|
    requires RoomFor(fs, dest, |ContentAt(fs, dest)| + |ContentAt(fs, src)| - src.offset)
    requires buf.Length == BUFFER_SIZE && buf != fs.vol.data && buf as object != fs.vol.fat
             && buf as object != fs.openFiles
    modifies src, dest, buf, fs.vol`errno, fs.vol`files, fs.vol`ch, fs.vol.fat, fs.vol.data
    ensures Copying(fs, src, dest, isrc, idest)
    ensures OneSlot(old(fs.vol.files), old(fs.vol.ch), fs.vol.files, fs.vol.ch, dest.slot)
    ensures fs.vol.Free() + |fs.vol.ch[dest.slot + 1]| == old(fs.vol.Free() + |fs.vol.ch[dest.slot + 1]|)
    ensures r == -1 <==> !old(MayAt(fs, src, PERM_READ))
    ensures var piece := Got(old(ContentAt(fs, src)), old(src.offset), BUFFER_SIZE);
            r != -1 ==>
              && r == |piece| && src.offset == old(src.offset) + r
              && (w == r <==>
                    old(MayAt(fs, dest, PERM_WRITE)) && old(Enough(fs, dest, |ContentAt(fs, dest)| + |piece|)))
              && (w == r ==> AtEnd(fs, dest) && ContentAt(fs, dest) == old(ContentAt(fs, dest)) + piece)
  {
    hide FileSystem.Base, FileSystem.Valid, OneSlot, Entry, Slots, CeilDiv, SizeOf, May, ContentOf, Splice, Enough,
        FileSystem.Delivered;
    ghost var c, off := ContentAt(fs, src), src.offset;
    OneSlotRefl(fs.vol.files, fs.vol.ch, dest.slot);
    Bounded(fs, src, isrc);
    NextPiece(c, off, BUFFER_SIZE);
    w := -1;
    PlainRead(fs, src, BUFFER_SIZE);
    r := fs.Read(src, BUFFER_SIZE, buf, isrc);
    if r == -1 { return; }
    hide Got;
    ReadPiece(old(buf[..]), buf[..], Got(c, off, BUFFER_SIZE));
    w := WriteChunk(fs, src, dest, buf[..r], |c| - off, isrc, idest);
  }

  /** The second half of the turn. `rest` is how much there still was to copy. */
  method WriteChunk(fs: FileSystem, src: File, dest: File, piece: seq<byte>, ghost rest: nat, ghost isrc: nat,
      ghost idest: nat) returns (w: int)
    requires Copying(fs, src, dest, isrc, idest) && AtEnd(fs, dest)
    requires RoomFor(fs, dest, |ContentAt(fs, dest)| + rest) && |piece| <= rest && |piece| <= BUFFER_SIZE
    modifies dest, fs.vol`errno, fs.vol`files, fs.vol`ch, fs.vol.fat, fs.vol.data
    ensures Copying(fs, src, dest, isrc, idest)
    ensures OneSlot(old(fs.vol.files), old(fs.vol.ch), fs.vol.files, fs.vol.ch, dest.slot)
    ensures fs.vol.Free() + |fs.vol.ch[dest.slot + 1]| == old(fs.vol.Free() + |fs.vol.ch[dest.slot + 1]|)
    ensures w == |piece| <==> old(MayAt(fs, dest, PERM_WRITE)) && old(Enough(fs, dest, |ContentAt(fs, dest)| + |piece|))
    ensures w == |piece| ==> AtEnd(fs, dest) && ContentAt(fs, dest) == old(ContentAt(fs, dest)) + piece
  {
    hide FileSystem.Base, FileSystem.Valid, OneSlot, Entry, Slots, CeilDiv, SizeOf, May, ContentOf,
        FileSystem.SafeWrite, FileSystem.Written, RoomFor, Enough, FreeSet, PermOf, NameOf, Mark;
    ghost var kd, f0, c0, free0 := dest.slot, fs.vol.files, fs.vol.ch, fs.vol.Free();
    OneSlotRefl(f0, c0, kd);
    EnoughSoFar(fs, dest, idest, piece);
    if May(Entry(fs.Dir(), kd), PERM_WRITE) { PieceSafe(fs, dest, idest, rest, |piece|); }
    w := fs.Write(dest, piece, idest);
    Shaped(fs);
    if piece != [] && May(Entry(f0[0], kd), PERM_WRITE) {
      WrittenParts(fs, dest, f0, c0, free0, SizeOf(Entry(f0[0], kd)), piece, w);
      if w == |piece| { WrittenAppends(fs, dest, f0, c0, free0, piece); }
    } else {
      assert OneSlot(f0, c0, fs.vol.files, fs.vol.ch, kd);
    }
    OneSlotKeeps(f0, c0, fs.vol.files, fs.vol.ch, kd);
    if piece == [] { assert ContentAt(fs, dest) + piece == ContentAt(fs, dest); }
  }

  /** At the end of a file, what the write asks for is what the content needs; for nothing, nothing. */
  lemma EnoughSoFar(fs: FileSystem, f: File, idx: nat, piece: seq<byte>)
    requires fs.Valid() && fs.Tracked(f, idx) && AtEnd(fs, f)
    ensures May(Entry(fs.Dir(), f.slot), PERM_WRITE) ==>
              && (piece == [] ==> Enough(fs, f, |ContentAt(fs, f)| + |piece|))
              && fs.vol.blockSize > 0 && f.slot + 1 < |fs.vol.ch|
              && (Enough(fs, f, |ContentAt(fs, f)| + |piece|) <==>
                  CeilDiv(SizeOf(Entry(fs.Dir(), f.slot)) + |piece|, fs.vol.blockSize) <= |fs.vol.ch[f.slot + 1]|
                    + fs.vol.Free())
  {
    hide FileSystem.Base, DirOK, TableOK, Entry, Slots, SizeOf, CeilDiv, May;
    fs.TrackedFacts(f, idx);
    if May(Entry(fs.Dir(), f.slot), PERM_WRITE) {
      CeilDivFits(|ContentAt(fs, f)|, fs.vol.blockSize, |fs.vol.ch[f.slot + 1]|);
    }
  }

  lemma CeilDivFits(a: nat, b: nat, n: nat)
    requires b > 0 && a <= b * n
    ensures CeilDiv(a, b) <= n
  {
    CeilDivBounds(a, b);
    if CeilDiv(a, b) > n { MulMono(b, n, CeilDiv(a, b) - 1); }
  }

  lemma WrittenParts(fs: FileSystem, f: File, files0: seq<seq<byte>>, ch0: seq<seq<nat>>, free0: nat, off: nat,
      str: seq<byte>, r: int)
    requires fs.Valid() && fs.Written(files0, ch0, free0, off, f, str, r)
    ensures OneSlot(files0, ch0, fs.vol.files, fs.vol.ch, f.slot) && (r == |str| || r == -1)
    ensures fs.vol.Free() + |fs.vol.ch[f.slot + 1]| == free0 + |ch0[f.slot + 1]| && fs.vol.blockSize > 0
    ensures r != -1 <==> CeilDiv(off + |str|, fs.vol.blockSize) <= |ch0[f.slot + 1]| + free0
  {
    hide FileSystem.Base, DirOK, TableOK, OneSlot, Entry, Slots, WriteEffect, CeilDiv, SizeOf;
  }

  /** A write at the end has appended, and the handle is at the end again. */
  lemma WrittenAppends(fs: FileSystem, f: File, files0: seq<seq<byte>>, ch0: seq<seq<nat>>, free0: nat, str: seq<byte>)
    requires 0 < |files0| && |files0| == 1 + Slots(files0[0]) && f.slot < Slots(files0[0])
    requires SizeOf(Entry(files0[0], f.slot)) <= |files0[f.slot + 1]| && f.mode != F_READ
    requires fs.Valid() && fs.Written(files0, ch0, free0, SizeOf(Entry(files0[0], f.slot)), f, str, |str|)
    ensures f.slot < Slots(fs.Dir()) && AtEnd(fs, f) && ContentAt(fs, f) == Content(files0, f.slot) + str
  {
    hide FileSystem.Base, DirOK, TableOK, Entry, Slots, WriteEffect, CeilDiv, SizeOf, ContentOf, PutEntry, NameOf,
        PermOf, May;
    var k := f.slot;
    Appended(Entry(files0[0], k), files0[k + 1], Entry(fs.Dir(), k), fs.vol.files[k + 1], str);
  }

  /** Where a write of `str` went, a read of that many bytes finds `str`. */
  lemma WrittenReads(fs: FileSystem, f: File, files0: seq<seq<byte>>, ch0: seq<seq<nat>>, free0: nat, off: nat,
      str: seq<byte>)
    requires 0 < |files0| && |files0| == 1 + Slots(files0[0]) && f.slot < Slots(files0[0])
    requires SizeOf(Entry(files0[0], f.slot)) <= |files0[f.slot + 1]|
    requires fs.Valid() && fs.Written(files0, ch0, free0, off, f, str, |str|)
    ensures f.slot < Slots(fs.Dir()) && Got(ContentAt(fs, f), off, |str|) == str
    ensures PermOf(Entry(fs.Dir(), f.slot)) == PermOf(Entry(files0[0], f.slot))
  {
    hide FileSystem.Base, DirOK, TableOK, Entry, Slots, CeilDiv, SizeOf, PutEntry, NameOf, PermOf;
    var c0, c := Content(files0, f.slot), ContentAt(fs, f);
    assert c == Overlay(c0, off, str);
    assert c[off..off + |str|] == str;
  }

  /** A read whose place does not wrap delivers a stretch of the content. */
  lemma PlainRead(fs: FileSystem, f: File, len: u32)
    requires fs.Valid() && f.slot < Slots(fs.Dir()) && f.offset + len < 0x1_0000_0000
    ensures fs.Delivered(f, len) == Got(ContentAt(fs, f), f.offset, len)
  {
    hide FileSystem.Base, DirOK, TableOK, Entry, Slots, SizeOf, Got, Content;
  }

  /** Seek to the start of a file opened to append, and write: the text goes to the end all the same. */
  method SeekThenAppend(fs: FileSystem, f: File, str: seq<byte>, ghost idx: nat) returns (r: int)
    requires fs.Valid() && fs.Tracked(f, idx) && f.mode == F_APPEND && str != []
    requires May(Entry(fs.Dir(), f.slot), PERM_WRITE) ==>
               fs.SafeWrite(f.slot, SizeOf(Entry(fs.Dir(), f.slot)), |str|)
    modifies f, fs.vol`errno, fs.vol`files, fs.vol`ch, fs.vol.fat, fs.vol.data
    ensures fs.Valid() && fs.Tracked(f, idx) && f.slot < Slots(old(fs.Dir()))
    ensures r == |str| && SizeOf(Entry(old(fs.Dir()), f.slot)) <= |old(fs.vol.files[f.slot + 1])| ==>
              ContentAt(fs, f) == old(ContentAt(fs, f)) + str && f.offset == |ContentAt(fs, f)|
  {
    hide FileSystem.Base, FileSystem.Valid, Entry, Slots, SizeOf, Content, FileSystem.SafeWrite, FileSystem.Written,
        FreeSet, May, PermOf;
    Shaped(fs);
    var _ := fs.LSeek(f, 0, F_SEEK_SET, idx);
    r := fs.Write(f, str, idx);
  }

  /** One more reader, where there are only readers. */
  method JoinReaders(fs: FileSystem, name: cstring) returns (f: File?)
    requires fs.Valid() && Files(fs.vol.files) && NoNull(fs.Handles()) && !FindsDead(fs.Dir(), name)
    requires FindSlot(fs.Dir(), name, 0) != -1
    requires forall i :: 0 <= i < |fs.Handles()| && fs.Handles()[i].slot == FindSlot(fs.Dir(), name, 0) ==>
               fs.Handles()[i].mode == F_READ
    modifies fs`openFiles, fs`openedCount, fs.openFiles, fs.vol`errno, fs.vol`files, fs.vol`ch, fs.vol.fat, fs.vol.data
    ensures fs.Valid() && fs.SameVolume() && Files(fs.vol.files) && fs.TableShape() && NoNull(fs.Handles())
    ensures fs.openFiles == old(fs.openFiles) || fresh(fs.openFiles)
    ensures f != null && fresh(f) && fs.Handles() == old(fs.Handles()) + [f] && fs.Tracked(f, |old(fs.Handles())|)
    ensures f.mode == F_READ && f.offset == 0 && f.slot == FindSlot(fs.Dir(), name, 0)
  {
    hide FileSystem.Base, FileSystem.Valid, Entry, Slots, SizeOf, Content, FreeSet, PermOf, FindSlot, FindsDead, Locked,
        CanOpen;
    Shaped(fs);
    ghost var h := fs.Handles();
    f := fs.Open(name, F_READ);
    Shaped(fs);
    fs.NonNull();
    assert fs.Handles()[|h|] == f;
    LastTracked(fs, |h|);
  }

  /** A reader at the start gets the content, as much as was asked for. */
  method ReadFirst(fs: FileSystem, f: File, len: u32, buf: array<byte>, ghost idx: nat) returns (n: int)
    requires fs.Valid() && fs.Tracked(f, idx) && f.offset == 0 && May(Entry(fs.Dir(), f.slot), PERM_READ)
    requires len <= buf.Length && buf != fs.vol.data && buf as object != fs.vol.fat && buf as object != fs.openFiles
    modifies f, fs.vol`errno, buf
    ensures fs.Valid() && fs.Tracked(f, idx) && n == Min(len, |ContentAt(fs, f)|) == f.offset
    ensures buf[..n] == ContentAt(fs, f)[..n]
  {
    hide FileSystem.Base, FileSystem.Valid, Entry, Slots, SizeOf, Content, FreeSet, PermOf, May, FileSystem.Delivered,
        Splice;
    StartsAt(fs, f, len);
    ghost var b0 := buf[..];
    n := fs.Read(f, len, buf, idx);
    ReadPiece(b0, buf[..], ContentAt(fs, f)[..Min(len, |ContentAt(fs, f)|)]);
  }

  /** Open a file twice to read: both handles see it all. */
  method ReadTwice(fs: FileSystem, name: cstring, len: u32, a: array<byte>, b: array<byte>) returns (f: File?, g: File?,
      m: int, n: int)
    requires fs.Valid() && Files(fs.vol.files) && NoNull(fs.Handles()) && !FindsDead(fs.Dir(), name)
    requires FindSlot(fs.Dir(), name, 0) != -1 && MayName(fs.vol.files, name, PERM_READ)
    requires forall i :: 0 <= i < |fs.Handles()| && fs.Handles()[i].slot == FindSlot(fs.Dir(), name, 0) ==>
               fs.Handles()[i].mode == F_READ
    requires len <= a.Length && len <= b.Length && a != b && {a, b} !! {fs.vol.data as object, fs.vol.fat, fs.openFiles}
    modifies fs`openFiles, fs`openedCount, fs.openFiles, fs.vol`errno, fs.vol`files, fs.vol`ch, fs.vol.fat, fs.vol.data,
        a, b
    ensures fs.Valid() && f != null && g != null && f != g && fs.Handles() == old(fs.Handles()) + [f] + [g]
    ensures m == n == Min(len, |old(Held(fs.vol.files, name))|)
    ensures a[..m] == b[..n] == old(Held(fs.vol.files, name))[..m]
  {
    hide FileSystem.Base, FileSystem.Valid, Entry, Slots, SizeOf, Content, FreeSet, PermOf, FindSlot, FindsDead, Locked,
        May;
    Shaped(fs);
    ghost var i := |fs.Handles()|;
    f := JoinReaders(fs, name);
    g := JoinReaders(fs, name);
    assert fs.Handles()[i] == f;
    LastTracked(fs, i);
    m := ReadFirst(fs, f, len, a, i);
    n := ReadFirst(fs, g, len, b, i + 1);
  }

  /** A read from the start of a file. */
  lemma StartsAt(fs: FileSystem, f: File, len: u32)
    requires fs.Valid() && f.slot < Slots(fs.Dir()) && f.offset == 0
    ensures fs.Delivered(f, len) == ContentAt(fs, f)[..Min(len, |ContentAt(fs, f)|)]
  {
    hide FileSystem.Base, DirOK, TableOK, Entry, Slots, SizeOf, Content;
  }

  /** Write, seek back, read: the bytes come back, over however many blocks they went. */
  method WriteSeekRead(fs: FileSystem, f: File, str: seq<byte>, buf: array<byte>, ghost idx: nat) returns (w: int,
      r: int)
    requires fs.Valid() && fs.Tracked(f, idx) && f.mode == F_WRITE && 0 < |str| <= buf.Length
    requires f.offset + |str| < 0x8000_0000 && fs.SafeWrite(f.slot, f.offset, |str|)
    requires May(Entry(fs.Dir(), f.slot), PERM_WRITE) && May(Entry(fs.Dir(), f.slot), PERM_READ)
    requires SizeOf(Entry(fs.Dir(), f.slot)) <= |fs.vol.files[f.slot + 1]|
    requires buf != fs.vol.data && buf as object != fs.vol.fat && buf as object != fs.openFiles
    modifies f, buf, fs.vol`errno, fs.vol`files, fs.vol`ch, fs.vol.fat, fs.vol.data
    ensures fs.Valid()
    ensures w == |str| ==> r == |str| && buf[..|str|] == str
    ensures w != |str| ==> w == -1 == r && fs.vol.Free() == 0
  {
    hide FileSystem.Base, FileSystem.Valid, Entry, Slots, CeilDiv, SizeOf, Content, ContentOf, FileSystem.SafeWrite,
        FileSystem.Written, PermOf, Got, FileSystem.Delivered, FreeSet, Splice, NameOf, Mark;
    ghost var f0, c0, free0 := fs.vol.files, fs.vol.ch, fs.vol.Free();
    var start := f.offset;
    Shaped(fs);
    w := fs.Write(f, str, idx);
    r := -1;
    if w != |str| {
      WrittenFailed(fs, f, f0, c0, free0, start, str, w);
      return;
    }
    WrittenReads(fs, f, f0, c0, free0, start, str);
    var _ := fs.LSeek(f, start, F_SEEK_SET, idx);
    PlainRead(fs, f, |str|);
    r := fs.Read(f, |str|, buf, idx);
    ReadPiece(old(buf[..]), buf[..], str);
  }

  lemma WrittenFailed(fs: FileSystem, f: File, files0: seq<seq<byte>>, ch0: seq<seq<nat>>, free0: nat, off: nat,
      str: seq<byte>, r: int)
    requires fs.Valid() && fs.Written(files0, ch0, free0, off, f, str, r) && r != |str|
    ensures r == -1 && fs.vol.errno == PETOOFAT && fs.vol.Free() == 0
  {
    hide FileSystem.Base, DirOK, TableOK, OneSlot, Entry, Slots, WriteEffect, CeilDiv, SizeOf;
  }

  lemma Shaped(fs: FileSystem)
    requires fs.Valid()
    ensures 0 < |fs.vol.files| == |fs.vol.ch| && |fs.vol.files| == 1 + Slots(fs.vol.files[0])
            && fs.vol.blockSize >= ENTRY_SIZE && fs.vol.blockSize % ENTRY_SIZE == 0
    ensures DirOK(fs.vol.files[0], fs.vol.ch) && fs.TableShape()
  {}

  lemma Bounded(fs: FileSystem, f: File, idx: nat)
    requires fs.Valid() && fs.Tracked(f, idx)
    ensures |ContentAt(fs, f)| <= 4096 * 0xFFFE
  {
    hide FileSystem.Base, DirOK, TableOK, Entry, Slots, SizeOf;
    fs.TrackedFacts(f, idx);
  }

  /** A piece of what is to come may be written at the end, when there is room for all that is to come. */
  lemma PieceSafe(fs: FileSystem, dest: File, idest: nat, rest: nat, n: nat)
    requires fs.Valid() && fs.Tracked(dest, idest) && AtEnd(fs, dest) && n <= rest && n <= BUFFER_SIZE
    requires RoomFor(fs, dest, |ContentAt(fs, dest)| + rest) && May(Entry(fs.Dir(), dest.slot), PERM_WRITE)
    ensures fs.SafeWrite(dest.slot, fs.WriteStart(dest), n)
  {
    hide Rep, DirOK, TableOK, Entry, Slots, SizeOf, CeilDiv;
    CeilDivMono(fs.WriteStart(dest) + n, |ContentAt(fs, dest)| + rest, fs.vol.blockSize);
  }

  /** The loop: until there is nothing more. It gets there exactly when permissions allow it and the blocks suffice. */
  method CopyAll(fs: FileSystem, src: File, dest: File, ghost isrc: nat, ghost idest: nat) returns (ok: bool)
    requires Copying(fs, src, dest, isrc, idest) && AtEnd(fs, dest) && src.offset == 0
    requires RoomFor(fs, dest, |ContentAt(fs, dest)| + |ContentAt(fs, src)|)
    modifies src, dest, fs.vol`errno, fs.vol`files, fs.vol`ch, fs.vol.fat, fs.vol.data
    ensures Copying(fs, src, dest, isrc, idest)
    ensures OneSlot(old(fs.vol.files), old(fs.vol.ch), fs.vol.files, fs.vol.ch, dest.slot)
    ensures fs.vol.Free() + |fs.vol.ch[dest.slot + 1]| == old(fs.vol.Free() + |fs.vol.ch[dest.slot + 1]|)
    ensures ok <==> old(CopyGoes(fs, src, dest))
    ensures ok ==> AtEnd(fs, dest) && ContentAt(fs, dest) == old(ContentAt(fs, dest)) + old(ContentAt(fs, src))
  {
    hide FileSystem.Base, DirOK, TableOK, OneSlot, Entry, Slots, CeilDiv, FileSystem.Valid, ContentOf, SizeOf, May, Got,
        Enough, AtEnd, FreeSet;
    ghost var c, d, kd := ContentAt(fs, src), ContentAt(fs, dest), dest.slot;
    ghost var total := fs.vol.Free() + |fs.vol.ch[kd + 1]|;
    EnoughFrom(fs, dest, 0, |d| + |c|, total);
    var buf := new byte[BUFFER_SIZE];
    OneSlotRefl(fs.vol.files, fs.vol.ch, kd);
    ok := true;
    while true
      invariant Copying(fs, src, dest, isrc, idest) && AtEnd(fs, dest) && src.offset <= |c| && ContentAt(fs, src) == c
      invariant fresh(buf)
      invariant OneSlot(old(fs.vol.files), old(fs.vol.ch), fs.vol.files, fs.vol.ch, kd)
      invariant fs.vol.Free() + |fs.vol.ch[kd + 1]| == total
      invariant ContentAt(fs, dest) == d + c[..src.offset]
      invariant RoomFor(fs, dest, |d| + |c|)
      invariant MayAt(fs, dest, PERM_WRITE) <==> old(MayAt(fs, dest, PERM_WRITE))
      invariant MayAt(fs, src, PERM_READ) <==> old(MayAt(fs, src, PERM_READ))
      decreases |c| - src.offset
    {
      ghost var f1, c1, off := fs.vol.files, fs.vol.ch, src.offset;
      NextPiece(c, off, BUFFER_SIZE);
      EnoughFrom(fs, dest, |d| + off + |Got(c, off, BUFFER_SIZE)|, |d| + |c|, total);
      var r, w := CopyChunk(fs, src, dest, buf, isrc, idest);
      OneSlotTrans(old(fs.vol.files), old(fs.vol.ch), f1, c1, fs.vol.files, fs.vol.ch, kd);
      Turned(fs, src, dest, f1, c1, |d| + |c|);
      if r == -1 || w != r { return false; }
      if r == 0 { break; }
    }
    assert c[..|c|] == c;
  }

  /** A copy from one handle to the other gets to its end. */
  ghost predicate CopyGoes(fs: FileSystem, src: File, dest: File)
    requires fs.Valid() && src.slot < Slots(fs.Dir()) && dest.slot < Slots(fs.Dir())
    reads fs, fs.vol, fs.vol.fat, fs.vol.data, fs.openFiles
  {
    && MayAt(fs, src, PERM_READ) && MayAt(fs, dest, PERM_WRITE)
    && Enough(fs, dest, |ContentAt(fs, dest)| + |ContentAt(fs, src)|)
  }

  lemma EnoughFrom(fs: FileSystem, f: File, len: nat, more: nat, total: nat)
    requires fs.Valid() && f.slot < Slots(fs.Dir()) && len <= more
    requires fs.vol.Free() + |fs.vol.ch[f.slot + 1]| == total
    ensures Enough(fs, f, more) ==> Enough(fs, f, len)
    ensures fs.vol.blockSize > 0 && (Enough(fs, f, more) <==> CeilDiv(more, fs.vol.blockSize) <= total)
  {
    hide FileSystem.Base, DirOK, TableOK, Entry, Slots, CeilDiv;
    CeilDivMono(len, more, fs.vol.blockSize);
  }

  /** What a turn keeps of the other file, and of the room there is. */
  lemma Turned(fs: FileSystem, src: File, dest: File, f1: seq<seq<byte>>, c1: seq<seq<nat>>, len: nat)
    requires fs.Valid() && src.slot < Slots(fs.Dir()) && dest.slot < Slots(fs.Dir()) && src.slot != dest.slot
    requires OneSlot(f1, c1, fs.vol.files, fs.vol.ch, dest.slot)
    ensures ContentAt(fs, src) == Content(f1, src.slot)
            && MayAt(fs, src, PERM_READ) == May(Entry(f1[0], src.slot), PERM_READ)
    ensures MayAt(fs, dest, PERM_WRITE) == May(Entry(f1[0], dest.slot), PERM_WRITE)
  {
    hide FileSystem.Base, DirOK, TableOK, Content, May;
    OthersSame(f1, c1, fs.vol.files, fs.vol.ch, dest.slot, src.slot);
    OneSlotKeeps(f1, c1, fs.vol.files, fs.vol.ch, dest.slot);
  }

  // ---- opening by name ----

  ghost predicate Ordered(files: seq<seq<byte>>, ch: seq<seq<nat>>) {
    Sized(files, ch) && DirOK(files[0], ch)
  }

  /** What `name` finds, if anything, is not recorded longer than its blocks can hold. */
  ghost predicate Sound(files: seq<seq<byte>>, name: cstring)
    requires Files(files)
  {
    var k := FindSlot(files[0], name, 0);
    k != -1 ==> SizeOf(Entry(files[0], k)) <= |files[k + 1]|
  }

  /** How many blocks the file `name` has, or will have when it is opened for writing, or could still get. */
  ghost function Reach(files: seq<seq<byte>>, ch: seq<seq<nat>>, free: nat, name: cstring): int
    requires Sized(files, ch)
  {
    var k := FindSlot(files[0], name, 0);
    if k == -1 then free - DirGrowth(files[0]) else free + |ch[k + 1]|
  }

  lemma ReachBounds(files: seq<seq<byte>>, ch: seq<seq<nat>>, free: nat, name: cstring)
    requires Sized(files, ch)
    ensures Reach(files, ch, free, name) + 1 >= free
  {}

  /** What `name` finds may be accessed; a new file may. */
  ghost predicate MayName(files: seq<seq<byte>>, name: cstring, bit: nat)
    requires Files(files) && bit > 0
  {
    var k := FindSlot(files[0], name, 0);
    k == -1 || May(Entry(files[0], k), bit)
  }

  /** fs_open, seen from outside: which names change, and what can be done with the handle. */
  method OpenNamed(fs: FileSystem, name: cstring, mode: Mode) returns (f: File?)
    requires fs.Valid() && !FindsDead(fs.Dir(), name) && (mode != F_READ ==> fs.vol.Roomy(1))
    modifies fs`openFiles, fs`openedCount, fs.openFiles, fs.vol`errno, fs.vol`files, fs.vol`ch, fs.vol.fat, fs.vol.data
    ensures fs.Valid() && (fs.openFiles == old(fs.openFiles) || fresh(fs.openFiles)) && NoNull(old(fs.Handles()))
    ensures Sized(old(fs.vol.files), old(fs.vol.ch)) && Sized(fs.vol.files, fs.vol.ch)
    ensures f != null <==> CanOpen(old(fs.vol.files), old(fs.vol.Free()), old(fs.Handles()), name, mode)
    ensures f == null ==> fs.SameVolume() && fs.Handles() == old(fs.Handles())
    ensures f == null && FindSlot(old(fs.Dir()), name, 0) != -1 ==> fs.vol.errno == PEINUSE
    ensures f != null ==> fresh(f) && f.mode == mode && fs.Handles() == old(fs.Handles()) + [f]
    ensures f != null ==> Opened(old(fs.vol.files), fs.vol.files, name, f.slot)
    ensures f != null ==> f.offset == if mode == F_APPEND then SizeOf(Entry(fs.Dir(), f.slot)) else 0
    ensures TightKept(old(fs.vol.files), old(fs.vol.ch), fs.vol.files, fs.vol.ch, fs.vol.blockSize)
    ensures f != null && FindSlot(old(fs.Dir()), name, 0) != -1 ==>
              && f.slot == FindSlot(old(fs.Dir()), name, 0)
              && (mode != F_WRITE || !MayName(old(fs.vol.files), name, PERM_WRITE) ==> fs.SameVolume())
    ensures f != null ==>
              && fs.vol.Free() + |fs.vol.ch[f.slot + 1]|
                   == Reach(old(fs.vol.files), old(fs.vol.ch), old(fs.vol.Free()), name)
              && (MayAt(fs, f, PERM_WRITE) <==> MayName(old(fs.vol.files), name, PERM_WRITE))
    ensures f != null && (FindSlot(old(fs.Dir()), name, 0) == -1 || (mode == F_WRITE && MayAt(fs, f, PERM_WRITE))) ==>
              ContentAt(fs, f) == [] && SizeOf(Entry(fs.Dir(), f.slot)) == 0
    ensures f != null && (mode == F_WRITE || (mode == F_APPEND && Sound(old(fs.vol.files), name))) ==> AtEnd(fs, f)
  {
    hide FileSystem.Base, FileSystem.Valid, TableOK, Entry, Slots, FindSlot, FirstUnused, MadeFiles, Emptied, Catalog,
        Content, PutFile, PutEntry, ChainsKept, Listed, May, SizeOf, EntriesOK, EndsOnce, UniqueNames, TightKept, Live,
        Opened, FindsDead, CanOpen, FreeSet, DirGrowth, Reach, PermOf, NameOf, Mark;
    ghost var files, ch, free, bs := fs.vol.files, fs.vol.ch, fs.vol.Free(), fs.vol.blockSize;
    Shaped(fs);
    fs.NonNull();
    ghost var k := FindSlot(files[0], name, 0);
    TightSame(files, ch, bs);
    f := fs.Open(name, mode);
    Shaped(fs);
    if f != null {
      if k == -1 {
        MadeNamed(files, free, fs.Handles()[..|fs.Handles()| - 1], name, mode);
        OpenedNew(files, ch, free, fs.vol.files, fs.vol.ch, fs.vol.Free(), bs, name);
      } else {
        OpenedFound(files, ch, free, bs, name, Empties(files, name, mode));
        OpenedFacts(files, fs.vol.files, name, k);
      }
    }
  }

  lemma MadeNamed(files: seq<seq<byte>>, free: nat, h: seq<File?>, name: cstring, mode: Mode)
    requires Files(files) && NoNull(h) && CanOpen(files, free, h, name, mode) && FindSlot(files[0], name, 0) == -1
    ensures ValidName(name) && mode != F_READ
  {}

  /** The file was missing and has been made. */
  lemma OpenedNew(files0: seq<seq<byte>>, ch0: seq<seq<nat>>, free0: nat, files: seq<seq<byte>>, ch: seq<seq<nat>>,
      free: nat, bs: nat, name: cstring)
    requires Ordered(files0, ch0) && Ordered(files, ch) && bs >= ENTRY_SIZE && bs % ENTRY_SIZE == 0
    requires FindSlot(files0[0], name, 0) == -1 && ValidName(name) && |name| < NAME_LEN
    requires files == MadeFiles(files0, bs, name) && ChainsKept(ch0, ch) && free == free0 - DirGrowth(files0[0])
    ensures var k := FirstUnused(files0[0], 0);
            && Opened(files0, files, name, k) && k < Slots(files[0]) && Content(files, k) == []
               && SizeOf(Entry(files[0], k)) == 0
            && free + |ch[k + 1]| == Reach(files0, ch0, free0, name)
            && May(Entry(files[0], k), PERM_WRITE) && MayName(files0, name, PERM_WRITE)
            && TightKept(files0, ch0, files, ch, bs)
  {
    hide Entry, Slots, FindSlot, FirstUnused, MadeFiles, Catalog, Content, ChainsKept, Listed, May, SizeOf, DirOK,
        Tight, Live, ValidName, DirGrowth, NameOf, KeptAt, UniqueNames;
    OpenedMade(files0, ch0, bs, name, ch);
    if Tight(files0, ch0, bs) { TightMade(files0, ch0, bs, name, ch); }
  }

  /** The file was there; `emptied`: opening has truncated it. */
  lemma OpenedFound(files0: seq<seq<byte>>, ch0: seq<seq<nat>>, free0: nat, bs: nat, name: cstring, emptied: bool)
    requires Ordered(files0, ch0) && bs > 0 && FindSlot(files0[0], name, 0) != -1 && !FindsDead(files0[0], name)
    ensures var k := FindSlot(files0[0], name, 0);
            var files := if emptied then PutFile(files0, k, Emptied(Entry(files0[0], k)), []) else files0;
            var ch := if emptied then ch0[k + 1 := []] else ch0;
            && Opened(files0, files, name, k) && Sized(files, ch) && TightKept(files0, ch0, files, ch, bs)
            && (if emptied then free0 + |ch0[k + 1]| else free0) + |ch[k + 1]| == Reach(files0, ch0, free0, name)
            && (May(Entry(files[0], k), PERM_WRITE) <==> May(Entry(files0[0], k), PERM_WRITE))
            && (emptied ==> Content(files, k) == [] && SizeOf(Entry(files[0], k)) == 0)
  {
    hide Entry, Slots, FindSlot, Emptied, Catalog, Content, PutFile, PutEntry, Listed, May, SizeOf, DirOK, TightKept,
        Live, Opened, FindsDead;
    var k := FindSlot(files0[0], name, 0);
    OpenedSame(files0, ch0, name);
    OpenedEmptied(files0, ch0, name);
    FoundEntry(files0[0], ch0, name);
    TightSame(files0, ch0, bs);
    TightEmptied(files0, ch0, bs, k);
    PutFileEntry(files0, k, Emptied(Entry(files0[0], k)), []);
    SamePerm(Entry(files0[0], k));
  }

  lemma SamePerm(e: entry)
    ensures May(Emptied(e), PERM_WRITE) == May(e, PERM_WRITE)
  {
    BlockField(e, 0);
    SizeField(WithBlock(e, 0), 0);
  }

  /**
   * fs_close changes nothing but the table when the file still has its name, or the handle is the last in the table.
   */
  method CloseNamed(fs: FileSystem, f: File, ghost idx: nat)
    requires fs.Valid() && fs.Tracked(f, idx) && (Listed(Entry(fs.Dir(), f.slot)) || idx == |fs.Handles()| - 1)
    modifies fs`openedCount, fs.openFiles, fs.vol`files, fs.vol`ch, fs.vol.fat, fs.vol.data
    ensures fs.Valid() && fs.SameVolume() && fs.Handles() == SwapRemove(old(fs.Handles()), idx)
  {
    hide FileSystem.Base, DirOK, TableOK, Entry, Slots;
    fs.Close(f, idx);
  }

  /** A writer shares its entry with nobody. */
  lemma WriterAlone(fs: FileSystem, f: File, g: File, i: nat, j: nat)
    requires fs.Valid() && fs.Tracked(f, i) && fs.Tracked(g, j) && i != j && g.mode != F_READ
    ensures f != g && f.slot != g.slot
  {
    hide FileSystem.Base, DirOK;
    assert fs.Handles()[i] == f && fs.Handles()[j] == g;
  }

  lemma RemoveLast(h: seq<File?>, f: File)
    ensures SwapRemove(h + [f], |h|) == h
  {}

  lemma LastTracked(fs: FileSystem, i: nat)
    requires fs.Valid() && i < |fs.Handles()|
    ensures fs.Handles()[i] != null && fs.Tracked(fs.Handles()[i], i)
  {
    hide FileSystem.Base, DirOK, TableOK;
    fs.HandleFacts(i);
    fs.TableFacts();
  }

  /** What a search finds is not moved by what happens inside one slot. */
  lemma OneSlotSearch(f0: seq<seq<byte>>, c0: seq<seq<nat>>, f: seq<seq<byte>>, c: seq<seq<nat>>, k: nat, nm: cstring)
    requires OneSlot(f0, c0, f, c, k)
    ensures FindSlot(f[0], nm, 0) == FindSlot(f0[0], nm, 0)
  {
    hide Entry, Slots, NameOf, FindSlot, PermOf;
    forall s | 0 <= s < Slots(f0[0])
      ensures Mark(Entry(f[0], s)) == Mark(Entry(f0[0], s)) && NameOf(Entry(f[0], s)) == NameOf(Entry(f0[0], s))
    {
      if s != k { PutGet(f0[0], k, Entry(f[0], k), s); }
    }
    SearchSame(f0[0], f[0], nm, 0);
  }

  /** A change inside the slot of `target`, as a change of the catalogue. */
  lemma OneSlotAssign(f0: seq<seq<byte>>, c0: seq<seq<nat>>, f: seq<seq<byte>>, c: seq<seq<nat>>, k: nat,
      target: cstring)
    requires OneSlot(f0, c0, f, c, k) && UniqueNames(f0[0]) && UniqueNames(f[0])
    requires NameOf(Entry(f0[0], k)) == target && (Listed(Entry(f0[0], k)) <==> !Ghostly(target))
    ensures Catalog(f) == Assign(Catalog(f0), target, Content(f, k))
  {
    CatalogWritten(f0, c0, f, c, k);
  }

  lemma AssignTwice(m: map<cstring, seq<byte>>, name: cstring, x: seq<byte>, c: seq<byte>)
    ensures Assign(Assign(m, name, x), name, c) == Assign(m, name, c)
    ensures Assign(m, name, c) - {name} == m - {name}
  {
    if Ghostly(name) { return; }
    assert m[name := x][name := c] == m[name := c];
    assert m[name := c] - {name} == m - {name};
  }

  // ---- cp ----

  /**
   * When cp gets to its end: the source is there and may be read, the target is another file that may be written to, or
   * can be made, nobody's lock is in the way, and the blocks suffice.
   */
  ghost predicate CpWorks(files: seq<seq<byte>>, ch: seq<seq<nat>>, free: nat, h: seq<File?>, bs: nat, source: cstring,
      target: cstring)
    requires Sized(files, ch) && NoNull(h) && bs > 0
  {
    && CanOpen(files, free, h, source, F_READ) && MayName(files, source, PERM_READ)
    && FindSlot(files[0], target, 0) != FindSlot(files[0], source, 0)
    && CanOpen(files, free, h, target, F_WRITE) && MayName(files, target, PERM_WRITE)
    && CeilDiv(|Held(files, source)|, bs) <= Reach(files, ch, free, target)
  }

  /** A target that is another file nobody has open, or a new one there is room for. */
  ghost predicate CanTake(files: seq<seq<byte>>, ch: seq<seq<nat>>, free: nat, h: seq<File?>, bs: nat, target: cstring,
      len: nat)
    requires Sized(files, ch) && NoNull(h)
  {
    var t := FindSlot(files[0], target, 0);
    if t == -1 then ValidName(target) && free > 0 && len <= bs * (free - 1)
    else
      && (forall i :: 0 <= i < |h| ==> h[i].slot != t) && Entry(files[0], t)[39] % 4 >= 2
      && len <= bs * (free + |ch[t + 1]|)
  }

  lemma Taking(files: seq<seq<byte>>, ch: seq<seq<nat>>, free: nat, h: seq<File?>, bs: nat, target: cstring, len: nat,
      mode: Mode)
    requires Sized(files, ch) && NoNull(h) && bs > 0 && mode != F_READ && CanTake(files, ch, free, h, bs, target, len)
    ensures CanOpen(files, free, h, target, mode) && MayName(files, target, PERM_WRITE)
    ensures CeilDiv(len, bs) <= Reach(files, ch, free, target)
  {
    hide Entry, Slots, FindSlot, CeilDiv, ValidName, May, FirstUnused, Locked;
    var t := FindSlot(files[0], target, 0);
    if t == -1 {
      CeilDivFits(len, bs, free - 1);
    } else {
      PermBits(Entry(files[0], t));
      LockedIff(h, t, mode);
      CeilDivFits(len, bs, free + |ch[t + 1]|);
    }
  }

  /** No ordinary copy is refused: of a file one may read, that has only readers, to such a target. */
  lemma CpOrdinary(files: seq<seq<byte>>, ch: seq<seq<nat>>, free: nat, h: seq<File?>, bs: nat, source: cstring,
      target: cstring)
    requires Ordered(files, ch) && NoNull(h) && bs > 0 && source != target
    requires Readable(files, h, source) && CanTake(files, ch, free, h, bs, target, |Held(files, source)|)
    ensures CpWorks(files, ch, free, h, bs, source, target)
  {
    hide Entry, Slots, FindSlot, CeilDiv, ValidName, NameOf, Locked, EntriesOK, EndsOnce, UniqueNames;
    var k := FindSlot(files[0], source, 0);
    Taking(files, ch, free, h, bs, target, |Held(files, source)|, F_WRITE);
    PermBits(Entry(files[0], k));
    LockedIff(h, k, F_READ);
    FoundEntry(files[0], ch, source);
    if FindSlot(files[0], target, 0) != -1 { FoundEntry(files[0], ch, target); }
  }

  /** Nor is the concatenation of such files, or adding them to the end of one. */
  lemma CatOrdinary(files: seq<seq<byte>>, ch: seq<seq<nat>>, free: nat, h: seq<File?>, bs: nat, names: seq<cstring>,
      target: cstring, mode: Mode)
    requires Ordered(files, ch) && NoNull(h) && bs > 0 && target !in names && mode != F_READ
    requires forall i :: 0 <= i < |names| ==> Readable(files, h, names[i])
    requires CanTake(files, ch, free, h, bs, target,
                 (if mode == F_APPEND then |Held(files, target)| else 0) + |Concat(files, names)|)
    ensures CatWorks(files, ch, free, h, bs, names, target, mode)
  {
    hide Entry, Slots, FindSlot, CeilDiv, ValidName, NameOf, Locked, EntriesOK, EndsOnce, UniqueNames, Readable,
        InputOK, Concat;
    Taking(files, ch, free, h, bs, target, |Before(files, target, mode)| + |Concat(files, names)|, mode);
    forall i | 0 <= i < |names|
      ensures InputOK(files, h, names[i])
    {
      ReadableOK(files, h, names[i]);
    }
  }

  /** A file one may read, that has only readers. */
  ghost predicate Readable(files: seq<seq<byte>>, h: seq<File?>, name: cstring)
    requires Files(files) && NoNull(h)
  {
    var k := FindSlot(files[0], name, 0);
    && k != -1 && Entry(files[0], k)[39] % 8 >= 4
    && forall i :: 0 <= i < |h| && h[i].slot == k ==> h[i].mode == F_READ
  }

  lemma ReadableOK(files: seq<seq<byte>>, h: seq<File?>, name: cstring)
    requires Files(files) && NoNull(h) && Readable(files, h, name)
    ensures InputOK(files, h, name)
  {
    hide Entry, Slots, FindSlot, NameOf, Locked;
    PermBits(Entry(files[0], FindSlot(files[0], name, 0)));
    LockedIff(h, FindSlot(files[0], name, 0), F_READ);
  }

  /** Close both ends of a copy, or the one that is open. */
  method CloseCopy(fs: FileSystem, src: File, dest: File?, ghost target: cstring, ghost n: nat, ghost h0: seq<File?>)
    requires fs.Valid() && fs.Tracked(src, n) && n == |h0| && 0 < |fs.vol.files|
    requires fs.Handles() == if dest == null then h0 + [src] else h0 + [src, dest]
    requires dest != null ==>
               fs.Tracked(dest, n + 1) && src.slot != dest.slot && FindSlot(fs.Dir(), target, 0) == dest.slot
    modifies fs`openedCount, fs.openFiles, fs.vol`files, fs.vol`ch, fs.vol.fat, fs.vol.data
    ensures fs.Valid() && fs.Handles() == h0 && 0 < |fs.vol.files| && Ordered(fs.vol.files, fs.vol.ch)
    ensures dest == null ==> fs.SameVolume()
    ensures Ordered(old(fs.vol.files), old(fs.vol.ch)) && Catalog(fs.vol.files) == Catalog(old(fs.vol.files))
    ensures dest != null ==>
              FindSlot(fs.Dir(), target, 0) == dest.slot && ContentAt(fs, dest) == old(ContentAt(fs, dest))
  {
    hide FileSystem.Base, FileSystem.Valid, TableOK, Entry, Slots, FindSlot, Catalog, Content, Listed, EntriesOK,
        EndsOnce, UniqueNames, Live, FreeSet, SwapRemove;
    Shaped(fs);
    RemoveLast(h0, src);
    if dest == null {
      CloseNamed(fs, src, n);
    } else {
      CloseSource(fs, src, dest, target, n);
      RemoveLast(h0, dest);
      LastTracked(fs, n);
      CloseNamed(fs, dest, n);
    }
    Shaped(fs);
  }

  /**
   * cp SOURCE DEST inside the filesystem: either the target ends up holding the source's content, and that exactly
   * under the conditions one would name; or nothing but the target has changed. A file cannot be copied onto itself.
   */
  method Cp(fs: FileSystem, source: cstring, target: cstring) returns (ok: bool)
    requires fs.Valid() && !FindsDead(fs.Dir(), source) && !FindsDead(fs.Dir(), target) && fs.vol.Roomy(1)
    requires 0 < |fs.vol.files| && |fs.vol.files| == 1 + Slots(fs.vol.files[0]) && fs.vol.blockSize > 0
    requires fs.vol.Roomy(1 + CeilDiv(|Held(fs.vol.files, source)|, fs.vol.blockSize))
    modifies fs`openFiles, fs`openedCount, fs.openFiles, fs.vol`errno, fs.vol`files, fs.vol`ch, fs.vol.fat, fs.vol.data
    ensures fs.Valid() && fs.Handles() == old(fs.Handles())
            && (fs.openFiles == old(fs.openFiles) || fresh(fs.openFiles))
    ensures Ordered(old(fs.vol.files), old(fs.vol.ch)) && Ordered(fs.vol.files, fs.vol.ch) && NoNull(old(fs.Handles()))
    ensures ok <==>
              CpWorks(old(fs.vol.files), old(fs.vol.ch), old(fs.vol.Free()), old(fs.Handles()), fs.vol.blockSize,
                source, target)
    ensures ok ==>
        && Held(fs.vol.files, target) == Held(old(fs.vol.files), source)
        && Catalog(fs.vol.files) == Assign(Catalog(old(fs.vol.files)), target, Held(old(fs.vol.files), source))
    ensures Catalog(fs.vol.files) - {target} == Catalog(old(fs.vol.files)) - {target}
    ensures source == target ==> !ok && fs.SameVolume()
  {
    hide FileSystem.Base, FileSystem.Valid, TableOK, Entry, Slots, FindSlot, Catalog, Content, Listed, May, SizeOf,
        EntriesOK, EndsOnce, UniqueNames, CeilDiv, OneSlot, RoomFor, AtEnd, Opened, Live, FindsDead, FreeSet, CanOpen,
        Reach, TightKept, MayName, Assign, Ghostly, SwapRemove;
    Shaped(fs);
    fs.NonNull();
    ghost var files0, h0 := fs.vol.files, fs.Handles();
    ghost var n := |fs.Handles()|;
    var src := OpenNamed(fs, source, F_READ);
    if src == null { return false; }
    LastTracked(fs, n);
    SourceFound(files0, old(fs.vol.Free()), h0, source);
    AlsoLocked(files0, old(fs.vol.Free()), h0, src, target);
    var dest;
    ok, dest := CopyInto(fs, src, target, n);
    CloseCopy(fs, src, dest, target, n, h0);
    if dest != null { AssignTwice(Catalog(files0), target, [], ContentAt(fs, dest)); }
    Shaped(fs);
  }

  /** What has been opened for reading was there. */
  lemma SourceFound(files: seq<seq<byte>>, free: nat, h: seq<File?>, name: cstring)
    requires Files(files) && NoNull(h) && CanOpen(files, free, h, name, F_READ)
    ensures FindSlot(files[0], name, 0) != -1
    ensures MayName(files, name, PERM_READ) <==> May(Entry(files[0], FindSlot(files[0], name, 0)), PERM_READ)
  {}

  /** One more reader is one more reason not to open its file for writing. */
  lemma AlsoLocked(files: seq<seq<byte>>, free: nat, h: seq<File?>, f: File, name: cstring)
    requires Files(files) && NoNull(h)
    ensures NoNull(h + [f])
    ensures CanOpen(files, free, h + [f], name, F_WRITE) <==>
            CanOpen(files, free, h, name, F_WRITE) && FindSlot(files[0], name, 0) != f.slot
  {
    var k := FindSlot(files[0], name, 0);
    if k != -1 && Locked(h, k, F_WRITE) {
      var i :| 0 <= i < |h| && h[i].slot == k;
      assert (h + [f])[i].slot == k;
    }
    assert (h + [f])[|h|] == f;
  }

  /** The rest of cp, the source being open. */
  method CopyInto(fs: FileSystem, src: File, target: cstring, ghost n: nat) returns (ok: bool, dest: File?)
    requires fs.Valid() && fs.Tracked(src, n) && |fs.Handles()| == n + 1 && src.offset == 0 && fs.vol.blockSize > 0
    requires !FindsDead(fs.Dir(), target) && fs.vol.Roomy(1)
    requires fs.vol.Roomy(1 + CeilDiv(|ContentAt(fs, src)|, fs.vol.blockSize))
    modifies fs`openFiles, fs`openedCount, fs.openFiles, src, fs.vol`errno, fs.vol`files, fs.vol`ch, fs.vol.fat,
        fs.vol.data
    ensures fs.Valid() && (fs.openFiles == old(fs.openFiles) || fresh(fs.openFiles)) && fs.Tracked(src, n)
    ensures Ordered(old(fs.vol.files), old(fs.vol.ch)) && Ordered(fs.vol.files, fs.vol.ch) && NoNull(old(fs.Handles()))
    ensures fs.Handles() == if dest == null then old(fs.Handles()) else old(fs.Handles()) + [dest]
    ensures dest != null <==> CanOpen(old(fs.vol.files), old(fs.vol.Free()), old(fs.Handles()), target, F_WRITE)
    ensures dest == null ==> fs.SameVolume() && !ok
    ensures dest != null ==>
              fs.Tracked(dest, n + 1) && dest.slot != src.slot && FindSlot(fs.Dir(), target, 0) == dest.slot
    ensures dest != null ==> Catalog(fs.vol.files) == Assign(Catalog(old(fs.vol.files)), target, ContentAt(fs, dest))
    ensures ok <==>
            && dest != null && old(MayAt(fs, src, PERM_READ)) && MayName(old(fs.vol.files), target, PERM_WRITE)
            && CeilDiv(|old(ContentAt(fs, src))|, fs.vol.blockSize)
               <= Reach(old(fs.vol.files), old(fs.vol.ch), old(fs.vol.Free()), target)
    ensures ok ==> ContentAt(fs, dest) == old(ContentAt(fs, src))
  {
    hide FileSystem.Base, FileSystem.Valid, TableOK, Entry, Slots, FindSlot, Catalog, Content, Listed, May, SizeOf,
        EntriesOK, EndsOnce, UniqueNames, CeilDiv, OneSlot, RoomFor, AtEnd, Opened, KeptAt, NameOf, FreeSet,
        FileSystem.TableShape, CanOpen, FindsDead, Reach, TightKept, Assign, Ghostly;
    Shaped(fs);
    ghost var files0, ch0, c := fs.vol.files, fs.vol.ch, ContentAt(fs, src);
    assert fs.Handles()[n] == src;
    ok := false;
    dest := OpenNamed(fs, target, F_WRITE);
    LastTracked(fs, n);
    if dest == null { return; }
    LastTracked(fs, n + 1);
    WriterAlone(fs, src, dest, n, n + 1);
    OpenedFacts(files0, fs.vol.files, target, dest.slot);
    OpenedOther(files0, fs.vol.files, target, dest.slot, src.slot);
    Shaped(fs);
    ghost var f1 := fs.vol.files;
    ReachBounds(files0, ch0, old(fs.vol.Free()), target);
    FreshRoom(fs, dest, |c|, old(fs.vol.Free()));
    ok := CopyNamed(fs, src, dest, n, n + 1, target);
    AssignTwice(Catalog(files0), target, Content(f1, dest.slot), ContentAt(fs, dest));
    if ok { assert [] + c == c; }
  }

  lemma OpenedFacts(files0: seq<seq<byte>>, files: seq<seq<byte>>, name: cstring, k: nat)
    requires Opened(files0, files, name, k)
    ensures 0 < |files0| <= |files| && |files0| == 1 + Slots(files0[0]) && |files| == 1 + Slots(files[0])
            && k < Slots(files[0])
    ensures UniqueNames(files0[0]) && UniqueNames(files[0]) && FindSlot(files[0], name, 0) == k
    ensures NameOf(Entry(files[0], k)) == name && (Listed(Entry(files[0], k)) <==> !Ghostly(name))
    ensures Catalog(files) == Assign(Catalog(files0), name, Content(files, k))
  {}

  lemma OpenedOther(files0: seq<seq<byte>>, files: seq<seq<byte>>, name: cstring, k: nat, s: nat)
    requires Opened(files0, files, name, k) && s < Slots(files0[0]) && s != k
    ensures s < Slots(files[0]) && Entry(files[0], s) == Entry(files0[0], s) && Content(files, s) == Content(files0, s)
  {
    assert KeptAt(files0, files, s);
  }

  /** An emptied or new file may grow to `len` bytes when there were that many blocks and one more. */
  lemma FreshRoom(fs: FileSystem, f: File, len: nat, free0: nat)
    requires fs.Valid() && f.slot < Slots(fs.Dir())
    requires May(Entry(fs.Dir(), f.slot), PERM_WRITE) ==>
               ContentAt(fs, f) == [] && fs.vol.Free() + |fs.vol.ch[f.slot + 1]| + 1 >= free0
    requires fs.vol.fat.Length <= EOF || 1 + CeilDiv(len, fs.vol.blockSize) <= free0
    ensures RoomFor(fs, f, |ContentAt(fs, f)| + len)
  {
    hide FileSystem.Base, Rep, TableOK, DirOK, Entry, Slots, Content, CeilDiv, May;
  }

  /** The copy between two open files, and what it does to the catalogue. */
  method CopyNamed(fs: FileSystem, src: File, dest: File, ghost isrc: nat, ghost idest: nat,
      ghost target: cstring) returns (ok: bool)
    requires Copying(fs, src, dest, isrc, idest) && AtEnd(fs, dest) && src.offset == 0 && UniqueNames(fs.Dir())
    requires NameOf(Entry(fs.Dir(), dest.slot)) == target && (Listed(Entry(fs.Dir(), dest.slot)) <==> !Ghostly(target))
    requires FindSlot(fs.Dir(), target, 0) == dest.slot
    requires RoomFor(fs, dest, |ContentAt(fs, dest)| + |ContentAt(fs, src)|)
    modifies src, dest, fs.vol`errno, fs.vol`files, fs.vol`ch, fs.vol.fat, fs.vol.data
    ensures Copying(fs, src, dest, isrc, idest) && Ordered(fs.vol.files, fs.vol.ch)
    ensures FindSlot(fs.Dir(), target, 0) == dest.slot
    ensures Catalog(fs.vol.files) == Assign(Catalog(old(fs.vol.files)), target, ContentAt(fs, dest))
    ensures ok <==> old(CopyGoes(fs, src, dest))
    ensures ok ==> ContentAt(fs, dest) == old(ContentAt(fs, dest)) + old(ContentAt(fs, src))
  {
    hide FileSystem.Base, FileSystem.Valid, TableOK, Entry, Slots, Catalog, Content, May, SizeOf, EntriesOK, EndsOnce,
        UniqueNames, OneSlot, RoomFor, AtEnd, NameOf, Listed, Assign, CopyGoes, FindSlot;
    ghost var f0, c0 := fs.vol.files, fs.vol.ch;
    ok := CopyAll(fs, src, dest, isrc, idest);
    Shaped(fs);
    OneSlotSearch(f0, c0, fs.vol.files, fs.vol.ch, dest.slot, target);
    OneSlotAssign(f0, c0, fs.vol.files, fs.vol.ch, dest.slot, target);
  }

  /** The source of a cp is closed; when it had lost its name, and this was its last handle, it goes for good. */
  method CloseSource(fs: FileSystem, src: File, dest: File, ghost target: cstring, ghost n: nat)
    requires fs.Valid() && fs.Tracked(src, n) && fs.Tracked(dest, n + 1) && |fs.Handles()| == n + 2
    requires src.slot != dest.slot && FindSlot(fs.Dir(), target, 0) == dest.slot
    modifies fs`openedCount, fs.openFiles, fs.vol`files, fs.vol`ch, fs.vol.fat, fs.vol.data
    ensures fs.Valid() && fs.Handles() == old(fs.Handles())[..n] + [dest] && fs.Tracked(dest, n)
    ensures Ordered(old(fs.vol.files), old(fs.vol.ch)) && Ordered(fs.vol.files, fs.vol.ch)
    ensures FindSlot(fs.Dir(), target, 0) == dest.slot && ContentAt(fs, dest) == old(ContentAt(fs, dest))
    ensures Catalog(fs.vol.files) == Catalog(old(fs.vol.files))
  {
    hide FileSystem.Base, FileSystem.Valid, TableOK, Entry, Slots, Catalog, Content, EntriesOK, EndsOnce, UniqueNames,
        FindSlot, CloseCount, PutFile;
    Shaped(fs);
    fs.TrackedFacts(dest, n + 1);
    LastTracked(fs, n);
    LastTracked(fs, n + 1);
    fs.NonNull();
    ghost var files, ch, h := fs.vol.files, fs.vol.ch, fs.Handles();
    fs.Close(src, n);
    Shaped(fs);
    assert fs.Handles() == h[..n] + [dest] && fs.Handles()[n] == dest;
    LastTracked(fs, n);
    if CloseCount(h, n) == 0 && Mark(Entry(files[0], src.slot)) == 2 {
      DropUnseen(files, ch, src.slot, dest.slot, target);
    }
  }

  /** The deletion of a file without a name leaves the search for any other file, and that file, as they were. */
  lemma DropUnseen(files: seq<seq<byte>>, ch: seq<seq<nat>>, k: nat, s: nat, nm: cstring)
    requires Ordered(files, ch) && k < Slots(files[0]) && Mark(Entry(files[0], k)) == 2 && s < Slots(files[0]) && s != k
    requires FindSlot(files[0], nm, 0) == s && Live(Entry(files[0], s))
    requires UniqueNames(PutFile(files, k, WithMark(Entry(files[0], k), 1), [])[0])
    ensures var f := PutFile(files, k, WithMark(Entry(files[0], k), 1), []);
            && Files(f) && s < Slots(f[0]) && FindSlot(f[0], nm, 0) == s && Content(f, s) == Content(files, s)
            && Catalog(f) == Catalog(files)
  {
    hide Slots, Entry, NameOf, Content, Catalog, PutEntry, FindSlot, UniqueNames;
    var e := WithMark(Entry(files[0], k), 1);
    var f := PutFile(files, k, e, []);
    CatalogClosed(files, k);
    PutSame(files, k, e, []);
    FoundEntry(files[0], ch, nm);
    FoundFirst(files[0], nm, 0);
    FirstChar(e);
    forall i | 0 <= i < s
      ensures Mark(Entry(f[0], i)) != 0 && NameOf(Entry(f[0], i)) != nm
    {
      if i != k { assert Entry(f[0], i) == Entry(files[0], i); }
    }
    FoundThere(f[0], nm, 0, s);
  }

  // ---- cat ----

  /** What the named files hold, one after the other. */
  ghost function Concat(files: seq<seq<byte>>, names: seq<cstring>): seq<byte>
    requires Files(files)
  {
    if names == [] then [] else Concat(files, names[..|names| - 1]) + Held(files, names[|names| - 1])
  }

  lemma ConcatStep(files: seq<seq<byte>>, names: seq<cstring>, i: nat)
    requires Files(files) && i < |names|
    ensures Concat(files, names[..i + 1]) == Concat(files, names[..i]) + Held(files, names[i])
  {
    assert names[..i + 1][..i] == names[..i];
  }

  lemma {:induction false} ConcatPrefix(files: seq<seq<byte>>, names: seq<cstring>, i: nat)
    requires Files(files) && i <= |names|
    ensures |Concat(files, names[..i])| <= |Concat(files, names)|
    decreases |names| - i
  {
    if i < |names| {
      ConcatStep(files, names, i);
      ConcatPrefix(files, names, i + 1);
    } else {
      assert names[..i] == names;
    }
  }

  /** The file is there and may be opened for reading and read. */
  ghost predicate InputOK(files: seq<seq<byte>>, h: seq<File?>, name: cstring)
    requires Files(files) && NoNull(h)
  {
    FindSlot(files[0], name, 0) != -1 && !Locked(h, FindSlot(files[0], name, 0), F_READ)
    && MayName(files, name, PERM_READ)
  }

  ghost predicate Inputs(files: seq<seq<byte>>, h: seq<File?>, names: seq<cstring>, n: nat)
    requires Files(files) && NoNull(h) && n <= |names|
  {
    forall i :: 0 <= i < n ==> InputOK(files, h, names[i])
  }

  lemma WriterHere(fs: FileSystem, f: File)
    requires fs.Valid() && f.slot < Slots(fs.Dir()) && AtEnd(fs, f)
    ensures f.mode != F_READ
  {}

  /** One input of cat: open it, copy it behind what the output has, close it. */
  method CatOne(fs: FileSystem, dest: File, name: cstring, ghost n: nat) returns (ok: bool)
    requires fs.Valid() && fs.Tracked(dest, n) && |fs.Handles()| == n + 1 && AtEnd(fs, dest)
    requires Files(fs.vol.files) && !FindsDead(fs.Dir(), name)
    requires FindSlot(fs.Dir(), name, 0) != dest.slot ==>
               RoomFor(fs, dest, |ContentAt(fs, dest)| + |Held(fs.vol.files, name)|)
    modifies fs`openFiles, fs`openedCount, fs.openFiles, dest, fs.vol`errno, fs.vol`files, fs.vol`ch, fs.vol.fat,
        fs.vol.data
    ensures fs.Valid() && fs.Handles() == old(fs.Handles())
            && (fs.openFiles == old(fs.openFiles) || fresh(fs.openFiles))
    ensures fs.Tracked(dest, n) && NoNull(fs.Handles()) && Files(old(fs.vol.files))
    ensures OneSlot(old(fs.vol.files), old(fs.vol.ch), fs.vol.files, fs.vol.ch, dest.slot)
    ensures fs.vol.Free() + |fs.vol.ch[dest.slot + 1]| == old(fs.vol.Free() + |fs.vol.ch[dest.slot + 1]|)
    ensures ok <==>
            && InputOK(old(fs.vol.files), old(fs.Handles()), name) && old(MayAt(fs, dest, PERM_WRITE))
            && old(Enough(fs, dest, |ContentAt(fs, dest)| + |Held(fs.vol.files, name)|))
    ensures ok ==> AtEnd(fs, dest) && ContentAt(fs, dest) == old(ContentAt(fs, dest)) + Held(old(fs.vol.files), name)
  {
    hide FileSystem.Base, FileSystem.Valid, TableOK, Entry, Slots, FindSlot, Catalog, Content, Listed, May, SizeOf,
        DirOK, CeilDiv, OneSlot, Opened, KeptAt, FreeSet, UniqueNames, FileSystem.SafeWrite, NameOf, FindsDead,
        Locked, PermOf, Mark;
    Shaped(fs);
    WriterHere(fs, dest);
    ghost var h0 := fs.Handles();
    OneSlotRefl(fs.vol.files, fs.vol.ch, dest.slot);
    assert fs.Handles()[n] == dest;
    var src := OpenNamed(fs, name, F_READ);
    LastTracked(fs, n);
    if src == null { return false; }
    LastTracked(fs, n + 1);
    WriterAlone(fs, src, dest, n + 1, n);
    SourceFound(fs.vol.files, fs.vol.Free(), h0, name);
    ok := CopyAll(fs, src, dest, n + 1, n);
    CloseNamed(fs, src, n + 1);
    assert (h0 + [src])[..n + 1] == h0;
    LastTracked(fs, n);
    Shaped(fs);
  }

  lemma RoomLess(fs: FileSystem, f: File, len: nat, more: nat)
    requires fs.Valid() && f.slot < Slots(fs.Dir()) && RoomFor(fs, f, more) && len <= more
    ensures RoomFor(fs, f, len)
  {
    hide FileSystem.Base, Rep, TableOK, Entry, Slots, May, DirOK, CeilDiv;
    CeilDivMono(len, more, fs.vol.blockSize);
  }

  lemma RoomIs(fs: FileSystem, f: File, len: nat, total: nat)
    requires fs.Valid() && f.slot < Slots(fs.Dir()) && fs.vol.Free() + |fs.vol.ch[f.slot + 1]| == total
    ensures fs.vol.blockSize > 0
    ensures RoomFor(fs, f, len) <==>
            (May(Entry(fs.Dir(), f.slot), PERM_WRITE) ==>
               fs.vol.fat.Length <= EOF || CeilDiv(len, fs.vol.blockSize) <= total)
  {
    hide FileSystem.Base, Rep, TableOK, Entry, Slots, May, DirOK, CeilDiv;
  }

  /** While the output is written to, the other inputs stay what they are; and the output is no input. */
  lemma SameInput(f0: seq<seq<byte>>, c0: seq<seq<nat>>, f: seq<seq<byte>>, c: seq<seq<nat>>, h: seq<File?>, n: nat,
      nm: cstring)
    requires NoNull(h) && n < |h| && h[n].mode != F_READ && OneSlot(f0, c0, f, c, h[n].slot)
    ensures Files(f0) && Files(f) && FindSlot(f[0], nm, 0) == FindSlot(f0[0], nm, 0)
    ensures InputOK(f, h, nm) <==> InputOK(f0, h, nm)
    ensures FindSlot(f0[0], nm, 0) == h[n].slot ==> !InputOK(f0, h, nm)
    ensures FindSlot(f0[0], nm, 0) != h[n].slot ==> Held(f, nm) == Held(f0, nm)
    ensures FindsDead(f[0], nm) <==> FindsDead(f0[0], nm)
  {
    var k, r := h[n].slot, FindSlot(f0[0], nm, 0);
    OneSlotSearch(f0, c0, f, c, k, nm);
    if r != -1 && r != k { OthersSame(f0, c0, f, c, k, r); }
  }

  /** All inputs, in order. `total` is what the output can come to own. */
  method CatLoop(fs: FileSystem, dest: File, names: seq<cstring>, ghost n: nat) returns (ok: bool)
    requires fs.Valid() && fs.Tracked(dest, n) && |fs.Handles()| == n + 1 && AtEnd(fs, dest) && names != []
    requires Files(fs.vol.files) && forall i :: 0 <= i < |names| ==> !FindsDead(fs.Dir(), names[i])
    requires RoomFor(fs, dest, |ContentAt(fs, dest)| + |Concat(fs.vol.files, names)|)
    modifies fs`openFiles, fs`openedCount, fs.openFiles, dest, fs.vol`errno, fs.vol`files, fs.vol`ch, fs.vol.fat,
        fs.vol.data
    ensures fs.Valid() && fs.Handles() == old(fs.Handles())
            && (fs.openFiles == old(fs.openFiles) || fresh(fs.openFiles))
    ensures fs.Tracked(dest, n) && NoNull(fs.Handles()) && Files(old(fs.vol.files))
    ensures OneSlot(old(fs.vol.files), old(fs.vol.ch), fs.vol.files, fs.vol.ch, dest.slot)
    ensures ok <==>
            && Inputs(old(fs.vol.files), old(fs.Handles()), names, |names|) && old(MayAt(fs, dest, PERM_WRITE))
            && old(Enough(fs, dest, |ContentAt(fs, dest)| + |Concat(fs.vol.files, names)|))
    ensures ok ==> ContentAt(fs, dest) == old(ContentAt(fs, dest)) + Concat(old(fs.vol.files), names)
  {
    hide FileSystem.Base, FileSystem.Valid, TableOK, Entry, Slots, FindSlot, Catalog, Content, Listed, May, SizeOf,
        DirOK, CeilDiv, OneSlot, AtEnd, Concat, InputOK, UniqueNames, FreeSet, RoomFor, Enough, FindsDead;
    Shaped(fs);
    fs.NonNull();
    ghost var f0, c0, h, d, may := fs.vol.files, fs.vol.ch, fs.Handles(), ContentAt(fs, dest),
        MayAt(fs, dest, PERM_WRITE);
    ghost var more := |d| + |Concat(f0, names)|;
    ghost var total := fs.vol.Free() + |fs.vol.ch[dest.slot + 1]|;
    assert h[n] == dest;
    WriterHere(fs, dest);
    OneSlotRefl(f0, c0, dest.slot);
    EnoughFrom(fs, dest, 0, more, total);
    CatStart(f0, names, d);
    ok := true;
    for i := 0 to |names|
      invariant fs.Valid() && fs.TableShape() && Sized(fs.vol.files, fs.vol.ch) && fs.vol.blockSize > 0
                && fs.Tracked(dest, n)
      invariant fs.Handles() == h && (fs.openFiles == old(fs.openFiles) || fresh(fs.openFiles))
      invariant OneSlot(f0, c0, fs.vol.files, fs.vol.ch, dest.slot) && AtEnd(fs, dest) && RoomFor(fs, dest, more)
      invariant fs.vol.Free() + |fs.vol.ch[dest.slot + 1]| == total
      invariant ContentAt(fs, dest) == d + Concat(f0, names[..i]) && Inputs(f0, h, names, i)
      invariant i > 0 ==> may && CeilDiv(|d| + |Concat(f0, names[..i])|, fs.vol.blockSize) <= total
    {
      ok := CatNext(fs, dest, names, i, n, f0, c0, d, may, more, total);
      if !ok { return; }
    }
    assert names[..|names|] == names;
  }

  lemma CatStart(files: seq<seq<byte>>, names: seq<cstring>, d: seq<byte>)
    requires Files(files)
    ensures d == d + Concat(files, names[..0])
  {}

  /** The i-th input goes in. */
  ghost predicate TurnGoes(files: seq<seq<byte>>, h: seq<File?>, names: seq<cstring>, i: nat, may: bool, kept: nat,
      bs: nat, total: nat)
    requires Files(files) && NoNull(h) && i < |names| && bs > 0
  {
    InputOK(files, h, names[i]) && may && CeilDiv(kept + |Concat(files, names[..i + 1])|, bs) <= total
  }

  lemma ThenMore(a: seq<byte>, b: seq<byte>, c: seq<byte>)
    ensures (a + b) + c == a + (b + c) && |a + b| + |c| == |a| + |b + c|
  {}

  /** What one more input asks of the output, in terms of the state the loop started in. */
  lemma TurnIs(fs: FileSystem, dest: File, names: seq<cstring>, i: nat, n: nat, f0: seq<seq<byte>>, c0: seq<seq<nat>>,
      d: seq<byte>, may: bool, more: nat, total: nat)
    requires fs.Valid() && fs.Tracked(dest, n) && |fs.Handles()| == n + 1 && AtEnd(fs, dest) && i < |names|
    requires Files(f0) && !FindsDead(f0[0], names[i]) && OneSlot(f0, c0, fs.vol.files, fs.vol.ch, dest.slot)
    requires fs.vol.Free() + |fs.vol.ch[dest.slot + 1]| == total && may == May(Entry(f0[0], dest.slot), PERM_WRITE)
    requires ContentAt(fs, dest) == d + Concat(f0, names[..i]) && more == |d| + |Concat(f0, names)|
    requires RoomFor(fs, dest, more)
    ensures Files(fs.vol.files) && fs.TableShape() && NoNull(fs.Handles()) && fs.vol.blockSize > 0
            && !FindsDead(fs.Dir(), names[i])
    ensures may == MayAt(fs, dest, PERM_WRITE)
    ensures
      var h, held := fs.Handles(), Held(fs.vol.files, names[i]);
      var goes := Enough(fs, dest, |ContentAt(fs, dest)| + |held|);
      && (FindSlot(fs.Dir(), names[i], 0) != dest.slot ==>
            RoomFor(fs, dest, |ContentAt(fs, dest)| + |held|)
            && ContentAt(fs, dest) + held == d + Concat(f0, names[..i + 1]))
      && (InputOK(f0, h, names[i]) ==> FindSlot(fs.Dir(), names[i], 0) != dest.slot)
      && (InputOK(f0, h, names[i]) <==> InputOK(fs.vol.files, h, names[i]))
      && (TurnGoes(f0, h, names, i, may, |d|, fs.vol.blockSize, total) <==>
            InputOK(fs.vol.files, h, names[i]) && may && goes)
      && (!goes && InputOK(f0, h, names[i]) ==> CeilDiv(more, fs.vol.blockSize) > total)
  {
    hide FileSystem.Base, FileSystem.Valid, TableOK, Entry, Slots, FindSlot, Catalog, Content, Listed, May, SizeOf,
        DirOK, CeilDiv, OneSlot, AtEnd, Concat, InputOK, UniqueNames, FreeSet, Enough, FindsDead,
        RoomFor, Held, NameOf, PermOf, Mark;
    var f1, c1, name := fs.vol.files, fs.vol.ch, names[i];
    Shaped(fs);
    fs.NonNull();
    WriterHere(fs, dest);
    ConcatStep(f0, names, i);
    ConcatPrefix(f0, names, i + 1);
    assert fs.Handles()[n] == dest;
    SameInput(f0, c0, f1, c1, fs.Handles(), n, name);
    OneSlotKeeps(f0, c0, f1, c1, dest.slot);
    var size := |ContentAt(fs, dest)| + |Held(f1, name)|;
    if FindSlot(f0[0], name, 0) != dest.slot {
      ThenMore(d, Concat(f0, names[..i]), Held(f0, name));
      RoomLess(fs, dest, size, more);
      EnoughFrom(fs, dest, size, more, total);
      EnoughFrom(fs, dest, 0, size, total);
    }
  }

  /** One turn of that loop. */
  method CatNext(fs: FileSystem, dest: File, names: seq<cstring>, i: nat, ghost n: nat, ghost f0: seq<seq<byte>>,
      ghost c0: seq<seq<nat>>, ghost d: seq<byte>, ghost may: bool, ghost more: nat, ghost total: nat)
    returns (ok: bool)
    requires fs.Valid() && fs.Tracked(dest, n) && |fs.Handles()| == n + 1 && AtEnd(fs, dest) && i < |names|
    requires Files(f0) && !FindsDead(f0[0], names[i]) && OneSlot(f0, c0, fs.vol.files, fs.vol.ch, dest.slot)
    requires fs.vol.Free() + |fs.vol.ch[dest.slot + 1]| == total && may == May(Entry(f0[0], dest.slot), PERM_WRITE)
    requires ContentAt(fs, dest) == d + Concat(f0, names[..i]) && more == |d| + |Concat(f0, names)|
    requires RoomFor(fs, dest, more)
    modifies fs`openFiles, fs`openedCount, fs.openFiles, dest, fs.vol`errno, fs.vol`files, fs.vol`ch, fs.vol.fat,
        fs.vol.data
    ensures fs.Valid() && fs.Handles() == old(fs.Handles())
            && (fs.openFiles == old(fs.openFiles) || fresh(fs.openFiles))
    ensures fs.TableShape() && Sized(fs.vol.files, fs.vol.ch) && fs.vol.blockSize > 0 && fs.Tracked(dest, n)
    ensures NoNull(fs.Handles())
    ensures OneSlot(f0, c0, fs.vol.files, fs.vol.ch, dest.slot)
    ensures fs.vol.Free() + |fs.vol.ch[dest.slot + 1]| == total && RoomFor(fs, dest, more)
    ensures ok <==> TurnGoes(f0, fs.Handles(), names, i, may, |d|, fs.vol.blockSize, total)
    ensures !ok && InputOK(f0, fs.Handles(), names[i]) && may ==> CeilDiv(more, fs.vol.blockSize) > total
    ensures ok ==> AtEnd(fs, dest) && ContentAt(fs, dest) == d + Concat(f0, names[..i + 1])
  {
    hide FileSystem.Base, FileSystem.Valid, TableOK, Entry, Slots, FindSlot, Catalog, Content, Listed, May, SizeOf,
        DirOK, CeilDiv, OneSlot, AtEnd, Concat, InputOK, UniqueNames, FreeSet, Enough, FindsDead,
        RoomFor, Held;
    ghost var f1, c1 := fs.vol.files, fs.vol.ch;
    var name := names[i];
    TurnIs(fs, dest, names, i, n, f0, c0, d, may, more, total);
    OneSlotKeeps(f0, c0, f1, c1, dest.slot);
    RoomIs(fs, dest, more, total);
    ghost var turn := TurnGoes(f0, fs.Handles(), names, i, may, |d|, fs.vol.blockSize, total);
    hide TurnGoes;
    ok := CatOne(fs, dest, name, n);
    Shaped(fs);
    assert ok == turn;
    assert OneSlot(f0, c0, fs.vol.files, fs.vol.ch, dest.slot) by {
      OneSlotTrans(f0, c0, f1, c1, fs.vol.files, fs.vol.ch, dest.slot);
    }
    assert RoomFor(fs, dest, more) by {
      OneSlotKeeps(f1, c1, fs.vol.files, fs.vol.ch, dest.slot);
      RoomIs(fs, dest, more, total);
    }
  }

  /** When cat gets to its end. */
  ghost predicate CatWorks(files: seq<seq<byte>>, ch: seq<seq<nat>>, free: nat, h: seq<File?>, bs: nat,
      names: seq<cstring>, target: cstring, mode: Mode)
    requires Sized(files, ch) && NoNull(h) && bs > 0
  {
    && CanOpen(files, free, h, target, mode) && MayName(files, target, PERM_WRITE)
    && target !in names && Inputs(files, h, names, |names|)
    && CeilDiv(|Before(files, target, mode)| + |Concat(files, names)|, bs) <= Reach(files, ch, free, target)
  }

  /** What the output holds before the first input goes in. */
  ghost function Before(files: seq<seq<byte>>, target: cstring, mode: Mode): seq<byte>
    requires Files(files)
  {
    if mode == F_APPEND then Held(files, target) else []
  }

  lemma InputsStep(files: seq<seq<byte>>, h: seq<File?>, names: seq<cstring>)
    requires Files(files) && NoNull(h) && names != []
    ensures var n := |names| - 1;
            Inputs(files, h, names, |names|) <==> Inputs(files, h, names[..n], n) && InputOK(files, h, names[n])
  {
    hide InputOK;
    var rest := names[..|names| - 1];
    assert forall i :: 0 <= i < |rest| ==> rest[i] == names[i];
  }

  /** What opening the output does to the inputs: nothing, but that the output is none of them. */
  lemma {:induction false} OutputOpen(files0: seq<seq<byte>>, ch0: seq<seq<nat>>, files: seq<seq<byte>>,
      h: seq<File?>, dest: File, names: seq<cstring>, target: cstring)
    requires Ordered(files0, ch0) && Opened(files0, files, target, dest.slot) && EndsOnce(files[0]) && NoNull(h)
    requires dest.mode != F_READ && forall i :: 0 <= i < |names| ==> !FindsDead(files0[0], names[i])
    requires |Content(files, dest.slot)| <= |Held(files0, target)|
    ensures Files(files) && NoNull(h + [dest]) && forall i :: 0 <= i < |names| ==> !FindsDead(files[0], names[i])
    ensures Inputs(files, h + [dest], names, |names|) <==> target !in names && Inputs(files0, h, names, |names|)
    ensures |Concat(files, names)| <= |Concat(files0, names)|
    ensures target !in names ==> Concat(files, names) == Concat(files0, names)
    decreases |names|
  {
    hide Opened, FindsDead, InputOK, Content, Entry, Slots, FindSlot, EndsOnce, DirOK, UniqueNames, Catalog, NameOf,
        Listed, Ghostly, Assign;
    OpenedFacts(files0, files, target, dest.slot);
    if names != [] {
      hide Inputs, Concat, Held;
      var n := |names| - 1;
      var rest := names[..n];
      LastName(names, target);
      OutputOpen(files0, ch0, files, h, dest, rest, target);
      OutputApart(files0, ch0, files, h, dest, names[n], target);
      InputsStep(files, h + [dest], names);
      InputsStep(files0, h, names);
      ConcatLast(files, names);
      ConcatLast(files0, names);
    }
  }

  lemma LastName(names: seq<cstring>, nm: cstring)
    requires names != []
    ensures var rest := names[..|names| - 1];
            && (forall i :: 0 <= i < |rest| ==> rest[i] == names[i])
            && (nm in names <==> nm in rest || nm == names[|names| - 1])
  {
    assert names == names[..|names| - 1] + [names[|names| - 1]];
  }

  lemma ConcatLast(files: seq<seq<byte>>, names: seq<cstring>)
    requires Files(files) && names != []
    ensures Concat(files, names) == Concat(files, names[..|names| - 1]) + Held(files, names[|names| - 1])
  {}

  lemma OutputApart(files0: seq<seq<byte>>, ch0: seq<seq<nat>>, files: seq<seq<byte>>, h: seq<File?>, dest: File,
      nm: cstring, target: cstring)
    requires Ordered(files0, ch0) && Opened(files0, files, target, dest.slot) && EndsOnce(files[0]) && NoNull(h)
    requires dest.mode != F_READ && !FindsDead(files0[0], nm) && |Content(files, dest.slot)| <= |Held(files0, target)|
    ensures Files(files) && NoNull(h + [dest]) && !FindsDead(files[0], nm)
    ensures InputOK(files, h + [dest], nm) <==> nm != target && InputOK(files0, h, nm)
    ensures |Held(files, nm)| <= |Held(files0, nm)| && (nm != target ==> Held(files, nm) == Held(files0, nm))
  {
    hide Entry, Slots, NameOf, Catalog, Content, UniqueNames, FindSlot, EndsOnce, DirOK;
    var h' := h + [dest];
    assert h'[|h|] == dest;
    if nm == target {
      FirstChar(Entry(files[0], dest.slot));
      assert h'[|h|].slot == FindSlot(files[0], nm, 0);
    } else {
      OtherSearch(files0, files, ch0, target, dest.slot, nm);
      var r := FindSlot(files0[0], nm, 0);
      if r != -1 {
        OpenedOther(files0, files, target, dest.slot, r);
        StillLocked(h, dest, r);
      }
    }
  }

  lemma StillLocked(h: seq<File?>, f: File, k: nat)
    requires NoNull(h) && f.slot != k
    ensures NoNull(h + [f]) && (Locked(h + [f], k, F_READ) <==> Locked(h, k, F_READ))
  {
    if Locked(h, k, F_READ) {
      var i :| 0 <= i < |h| && h[i].slot == k && h[i].mode != F_READ;
      assert (h + [f])[i] == h[i];
    }
  }

  /** Room in the output for all inputs, from what was there before it was opened. */
  lemma OutputRoom(fs: FileSystem, f: File, kept: nat, len: nat, most: nat, free0: nat)
    requires fs.Valid() && f.slot < Slots(fs.Dir()) && |ContentAt(fs, f)| <= kept && len <= most
    requires fs.vol.Free() + |fs.vol.ch[f.slot + 1]| + 1 >= free0
    requires fs.vol.fat.Length <= EOF || 1 + CeilDiv(kept + most, fs.vol.blockSize) <= free0
    ensures RoomFor(fs, f, |ContentAt(fs, f)| + len)
  {
    hide FileSystem.Base, Rep, TableOK, DirOK, Entry, Slots, Content, CeilDiv, May;
    CeilDivMono(|ContentAt(fs, f)| + len, kept + most, fs.vol.blockSize);
  }

  /**
   * cat FILE ... -w OUTPUT or -a OUTPUT: the output ends up holding what it kept (nothing with -w) followed by the
   * inputs in order, exactly when every file is there, permitted and unlocked, the output is none of the inputs, and
   * the blocks suffice. Other names are untouched in any case.
   */
  method Cat(fs: FileSystem, names: seq<cstring>, target: cstring, mode: Mode) returns (ok: bool)
    requires fs.Valid() && mode != F_READ && names != [] && !FindsDead(fs.Dir(), target)
    requires forall i :: 0 <= i < |names| ==> !FindsDead(fs.Dir(), names[i])
    requires Files(fs.vol.files) && fs.vol.blockSize > 0 && (mode == F_APPEND ==> Sound(fs.vol.files, target))
    requires fs.vol.Roomy(1 + CeilDiv(|Held(fs.vol.files, target)| + |Concat(fs.vol.files, names)|, fs.vol.blockSize))
    modifies fs`openFiles, fs`openedCount, fs.openFiles, fs.vol`errno, fs.vol`files, fs.vol`ch, fs.vol.fat, fs.vol.data
    ensures fs.Valid() && fs.Handles() == old(fs.Handles())
    ensures Ordered(old(fs.vol.files), old(fs.vol.ch)) && Ordered(fs.vol.files, fs.vol.ch) && NoNull(old(fs.Handles()))
    ensures ok <==>
              CatWorks(old(fs.vol.files), old(fs.vol.ch), old(fs.vol.Free()), old(fs.Handles()), fs.vol.blockSize,
                names, target, mode)
    ensures ok ==>
        var c := (if mode == F_APPEND then Held(old(fs.vol.files), target) else []) + Concat(old(fs.vol.files), names);
        Held(fs.vol.files, target) == c && Catalog(fs.vol.files) == Assign(Catalog(old(fs.vol.files)), target, c)
    ensures Catalog(fs.vol.files) - {target} == Catalog(old(fs.vol.files)) - {target}
  {
    hide FileSystem.Base, FileSystem.Valid, TableOK, Entry, Slots, FindSlot, Catalog, Content, Listed, May, SizeOf,
        EntriesOK, EndsOnce, UniqueNames, CeilDiv, OneSlot, Opened, AtEnd, RoomFor, Sound, Inputs, Concat, FindsDead,
        FreeSet, CanOpen, Reach, TightKept, Assign, Ghostly, NameOf, PermOf, Mark;
    Shaped(fs);
    ghost var files0, ch0, h0, n := fs.vol.files, fs.vol.ch, fs.Handles(), |fs.Handles()|;
    CeilDivMono(0, |Held(files0, target)| + |Concat(files0, names)|, fs.vol.blockSize);
    var dest := OpenNamed(fs, target, mode);
    Shaped(fs);
    if dest == null { return false; }
    LastTracked(fs, n);
    ghost var f1, c1 := fs.vol.files, fs.vol.ch;
    OpenedFacts(files0, f1, target, dest.slot);
    OutputOpen(files0, ch0, f1, h0, dest, names, target);
    ReachBounds(files0, ch0, old(fs.vol.Free()), target);
    OutputRoom(fs, dest, |Held(files0, target)|, |Concat(f1, names)|, |Concat(files0, names)|, old(fs.vol.Free()));
    ok := CatLoop(fs, dest, names, n);
    Shaped(fs);
    OneSlotSearch(f1, c1, fs.vol.files, fs.vol.ch, dest.slot, target);
    OneSlotAssign(f1, c1, fs.vol.files, fs.vol.ch, dest.slot, target);
    AssignTwice(Catalog(files0), target, Content(f1, dest.slot), ContentAt(fs, dest));
    CloseNamed(fs, dest, n);
  }
}
