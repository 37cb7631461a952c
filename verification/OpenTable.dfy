/**
 * Entry addresses, the open-file table, and what the calls do to directory and table, all as values.
 * Line numbers are those of src/fs/fat.c.
 */
module OpenTable {
  import opened Bytes
  import opened Directory
  import opened Errno
  import opened Fat
  import opened Store
  import opened Volumes

  datatype Mode = F_WRITE | F_READ | F_APPEND

  // ---- where entries lie ----

  /** The block of the root chain that holds entry `k`, and the place in it. */
  function BlockIndex(bs: nat, k: nat): nat
    requires bs > 0
  {
    ENTRY_SIZE * k / bs
  }

  function BlockPlace(bs: nat, k: nat): nat
    requires bs > 0
  {
    ENTRY_SIZE * k % bs
  }

  /** Block sizes are multiples of the entry size, so that no entry straddles two blocks. */
  lemma EntryPlace(bs: nat, n: nat, k: nat)
    requires bs > 0 && bs % ENTRY_SIZE == 0 && ENTRY_SIZE * k < bs * n
    ensures BlockIndex(bs, k) < n && At(bs, BlockIndex(bs, k), BlockPlace(bs, k)) == ENTRY_SIZE * k
    ensures BlockPlace(bs, k) + ENTRY_SIZE <= bs
    ensures ENTRY_SIZE * k + ENTRY_SIZE <= bs * n
  {
    var i, o := BlockIndex(bs, k), BlockPlace(bs, k);
    assert ENTRY_SIZE * k == bs * i + o;
    if i >= n { MulMono(bs, n, i); }
    MulMono(bs, i + 1, n);
    MulStep(bs, i);
    RestFits(bs / ENTRY_SIZE, k, i, o);
  }

  lemma RestFits(u: nat, k: nat, i: nat, o: nat)
    requires ENTRY_SIZE * k == (ENTRY_SIZE * u) * i + o && o < ENTRY_SIZE * u
    ensures o + ENTRY_SIZE <= ENTRY_SIZE * u
  {
    assert (ENTRY_SIZE * u) * i == ENTRY_SIZE * (u * i);
    assert o == ENTRY_SIZE * (k - u * i);
  }

  lemma AtMore(bs: nat, i: nat, o: nat, n: nat)
    ensures At(bs, i, o + n) == At(bs, i, o) + n
  {}

  lemma Split(bs: nat, offset: nat) returns (q: nat, o: nat)
    requires bs > 0
    ensures offset == At(bs, q, o) && o < bs && q == offset / bs && o == offset % bs
  {
    q, o := offset / bs, offset % bs;
  }

  lemma ListingStep(d: seq<byte>, k: nat)
    requires k <= Slots(d)
    ensures if k == Slots(d) || Entry(d, k)[0] == 0 then Listing(d, k) == []
            else Listing(d, k) == (if 2 < Entry(d, k)[0] < 0x80 then [Entry(d, k)] else []) + Listing(d, k + 1)
  {}

  lemma SizeBelow(bs: nat, q: nat, o: nat)
    ensures At(bs, q, o) >= o
  {}

  /** Inside a chain of `n` blocks, a place is inside one of them. */
  lemma InChain(bs: nat, n: nat, q: nat, o: nat, len: nat)
    requires o < bs && At(bs, q, o) + len <= bs * n && len > 0
    ensures q < n
  {
    if q >= n { MulMono(bs, n, q); }
  }

  /** A read of the first `len` bytes of entry `k`, or of the end of the directory. */
  lemma GotEntry(d: seq<byte>, k: nat, len: nat, b: seq<byte>)
    requires |d| == ENTRY_SIZE * Slots(d) && k <= Slots(d) && |b| == len <= ENTRY_SIZE
    ensures k < Slots(d) ==>
              Splice(b, 0, Got(d, ENTRY_SIZE * k, len)) == Got(d, ENTRY_SIZE * k, len) == Entry(d, k)[..len]
    ensures k == Slots(d) ==> Got(d, ENTRY_SIZE * k, len) == [] && Splice(b, 0, []) == b
  {}

  /** One turn of the search loop. */
  lemma FindStep(d: seq<byte>, ch: seq<seq<nat>>, fname: cstring, k: nat, buf: seq<byte>)
    requires DirOK(d, ch) && k < Slots(d) && buf == Entry(d, k)[..NAME_LEN]
    ensures FindSlot(d, fname, k) ==
            if buf[0] == 0 then -1 else if SameName(buf, fname, 0) then k else FindSlot(d, fname, k + 1)
  {
    if buf[0] != 0 {
      assert NamedOK(Entry(d, k));
      MatchIs(Entry(d, k), fname);
    }
  }

  lemma FindEnd(d: seq<byte>, fname: cstring)
    ensures FindSlot(d, fname, Slots(d)) == -1
  {}

  function EntryAddr(bs: nat, root: seq<nat>, k: nat): nat
    requires bs > 0 && BlockIndex(bs, k) < |root| && root[BlockIndex(bs, k)] >= 1
  {
    Addr(bs, root[BlockIndex(bs, k)], BlockPlace(bs, k))
  }

  /** Entry pointers are equal only when the slots are. */
  lemma EntryAddrInjective(bs: nat, root: seq<nat>, k: nat, k': nat)
    requires bs > 0 && BlockIndex(bs, k) < |root| && BlockIndex(bs, k') < |root|
    requires forall i :: 0 <= i < |root| ==> root[i] >= 1
    requires forall i, i' :: 0 <= i < i' < |root| ==> root[i] != root[i']
    requires EntryAddr(bs, root, k) == EntryAddr(bs, root, k')
    ensures k == k'
  {
    var i, i' := BlockIndex(bs, k), BlockIndex(bs, k');
    var o, o' := BlockPlace(bs, k), BlockPlace(bs, k');
    DivUnique(bs, root[i] - 1, o);
    DivUnique(bs, root[i'] - 1, o');
    assert root[i] == root[i'] && o == o';
    assert i == i';
    assert ENTRY_SIZE * k == bs * i + o && ENTRY_SIZE * k' == bs * i' + o';
  }

  /** `addr` is the address of entry `k` of the directory `d` on the chain `root`. */
  ghost predicate PointsAt(bs: nat, root: seq<nat>, d: seq<byte>, addr: nat, k: nat) {
    && bs > 0 && k < Slots(d)
    && BlockIndex(bs, k) < |root| && root[BlockIndex(bs, k)] >= 1
    && addr == EntryAddr(bs, root, k)
  }

  class File {
    const entry: nat   // the address of the directory entry
    const mode: Mode
    var offset: u32
    ghost const slot: nat

    constructor (entry: nat, mode: Mode, offset: u32, ghost slot: nat)
      ensures this.entry == entry && this.mode == mode && this.offset == offset && this.slot == slot
    {
      this.entry, this.mode, this.offset, this.slot := entry, mode, offset, slot;
    }
  }

  // ---- the open-file table as a value ----

  /** Two handles may share an entry only for reading. */
  ghost predicate Compatible(f: File, g: File) {
    f.slot == g.slot ==> f.mode == F_READ && g.mode == F_READ
  }

  /** Every handle points at a live entry; no handle is listed twice; writers are alone. */
  ghost predicate TableOK(h: seq<File?>, bs: nat, root: seq<nat>, d: seq<byte>) {
    && (forall i :: 0 <= i < |h| ==>
          h[i] != null && PointsAt(bs, root, d, h[i].entry, h[i].slot) && Live(Entry(d, h[i].slot)))
    && (forall i, i' :: 0 <= i < i' < |h| ==> h[i] != h[i'] && Compatible(h[i], h[i']))
  }

  function CountEntry(h: seq<File?>, addr: nat): nat
    requires forall i :: 0 <= i < |h| ==> h[i] != null
  {
    if h == [] then 0 else CountEntry(h[..|h| - 1], addr) + if h[|h| - 1].entry == addr then 1 else 0
  }

  /** The table after the last handle took the place of handle `i`. */
  function SwapRemove(h: seq<File?>, i: nat): (r: seq<File?>)
    requires i < |h|
    ensures |r| == |h| - 1
    ensures forall k :: 0 <= k < |r| ==> r[k] == if k == i then h[|h| - 1] else h[k]
  {
    if i == |h| - 1 then h[..i] else h[..|h| - 1][i := h[|h| - 1]]
  }

  /**
   * What fs_trackclose reports for the handle at `i`: the handles left on its entry, plus one if it was the last in
   * the table.
   */
  function CloseCount(h: seq<File?>, i: nat): nat
    requires i < |h| && forall k :: 0 <= k < |h| ==> h[k] != null
  {
    CountEntry(SwapRemove(h, i), h[i].entry) + if i == |h| - 1 then 1 else 0
  }

  lemma CountStep(h: seq<File?>, i: nat, addr: nat)
    requires i < |h| && forall k :: 0 <= k < |h| ==> h[k] != null
    ensures CountEntry(h[..i + 1], addr) == CountEntry(h[..i], addr) + if h[i].entry == addr then 1 else 0
  {
    assert h[..i + 1][..i] == h[..i];
  }

  lemma CountNone(addr: nat)
    ensures CountEntry([], addr) == 0
  {}

  lemma {:induction false} CountZero(h: seq<File?>, addr: nat)
    requires forall i :: 0 <= i < |h| ==> h[i] != null
    ensures CountEntry(h, addr) == 0 <==> forall i :: 0 <= i < |h| ==> h[i].entry != addr
  {
    if h != [] {
      var t := h[..|h| - 1];
      assert forall i :: 0 <= i < |t| ==> t[i] == h[i];
      CountZero(t, addr);
    }
  }

  /**
   * A close reports zero, and so deletes an unlinked file, exactly when no other handle shares the entry
   * and the handle was not the last one in the table.
   */
  lemma CloseReportsZero(h: seq<File?>, i: nat)
    requires i < |h| && forall k :: 0 <= k < |h| ==> h[k] != null
    ensures CloseCount(h, i) == 0 <==>
            (i != |h| - 1 && forall k :: 0 <= k < |h| && k != i ==> h[k].entry != h[i].entry)
  {
    var r := SwapRemove(h, i);
    CountZero(r, h[i].entry);
    if i != |h| - 1 && forall k :: 0 <= k < |r| ==> r[k].entry != h[i].entry {
      assert r[i] == h[|h| - 1];
      assert forall k :: 0 <= k < |r| && k != i ==> h[k] == r[k];
    }
  }

  /**
   * The loop of fs_trackclose before its i-th turn: the table is `cur`, `count` handles on that entry have been
   * passed.
   */
  ghost predicate CloseTurn(h: seq<File?>, idx: nat, addr: nat, i: nat, cur: seq<File?>, count: nat) {
    && idx < |h| && (forall k :: 0 <= k < |h| ==> h[k] != null && (h[k] == h[idx] <==> k == idx))
       && h[idx].entry == addr
    && if i <= idx then cur == h && count == CountEntry(h[..i], addr)
       else
         && cur == SwapRemove(h, idx) && i <= |h|
         && if idx == |h| - 1 then count == CountEntry(cur, addr) + 1
            else i <= |cur| && count == CountEntry(cur[..i], addr)
  }

  lemma TurnStart(h: seq<File?>, idx: nat, addr: nat)
    requires idx < |h| && forall k :: 0 <= k < |h| ==> h[k] != null && (h[k] == h[idx] <==> k == idx)
    requires h[idx].entry == addr
    ensures CloseTurn(h, idx, addr, 0, h, 0)
  {
    CountNone(addr);
  }

  lemma TurnHere(h: seq<File?>, idx: nat, i: nat, cur: seq<File?>, count: nat)
    requires idx < |h| && h[idx] != null && CloseTurn(h, idx, h[idx].entry, i, cur, count) && i < |cur|
    ensures cur[i] != null && (cur[i] == h[idx] <==> i == idx) && (i == idx ==> cur == h) && |h| > 0 && i < |h|
    ensures h[|h| - 1] != null && (idx == |h| - 1 ==> i <= idx)
  {
    hide CountEntry;
  }

  /** One turn: at the handle closed the last one is looked at instead. */
  lemma TurnDone(h: seq<File?>, idx: nat, i: nat, cur: seq<File?>, count: nat, cur': seq<File?>, count': nat)
    requires idx < |h| && h[idx] != null && CloseTurn(h, idx, h[idx].entry, i, cur, count) && i < |cur|
    requires cur' == if i == idx then SwapRemove(h, idx) else cur
    requires var f := if i == idx then h[|h| - 1] else cur[i];
             f != null && count' == count + if f.entry == h[idx].entry then 1 else 0
    ensures CloseTurn(h, idx, h[idx].entry, i + 1, cur', count')
  {
    hide CountEntry;
    var addr := h[idx].entry;
    if i < idx {
      CountStep(h, i, addr);
    } else if i == idx {
      if idx == |h| - 1 {
        assert h[..idx] == cur';
      } else {
        assert h[..i] == cur'[..i];
        CountStep(cur', i, addr);
      }
    } else {
      CountStep(cur, i, addr);
    }
  }

  lemma TurnLast(h: seq<File?>, idx: nat, addr: nat, i: nat, cur: seq<File?>, count: nat)
    requires CloseTurn(h, idx, addr, i, cur, count) && i >= |cur|
    ensures cur == SwapRemove(h, idx) && count == CloseCount(h, idx)
  {
    hide CountEntry;
    if idx != |h| - 1 { assert cur[..i] == cur; }
  }

  lemma RemoveKeepsTable(h: seq<File?>, i: nat, bs: nat, root: seq<nat>, d: seq<byte>)
    requires i < |h| && TableOK(h, bs, root, d)
    ensures TableOK(SwapRemove(h, i), bs, root, d)
  {}

  /** Changing an entry in place leaves the table in order as long as the entry lives or nobody has it open. */
  lemma PutKeepsTable(h: seq<File?>, bs: nat, root: seq<nat>, d: seq<byte>, k: nat, e: entry)
    requires TableOK(h, bs, root, d) && k < Slots(d)
    requires Live(e) || forall i :: 0 <= i < |h| ==> h[i].slot != k
    ensures TableOK(h, bs, root, PutEntry(d, k, e))
  {
    hide PutEntry, Entry, Slots;
    forall i | 0 <= i < |h|
      ensures Live(Entry(PutEntry(d, k, e), h[i].slot))
    {
      PutGet(d, k, e, h[i].slot);
    }
  }

  lemma AddKeepsTable(h: seq<File?>, bs: nat, root: seq<nat>, d: seq<byte>, f: File)
    requires TableOK(h, bs, root, d)
    requires PointsAt(bs, root, d, f.entry, f.slot) && Live(Entry(d, f.slot))
    requires forall i :: 0 <= i < |h| ==> h[i] != f && Compatible(h[i], f)
    ensures TableOK(h + [f], bs, root, d)
  {}

  /** Entry addresses tell slots apart. */
  lemma SameEntry(h: seq<File?>, bs: nat, root: seq<nat>, d: seq<byte>, addr: nat, k: nat)
    requires TableOK(h, bs, root, d) && PointsAt(bs, root, d, addr, k)
    requires forall i :: 0 <= i < |root| ==> root[i] >= 1
    requires forall i, i' :: 0 <= i < i' < |root| ==> root[i] != root[i']
    ensures forall i :: 0 <= i < |h| ==> (h[i].entry == addr <==> h[i].slot == k)
  {
    forall i | 0 <= i < |h| && h[i].entry == addr
      ensures h[i].slot == k
    {
      EntryAddrInjective(bs, root, h[i].slot, k);
    }
  }

  /** When a close reports zero, no handle is left on that slot. */
  lemma NoneLeft(h: seq<File?>, idx: nat, bs: nat, root: seq<nat>, d: seq<byte>)
    requires idx < |h| && TableOK(h, bs, root, d) && CloseCount(h, idx) == 0
    requires forall i :: 0 <= i < |root| ==> root[i] >= 1
    requires forall i, i' :: 0 <= i < i' < |root| ==> root[i] != root[i']
    ensures forall i :: 0 <= i < |SwapRemove(h, idx)| ==> SwapRemove(h, idx)[i].slot != h[idx].slot
  {
    CloseReportsZero(h, idx);
    SameEntry(h, bs, root, d, h[idx].entry, h[idx].slot);
  }

  /** The entry of a file that is deleted for good; or of one that was, and names no block. */
  lemma Dropped(d: seq<byte>, ch: seq<seq<nat>>, k: nat)
    requires DirOK(d, ch) && k < Slots(d) && Mark(Entry(d, k)) != 0
    requires Live(Entry(d, k)) || BlockOf(Entry(d, k)) == 0
    ensures DirOK(PutEntry(d, k, WithMark(Entry(d, k), 1)), ch[k + 1 := []])
    ensures BlockOf(WithMark(Entry(d, k), 1)) == BlockOf(Entry(d, k))
    ensures if ch[k + 1] == [] then BlockOf(Entry(d, k)) == 0 else BlockOf(Entry(d, k)) == ch[k + 1][0]
  {
    var e := Entry(d, k);
    assert SlotOK(e, ch[k + 1]) && NamedOK(e);
    FirstChar(e);
    MarkField(e, 1);
    DeadPlaceable(d, ch, k, WithMark(e, 1));
    DirUpdate(d, ch, k, WithMark(e, 1), []);
  }

  ghost predicate OpenOn(h: seq<File?>, k: int)
    requires forall i :: 0 <= i < |h| ==> h[i] != null
  {
    exists i :: 0 <= i < |h| && h[i].slot == k
  }

  /**
   * What fs_unlink takes for a file in use: some open handle's entry bears the same name. For two files unlinked while
   * open the names may coincide.
   */
  ghost predicate Busy(h: seq<File?>, d: seq<byte>, k: int)
    requires forall i :: 0 <= i < |h| ==> h[i] != null && h[i].slot < Slots(d)
    requires -1 <= k < Slots(d)
  {
    k != -1 && exists i :: 0 <= i < |h| && NameOf(Entry(d, h[i].slot)) == NameOf(Entry(d, k))
  }

  lemma NotBusy(h: seq<File?>, d: seq<byte>)
    requires forall i :: 0 <= i < |h| ==> h[i] != null && h[i].slot < Slots(d)
    ensures !Busy(h, d, -1) && !OpenOn(h, -1)
  {}

  /** The comparison of fs_unlink. */
  lemma NamesCompared(e: entry, e': entry)
    ensures SameName(e[..NAME_LEN], e'[..NAME_LEN], 0) <==> NameOf(e) == NameOf(e')
  {
    SameNameIs(e[..NAME_LEN], e'[..NAME_LEN], 0);
  }

  /** Nobody has a file open that is not in use; and for a listed name that is all there is to it. */
  lemma BusyIs(h: seq<File?>, bs: nat, root: seq<nat>, d: seq<byte>, ch: seq<seq<nat>>, k: nat)
    requires TableOK(h, bs, root, d) && DirOK(d, ch) && k < Slots(d)
    ensures OpenOn(h, k) ==> Busy(h, d, k)
    ensures Listed(Entry(d, k)) ==> (OpenOn(h, k) <==> Busy(h, d, k))
    ensures Mark(Entry(d, k)) == 1 ==> !Busy(h, d, k)
  {
    hide Slots, Entry, EntryAddr;
    if Busy(h, d, k) && (Listed(Entry(d, k)) || Mark(Entry(d, k)) == 1) {
      var i :| 0 <= i < |h| && NameOf(Entry(d, h[i].slot)) == NameOf(Entry(d, k));
      FirstChar(Entry(d, h[i].slot));
      FirstChar(Entry(d, k));
      if Listed(Entry(d, k)) {
        assert h[i].slot == k;
      } else {
        assert false;
      }
    }
  }

  /** Among live entries a listed name occurs once, so comparing names is comparing slots. */
  lemma NameTells(d: seq<byte>, ch: seq<seq<nat>>, s: nat, k: nat)
    requires DirOK(d, ch) && s < Slots(d) && k < Slots(d) && Live(Entry(d, s)) && Listed(Entry(d, k))
    ensures SameName(Entry(d, s)[..NAME_LEN], Entry(d, k)[..NAME_LEN], 0) <==> s == k
  {
    assert NamedOK(Entry(d, s)) && NamedOK(Entry(d, k));
    SameNameIs(Entry(d, s)[..NAME_LEN], Entry(d, k)[..NAME_LEN], 0);
    FirstChar(Entry(d, s));
    FirstChar(Entry(d, k));
    assert NameOf(Entry(d, s)) == NameOf(Entry(d, k)) ==> Listed(Entry(d, s));
  }

  /** What a successful search finds when the name is not one no file can have. */
  lemma FoundListed(d: seq<byte>, ch: seq<seq<nat>>, fname: cstring)
    requires DirOK(d, ch) && !Ghostly(fname) && FindSlot(d, fname, 0) != -1
    ensures Listed(Entry(d, FindSlot(d, fname, 0))) && NameOf(Entry(d, FindSlot(d, fname, 0))) == fname
  {
    var k := FindSlot(d, fname, 0);
    FindSlotIs(d, fname, 0);
    assert NamedOK(Entry(d, k));
    FirstChar(Entry(d, k));
  }

  /** The entry of a file unlinked while open: it keeps its chain. */
  lemma Unlinked(d: seq<byte>, ch: seq<seq<nat>>, k: nat)
    requires DirOK(d, ch) && k < Slots(d) && Live(Entry(d, k))
    ensures DirOK(PutEntry(d, k, WithMark(Entry(d, k), 2)), ch)
    ensures Live(WithMark(Entry(d, k), 2))
  {
    var e := Entry(d, k);
    assert SlotOK(e, ch[k + 1]) && NamedOK(e);
    FirstChar(e);
    MarkField(e, 2);
    DeadPlaceable(d, ch, k, WithMark(e, 2));
    DirUpdate(d, ch, k, WithMark(e, 2), ch[k + 1]);
    assert ch[k + 1 := ch[k + 1]] == ch;
  }

  ghost function UnlinkFiles(files: seq<seq<byte>>, k: int, open: bool): (r: seq<seq<byte>>)
    requires |files| > 0 && |files| == 1 + Slots(files[0]) && -1 <= k < Slots(files[0])
    ensures |r| == |files| && |r[0]| == |files[0]|
  {
    if k == -1 then files
    else if open then files[0 := PutEntry(files[0], k, WithMark(Entry(files[0], k), 2))]
    else PutFile(files, k, WithMark(Entry(files[0], k), 1), [])
  }

  ghost function UnlinkChains(ch: seq<seq<nat>>, k: int, open: bool): (r: seq<seq<nat>>)
    requires -1 <= k < |ch| - 1
    ensures |r| == |ch|
  {
    if k == -1 || open then ch else ch[k + 1 := []]
  }

  /** How many blocks a removal gives back. */
  ghost function UnlinkFrees(ch: seq<seq<nat>>, k: int, open: bool): nat
    requires -1 <= k < |ch| - 1
  {
    if k == -1 || open then 0 else |ch[k + 1]|
  }

  ghost function RenameFiles(files: seq<seq<byte>>, k: nat, name: cstring): seq<seq<byte>>
    requires |files| > 0 && k < Slots(files[0]) && |name| < NAME_LEN
  {
    files[0 := PutEntry(files[0], k, WithName(Entry(files[0], k), name))]
  }

  lemma ValidNotGhostly(name: cstring)
    requires ValidName(name)
    ensures !Ghostly(name) && 0 < |name| < NAME_LEN
  {
    assert NameChar(name[0]);
  }

  lemma NotDead(d: seq<byte>, name: cstring)
    requires ValidName(name)
    ensures !FindsDead(d, name) && !FindsStale(d, name)
  {
    assert NameChar(name[0]);
  }

  /** After a removal no entry is listed under the name removed. */
  lemma NoNameLeft(files: seq<seq<byte>>, ch: seq<seq<nat>>, name: cstring, open: bool, s: nat)
    requires |files| > 0 && |files| == 1 + Slots(files[0]) && DirOK(files[0], ch) && !Ghostly(name)
    requires s < Slots(files[0])
    ensures var t := FindSlot(files[0], name, 0);
            var d := UnlinkFiles(files, t, open)[0];
            Listed(Entry(d, s)) ==> NameOf(Entry(d, s)) != name && Entry(d, s) == Entry(files[0], s)
  {
    hide Entry, Slots, NameOf, PutEntry, FindSlot;
    var t := FindSlot(files[0], name, 0);
    FindSlotIs(files[0], name, 0);
    if t != -1 {
      FoundListed(files[0], ch, name);
      PutGet(files[0], t, WithMark(Entry(files[0], t), if open then 2 else 1), s);
    }
  }

  /** The entry renamed still fits what it owns, and its slot. */
  lemma RenamedEntry(files: seq<seq<byte>>, ch: seq<seq<nat>>, k: nat, t: int, newname: cstring, open: bool)
    requires |files| > 0 && |files| == 1 + Slots(files[0]) && DirOK(files[0], ch)
    requires k < Slots(files[0]) && Mark(Entry(files[0], k)) != 0 && -1 <= t < Slots(files[0])
             && 0 < |newname| < NAME_LEN
    requires Live(Entry(files[0], k)) || (k != t && BlockOf(Entry(files[0], k)) == 0)
    requires k == t ==> open || ch[k + 1] == []
    ensures var e1 := Entry(UnlinkFiles(files, t, open)[0], k);
            Mark(e1) != 0 && (newname[0] > 2 ==> SlotOK(WithName(e1, newname), UnlinkChains(ch, t, open)[k + 1]))
  {
    hide Slots, NameOf, PutEntry, Entry;
    var e := Entry(files[0], k);
    assert SlotOK(e, ch[k + 1]) && NamedOK(e);
    FirstChar(e);
    MarkField(e, 1);
    MarkField(e, 2);
    if t != -1 {
      PutGet(files[0], t, WithMark(Entry(files[0], t), if open then 2 else 1), k);
    }
    NameField(Entry(UnlinkFiles(files, t, open)[0], k), newname);
  }

  lemma Renamed(files: seq<seq<byte>>, ch: seq<seq<nat>>, k: nat, oldname: cstring, t: int, newname: cstring,
      open: bool)
    requires |files| > 0 && |ch| == |files| == 1 + Slots(files[0]) && DirOK(files[0], ch)
    requires k == FindSlot(files[0], oldname, 0) && !FindsStale(files[0], oldname)
    requires t == FindSlot(files[0], newname, 0) && ValidName(newname)
    requires k == t ==> open || ch[k + 1] == []
    requires DirOK(UnlinkFiles(files, t, open)[0], UnlinkChains(ch, t, open))
    ensures var d := UnlinkFiles(files, t, open)[0];
            Live(WithName(Entry(d, k), newname))
            && DirOK(PutEntry(d, k, WithName(Entry(d, k), newname)), UnlinkChains(ch, t, open))
  {
    hide Entry, Slots, NameOf, PutEntry, FindSlot, EntriesOK, UniqueNames;
    var d, c := UnlinkFiles(files, t, open)[0], UnlinkChains(ch, t, open);
    var e1 := Entry(d, k);
    var e := WithName(e1, newname);
    FoundEntry(files[0], ch, oldname);
    ValidNotGhostly(newname);
    if t != -1 { FoundListed(files[0], ch, newname); }
    assert NameChar(newname[0]);
    RenamedEntry(files, ch, k, t, newname, open);
    NameField(e1, newname);
    forall s | 0 <= s < Slots(d)
      ensures Listed(Entry(d, s)) ==> NameOf(Entry(d, s)) != newname
    {
      NoNameLeft(files, ch, newname, open, s);
    }
    assert Placeable(d, k, e);
    DirUpdate(d, c, k, e, c[k + 1]);
    assert c[k + 1 := c[k + 1]] == c;
  }

  /** A directory grown by a zeroed block is in order, and every handle still points where it did. */
  lemma RootGrown(bs: nat, h: seq<File?>, d: seq<byte>, ch: seq<seq<nat>>, root: seq<nat>)
    requires bs > 0 && bs % ENTRY_SIZE == 0 && ch != [] && ch[0] <= root
    requires DirOK(d, ch) && TableOK(h, bs, ch[0], d) && FirstUnused(d, 0) == Slots(d)
    ensures var d' := d + Zeros(bs);
            DirOK(d', ch[0 := root] + seq(bs / ENTRY_SIZE, _ => [])) && TableOK(h, bs, root, d')
            && Slots(d') == Slots(d) + bs / ENTRY_SIZE && |d'| == ENTRY_SIZE * Slots(d')
  {
    var n := bs / ENTRY_SIZE;
    assert bs == ENTRY_SIZE * n;
    DirGrow(d, ch, root, n);
    hide Entry, Slots, EntryAddr;
    forall i | 0 <= i < |h|
      ensures PointsAt(bs, root, d + Zeros(bs), h[i].entry, h[i].slot) && Live(Entry(d + Zeros(bs), h[i].slot))
    {
      SameAddr(bs, ch[0], root, h[i].slot);
    }
  }

  ghost function GrownFiles(files: seq<seq<byte>>, bs: nat): seq<seq<byte>>
    requires files != []
  {
    files[0 := files[0] + Zeros(bs)] + seq(bs / ENTRY_SIZE, _ => [])
  }

  /** How many blocks the directory takes for one more file. */
  ghost function DirGrowth(d: seq<byte>): nat {
    if FirstUnused(d, 0) == Slots(d) then 1 else 0
  }

  /** The chains and bytes after a file has been created: the directory grows when every slot is in use. */
  ghost function MadeFiles(files: seq<seq<byte>>, bs: nat, name: cstring): seq<seq<byte>>
    requires files != [] && |name| < NAME_LEN && bs >= ENTRY_SIZE
  {
    var k := FirstUnused(files[0], 0);
    var g := if k < Slots(files[0]) then files else GrownFiles(files, bs);
    g[0 := PutEntry(g[0], k, NewEntry(Entry(g[0], k), name))]
  }

  /** The chains of all files are kept; the root chain may have grown, for more slots that own nothing yet. */
  ghost predicate ChainsKept(ch0: seq<seq<nat>>, ch: seq<seq<nat>>) {
    && 0 < |ch0| <= |ch| && ch0[0] <= ch[0]
    && (forall j :: 1 <= j < |ch0| ==> ch[j] == ch0[j])
    && (forall j :: |ch0| <= j < |ch| ==> ch[j] == [])
  }

  lemma KeepsChains(ch: seq<seq<nat>>)
    requires ch != []
    ensures ChainsKept(ch, ch)
  {}

  /** Growing the directory puts the first unused slot right behind the old ones, and adds no name. */
  lemma GrownSearch(bs: nat, d: seq<byte>, ch: seq<seq<nat>>, name: cstring)
    requires bs >= ENTRY_SIZE && bs % ENTRY_SIZE == 0 && DirOK(d, ch) && FirstUnused(d, 0) == Slots(d)
    ensures FirstUnused(d + Zeros(bs), 0) == Slots(d) < Slots(d + Zeros(bs))
    ensures FindSlot(d, name, 0) == -1 ==> FindSlot(d + Zeros(bs), name, 0) == -1
  {
    var d' := d + Zeros(bs);
    assert bs == ENTRY_SIZE * (bs / ENTRY_SIZE);
    DirGrow(d, ch, [], bs / ENTRY_SIZE);
    FirstUnusedIs(d', Slots(d));
    FindSlotIs(d, name, 0);
    FindSlotIs(d', name, 0);
  }

  /** Nobody has an unused slot open. */
  lemma UnusedClosed(h: seq<File?>, bs: nat, root: seq<nat>, d: seq<byte>, k: nat)
    requires TableOK(h, bs, root, d) && k < Slots(d) && !Live(Entry(d, k))
    ensures forall i :: 0 <= i < |h| ==> h[i].slot != k
  {}

  lemma SameAddr(bs: nat, root: seq<nat>, root': seq<nat>, k: nat)
    requires bs > 0 && BlockIndex(bs, k) < |root| && root[BlockIndex(bs, k)] >= 1 && root <= root'
    ensures EntryAddr(bs, root', k) == EntryAddr(bs, root, k)
  {}

  lemma ZeroedTail(f: seq<byte>, d: seq<byte>, bs: nat)
    requires d <= f && |f| == |d| + bs
    ensures Splice(f, |d|, Zeros(bs)) == d + Zeros(bs)
  {}

  /** Opening slot `k` in `mode` would break a lock. */
  ghost predicate Locked(h: seq<File?>, k: nat, mode: Mode)
    requires forall i :: 0 <= i < |h| ==> h[i] != null
  {
    exists i :: 0 <= i < |h| && h[i].slot == k && (h[i].mode != F_READ || mode != F_READ)
  }

  /** Readers share a file; whoever writes or appends has it alone. */
  lemma LockedIff(h: seq<File?>, k: nat, mode: Mode)
    requires forall i :: 0 <= i < |h| ==> h[i] != null
    ensures !Locked(h, k, mode) <==>
            || (forall i :: 0 <= i < |h| ==> h[i].slot != k)
            || (mode == F_READ && forall i :: 0 <= i < |h| && h[i].slot == k ==> h[i].mode == F_READ)
  {
    if Locked(h, k, mode) {
      var i :| 0 <= i < |h| && h[i].slot == k && (h[i].mode != F_READ || mode != F_READ);
    }
  }

  ghost predicate Files(files: seq<seq<byte>>) {
    0 < |files| && |files| == 1 + Slots(files[0])
  }

  ghost predicate NoNull(h: seq<File?>) {
    forall i :: 0 <= i < |h| ==> h[i] != null
  }

  /**
   * fs_open succeeds: a file that is there unless a lock is in the way, a missing one if it is to be written to, its
   * name is one a file may have, and the directory has room for it or a block to grow by.
   */
  ghost predicate CanOpen(files: seq<seq<byte>>, free: nat, h: seq<File?>, name: cstring, mode: Mode)
    requires Files(files) && NoNull(h)
  {
    var k := FindSlot(files[0], name, 0);
    if k == -1 then mode != F_READ && ValidName(name) && (FirstUnused(files[0], 0) < Slots(files[0]) || free > 0)
    else !Locked(h, k, mode)
  }

  /** There is a file to make, and no slot for it: the directory has to grow by a block. */
  ghost predicate MustGrow(files: seq<seq<byte>>, name: cstring, mode: Mode)
    requires Files(files)
  {
    && mode != F_READ && FindSlot(files[0], name, 0) == -1 && ValidName(name)
    && FirstUnused(files[0], 0) == Slots(files[0])
  }

  /** What it reports when it does not. */
  ghost function OpenError(files: seq<seq<byte>>, name: cstring, mode: Mode): int
    requires Files(files)
  {
    if FindSlot(files[0], name, 0) != -1 then PEINUSE
    else if mode == F_READ then PENOFILE
    else if ValidName(name) then PETOOFAT
    else PEFNAME
  }

  /** Opening starts from nothing. */
  ghost predicate Empties(files: seq<seq<byte>>, name: cstring, mode: Mode)
    requires Files(files)
  {
    var k := FindSlot(files[0], name, 0);
    k != -1 && mode == F_WRITE && May(Entry(files[0], k), PERM_WRITE)
  }

  /** Opening `name` has found or made slot `k`. */
  ghost predicate DidOpen(bs: nat, files0: seq<seq<byte>>, ch0: seq<seq<nat>>, free0: nat, files: seq<seq<byte>>,
      ch: seq<seq<nat>>, free: nat, name: cstring, mode: Mode, k: nat)
    requires Files(files0) && |ch0| == |files0| && bs >= ENTRY_SIZE
  {
    if FindSlot(files0[0], name, 0) == -1 then
      && k == FirstUnused(files0[0], 0) && |name| < NAME_LEN && files == MadeFiles(files0, bs, name)
      && ChainsKept(ch0, ch) && free == free0 - DirGrowth(files0[0])
    else
      && k == FindSlot(files0[0], name, 0)
      && if Empties(files0, name, mode) then
           files == PutFile(files0, k, Emptied(Entry(files0[0], k)), []) && ch == ch0[k + 1 := []]
           && free == free0 + |ch0[k + 1]|
         else files == files0 && ch == ch0 && free == free0
  }

  lemma Unlocked(h: seq<File?>, f: File)
    requires forall i :: 0 <= i < |h| ==> h[i] != null
    requires !Locked(h, f.slot, f.mode)
    ensures forall i :: 0 <= i < |h| ==> Compatible(h[i], f)
  {}

  /** The entry of a file truncated to nothing. */
  function Emptied(e: entry): entry {
    WithSize(WithBlock(e, 0), 0)
  }

  lemma EmptiedIs(d: seq<byte>, ch: seq<seq<nat>>, k: nat)
    requires DirOK(d, ch) && k < Slots(d) && Live(Entry(d, k))
    ensures var e := Emptied(Entry(d, k));
            && DirOK(PutEntry(d, k, e), ch[k + 1 := []])
            && NameOf(e) == NameOf(Entry(d, k)) && Mark(e) == Mark(Entry(d, k)) && PermOf(e) == PermOf(Entry(d, k))
               && SizeOf(e) == 0 == BlockOf(e)
    ensures if ch[k + 1] == [] then BlockOf(Entry(d, k)) == 0 else BlockOf(Entry(d, k)) == ch[k + 1][0]
  {
    var e := Entry(d, k);
    assert SlotOK(e, ch[k + 1]);
    BlockField(e, 0);
    SizeField(WithBlock(e, 0), 0);
    SameNamePlaceable(d, ch, k, Emptied(e));
    DirUpdate(d, ch, k, Emptied(e), []);
  }

  /** Reading up to the size recorded is reading the content. */
  lemma ReadIsSlice(e: entry, b: seq<byte>, off: nat, len: nat)
    ensures Got(ContentOf(e, b), off, len) == Got(b, off, Max(0, Min(len, (SizeOf(e) as int) - off)))
  {
    Clipped(b, SizeOf(e), off, len);
  }

  lemma Clipped(b: seq<byte>, size: nat, off: nat, len: nat)
    ensures Got(b[..Min(size, |b|)], off, len) == Got(b, off, Max(0, Min(len, size - off)))
  {
    var m := Min(size, |b|);
    var c := b[..m];
    if off < m {
      var x := Min(off + len, m);
      assert c[off..x] == b[off..x];
    } else if off < |b| {
      assert Got(b, off, 0) == [];
    }
  }

  /** An entry whose block or size is set still fits its slot. */
  lemma Resized(d: seq<byte>, ch: seq<seq<nat>>, k: nat, e: entry, c: seq<nat>)
    requires DirOK(d, ch) && k < Slots(d) && Live(Entry(d, k))
    requires NameOf(e) == NameOf(Entry(d, k)) && Mark(e) == Mark(Entry(d, k))
    requires if c == [] then BlockOf(e) == 0 && SizeOf(e) == 0 else BlockOf(e) == c[0] != 0
    ensures DirOK(PutEntry(d, k, e), ch[k + 1 := c])
  {
    SameNamePlaceable(d, ch, k, e);
    DirUpdate(d, ch, k, e, c);
  }

  /** A file whose chain has been continued still fits its entry. */
  lemma Lengthened(d: seq<byte>, ch: seq<seq<nat>>, k: nat, c: seq<nat>)
    requires DirOK(d, ch) && k < Slots(d) && Live(Entry(d, k)) && ch[k + 1] != [] && ch[k + 1] <= c
    ensures DirOK(d, ch[k + 1 := c])
  {
    assert SlotOK(Entry(d, k), ch[k + 1]);
    Resized(d, ch, k, Entry(d, k), c);
    assert PutEntry(d, k, Entry(d, k)) == d;
  }

  /** How many blocks a write takes, counted from the block its offset lies in. */
  lemma NeedFacts(bs: nat, q: nat, o: nat, len: nat)
    requires o < bs && len > 0
    ensures var need := CeilDiv(At(bs, q, o) + len, bs) - q;
            need >= 1 && bs * need >= o + len && (need > 1 ==> bs * (need - 1) < o + len)
  {
    var n := CeilDiv(At(bs, q, o) + len, bs);
    CeilDivBounds(At(bs, q, o) + len, bs);
    if n <= q { MulMono(bs, n, q); }
    MulDistr(bs, n, q);
    MulDistr(bs, n - 1, q);
  }

  lemma MulDistr(n: nat, a: int, b: int)
    ensures n * (a - b) == n * a - n * b
  {}

  /** On every entry there are only readers, or one handle alone; and the entry is live. */
  lemma LocksHold(h: seq<File?>, bs: nat, root: seq<nat>, d: seq<byte>, k: nat)
    requires TableOK(h, bs, root, d)
    ensures forall i :: 0 <= i < |h| && h[i].slot == k ==> k < Slots(d) && Live(Entry(d, k))
    ensures || (forall i :: 0 <= i < |h| && h[i].slot == k ==> h[i].mode == F_READ)
            || (exists i :: 0 <= i < |h| && h[i].slot == k && forall i' :: 0 <= i' < |h| && i' != i ==> h[i'].slot != k)
  {
    hide Entry, Slots, EntryAddr;
    if w :| 0 <= w < |h| && h[w].slot == k && h[w].mode != F_READ {
      forall i | 0 <= i < |h| && i != w
        ensures h[i].slot != k
      {
        assert Compatible(h[i], h[w]) || Compatible(h[w], h[i]);
      }
    }
  }

  /**
   * Renaming a closed file that has blocks to its own name ruins the filesystem: the table has given the blocks back,
   * and no ownership of chains makes table and directory agree again.
   */
  lemma RenameSelfBreaks(fat: seq<u16>, ch: seq<seq<nat>>, d: seq<byte>, k: nat, name: cstring, fat': seq<u16>,
      ch': seq<seq<nat>>)
    requires WellFormed(fat, ch) && DirOK(d, ch) && k < Slots(d) && Listed(Entry(d, k)) && NameOf(Entry(d, k)) == name
    requires ch[k + 1] != [] && Released(fat, ch[k + 1], fat') && |name| < NAME_LEN
    ensures var d1 := PutEntry(d, k, WithMark(Entry(d, k), 1));
            !(WellFormed(fat', ch') && DirOK(PutEntry(d1, k, WithName(Entry(d1, k), name)), ch'))
  {
    var e := Entry(d, k);
    var d1 := PutEntry(d, k, WithMark(e, 1));
    assert SlotOK(e, ch[k + 1]) && NamedOK(e);
    FirstChar(e);
    MarkField(e, 1);
    PutGet(d, k, WithMark(e, 1), k);
    NameField(WithMark(e, 1), name);
    var e' := WithName(WithMark(e, 1), name);
    PutGet(d1, k, e', k);
    var b := BlockOf(e);
    assert Chained(fat, ch[k + 1]);
    assert b == ch[k + 1][0] && fat'[b] == FREE;
    if WellFormed(fat', ch') && DirOK(PutEntry(d1, k, e'), ch') {
      assert SlotOK(e', ch'[k + 1]) && ch'[k + 1][0] == b;
      assert Owned(ch', b);
      OwnedInUse(fat', ch', b);
      assert false;
    }
  }

  // ---- names no file can have ----

  /** The loop of fs_freeblk from block `b` on, ended after `n` turns that stayed inside the table. */
  ghost predicate FreeWalk(fat: seq<u16>, b: nat, n: nat, fat': seq<u16>)
    decreases n
  {
    && n > 0 && b < |fat|
    && var fat1 := fat[b := FREE];
       if fat[b] == EOF then n == 1 && fat' == fat1 else FreeWalk(fat1, fat[b], n - 1, fat')
  }

  lemma {:induction false} WalkFrees(fat: seq<u16>, b: nat, n: nat, fat': seq<u16>)
    requires FreeWalk(fat, b, n, fat')
    ensures |fat'| == |fat| && b < |fat| && fat'[b] == FREE && forall x :: 0 <= x < |fat| ==>
              fat'[x] == fat[x] || fat'[x] == FREE
    decreases n
  {
    if fat[b] != EOF { WalkFrees(fat[b := FREE], fat[b], n - 1, fat'); }
  }

  /** A chain is determined by its first block and the cells along it. */
  lemma {:induction false} SameWalk(fat: seq<u16>, fat': seq<u16>, c: seq<nat>, c': seq<nat>, i: nat)
    requires Chained(fat, c) && Chained(fat', c') && |fat'| == |fat| && i < |c| && c' != [] && c'[0] == c[0]
    requires forall x :: 0 <= x < |fat| ==> fat'[x] == fat[x] || fat'[x] == FREE
    ensures i < |c'| && c'[i] == c[i]
  {
    if i > 0 {
      SameWalk(fat, fat', c, c', i - 1);
      assert fat[c[i - 1]] == Successor(c, i - 1) && fat'[c'[i - 1]] == Successor(c', i - 1);
    }
  }

  /** Two ways of owning that fit the same directory give every file, and the root, the same first block. */
  lemma SameHeads(d: seq<byte>, ch: seq<seq<nat>>, d': seq<byte>, ch': seq<seq<nat>>, j: nat)
    requires DirOK(d, ch) && DirOK(d', ch') && Slots(d') == Slots(d) && j < |ch| && ch[j] != []
    requires ch[0] != [] && ch'[0] != [] && ch'[0][0] == ch[0][0] && (j > 0 ==> Entry(d', j - 1) == Entry(d, j - 1))
    ensures ch'[j] != [] && ch'[j][0] == ch[j][0]
  {
    if j > 0 { assert SlotOK(Entry(d, j - 1), ch[j]) && SlotOK(Entry(d, j - 1), ch'[j]); }
  }

  /**
   * fs_unlink on a name that finds a deleted entry which still names a block: if it ends at all, the header of the
   * table is overwritten, or no ownership of chains makes table and directory agree any more.
   */
  lemma GhostUnlinkBreaks(fat: seq<u16>, ch: seq<seq<nat>>, d: seq<byte>, k: nat, n: nat, fat': seq<u16>,
      ch': seq<seq<nat>>)
    requires WellFormed(fat, ch) && DirOK(d, ch) && fat[0] != FREE && ch[0] != []
    requires k < Slots(d) && Mark(Entry(d, k)) == 1 && BlockOf(Entry(d, k)) != 0
    requires FreeWalk(fat, BlockOf(Entry(d, k)), n, fat')
    ensures PutEntry(d, k, WithMark(Entry(d, k), 1)) == d && |fat'| == |fat|
    ensures fat'[0] == fat[0] ==> !(WellFormed(fat', ch') && DirOK(d, ch') && ch'[0] != [] && ch'[0][0] == ch[0][0])
  {
    hide WellFormed, DirOK, Slots, FreeWalk;
    var b := BlockOf(Entry(d, k));
    assert WithMark(Entry(d, k), 1) == Entry(d, k);
    WalkFrees(fat, b, n, fat');
    hide Entry, BlockOf, WithMark;
    TableSize(fat, ch);
    if fat[b] == FREE {
      FreedTwice(fat, b, n, fat');
    } else if WellFormed(fat', ch') && DirOK(d, ch') {
      DirSize(d, ch');
      DirSize(d, ch);
      if ch'[0] != [] && ch'[0][0] == ch[0][0] {
        var j, i := OwnerOf(fat, ch, b);
        SameHeads(d, ch, d, ch', j);
        ChainsFormed(fat, ch, j);
        ChainsFormed(fat', ch', j);
        SameWalk(fat, fat', ch[j], ch'[j], i);
        assert Owned(ch', b);
        OwnedInUse(fat', ch', b);
        assert false;
      }
    }
  }

  /** From a free cell the loop goes on to cell 0, the header. */
  lemma FreedTwice(fat: seq<u16>, b: nat, n: nat, fat': seq<u16>)
    requires FreeWalk(fat, b, n, fat') && fat[b] == FREE && 0 < b
    ensures |fat'| == |fat| && fat'[0] == FREE
  {
    WalkFrees(fat[b := FREE], 0, n - 1, fat');
  }

  lemma DirSize(d: seq<byte>, ch: seq<seq<nat>>)
    requires DirOK(d, ch)
    ensures |ch| == 1 + Slots(d)
  {}

  lemma TableSize(fat: seq<u16>, ch: seq<seq<nat>>)
    requires WellFormed(fat, ch)
    ensures 2 <= |fat| <= 0x1_0000
  {}

  lemma OwnerOf(fat: seq<u16>, ch: seq<seq<nat>>, b: nat) returns (j: nat, i: nat)
    requires WellFormed(fat, ch) && 1 <= b < |fat| && fat[b] != FREE
    ensures j < |ch| && i < |ch[j]| && ch[j][i] == b
  {
    assert Owned(ch, b);
    j, i :| 0 <= j < |ch| && 0 <= i < |ch[j]| && ch[j][i] == b;
  }

  lemma ChainsFormed(fat: seq<u16>, ch: seq<seq<nat>>, j: nat)
    requires WellFormed(fat, ch) && j < |ch|
    ensures Chained(fat, ch[j]) && Distinct(ch)
  {}

  /** fs_rename on such a name, once the new name is free: two files would own the same block. */
  lemma GhostRenameBreaks(fat: seq<u16>, ch: seq<seq<nat>>, d: seq<byte>, k: nat, newname: cstring, ch': seq<seq<nat>>)
    requires WellFormed(fat, ch) && DirOK(d, ch) && ch[0] != [] && ValidName(newname) && |newname| < NAME_LEN
    requires k < Slots(d) && Mark(Entry(d, k)) == 1 && BlockOf(Entry(d, k)) != 0
    ensures var d' := PutEntry(d, k, WithName(Entry(d, k), newname));
            !(WellFormed(fat, ch') && DirOK(d', ch') && ch'[0] != [] && ch'[0][0] == ch[0][0])
  {
    hide WellFormed, DirOK, Slots, Entry, BlockOf, PutEntry, ValidName;
    var e' := WithName(Entry(d, k), newname);
    var d', b := PutEntry(d, k, e'), BlockOf(Entry(d, k));
    if WellFormed(fat, ch') && DirOK(d', ch') {
      DirSize(d', ch');
      DirSize(d, ch);
      if ch'[0] != [] && ch'[0][0] == ch[0][0] {
        RevivedOwns(d, ch, k, newname, ch');
        assert Owned(ch', b);
        OwnedInUse(fat, ch', b);
        var j, i := OwnerOf(fat, ch, b);
        if j > 0 { PutGet(d, k, e', j - 1); }
        SameHeads(d, ch, d', ch', j);
        ChainsFormed(fat, ch, j);
        ChainsFormed(fat, ch', j);
        SameWalk(fat, fat, ch[j], ch'[j], i);
        assert false;
      }
    }
  }

  /** The entry revived would have to own the block it names; its slot owned nothing before. */
  lemma RevivedOwns(d: seq<byte>, ch: seq<seq<nat>>, k: nat, newname: cstring, ch': seq<seq<nat>>)
    requires DirOK(d, ch) && k < Slots(d) && Mark(Entry(d, k)) == 1 && BlockOf(Entry(d, k)) != 0
    requires ValidName(newname) && |newname| < NAME_LEN && DirOK(PutEntry(d, k, WithName(Entry(d, k), newname)), ch')
    ensures k + 1 < |ch| == |ch'| && ch[k + 1] == [] && ch'[k + 1] != [] && ch'[k + 1][0] == BlockOf(Entry(d, k))
  {
    var e' := WithName(Entry(d, k), newname);
    NameField(Entry(d, k), newname);
    PutGet(d, k, e', k);
    hide Entry, Slots, BlockOf, PutEntry;
    assert NameChar(newname[0]) && SlotOK(Entry(d, k), ch[k + 1]);
    assert SlotOK(e', ch'[k + 1]);
  }

  /**
   * fs_open on a name that finds a deleted entry: the handle it gives out is on no file, whatever slot one takes it
   * for.
   */
  lemma GhostOpenBreaks(h: seq<File?>, bs: nat, root: seq<nat>, d: seq<byte>, f: File, k: nat)
    requires PointsAt(bs, root, d, f.entry, k) && !Live(Entry(d, k))
    requires forall i :: 0 <= i < |root| ==> root[i] >= 1
    requires forall i, i' :: 0 <= i < i' < |root| ==> root[i] != root[i']
    ensures !TableOK(h + [f], bs, root, d)
  {
    if TableOK(h + [f], bs, root, d) {
      assert (h + [f])[|h|] == f;
      EntryAddrInjective(bs, root, f.slot, k);
      assert false;
    }
  }

  // ---- where 32-bit arithmetic matters ----

  /** Lines 192-195: how much fs_read asks for, computed in 32-bit words. */
  function ReadLength(offset: u32, len: u32, size: u32): u32 {
    if offset > size then 0
    else if ((offset as int) + (len as int)) % 0x1_0000_0000 > size then (size as int) - (offset as int)
    else len
  }

  /** It is the part before the end of the file exactly when the sum does not wrap. */
  lemma ReadLengthIff(offset: u32, len: u32, size: u32)
    ensures ReadLength(offset, len, size) == Max(0, Min(len, (size as int) - (offset as int))) <==>
            (offset > size || (offset as int) + (len as int) < 0x1_0000_0000)
  {
    var sum := (offset as int) + (len as int);
    if offset <= size && sum >= 0x1_0000_0000 {
      assert sum % 0x1_0000_0000 == sum - 0x1_0000_0000 < offset;
    }
  }

  /**
   * A file of `size` bytes ends where the data region ends when one goes on, from the q-th block of its chain, over
   * the data region instead of the chain; and the bytes are the same.
   */
  ghost predicate RunsOut(data: seq<byte>, bs: nat, c: seq<nat>, size: nat, q: nat, top: nat)
    requires q < |c|
  {
    && c[q] <= top && size == At(bs, q + (top + 1 - c[q]), 0)
    && forall j :: 0 <= j < top + 1 - c[q] ==> LaidAt(data, bs, c, q, j)
  }

  /** A read not split at block ends, and not clipped to the size either. */
  lemma RawRead(data: seq<byte>, bs: nat, c: seq<nat>, b: seq<byte>, size: nat, q: nat, o: nat, len: nat, top: nat)
    requires HasBlocks(data, bs, c) && b == Gather(data, bs, c) && q < |c| && o < bs && |data| == At(bs, top, 0)
    requires size <= |b| <= At(bs, q, o) + len
    ensures Raw(data, bs, c, q, o) == Got(b[..size], At(bs, q, o), len) <==> RunsOut(data, bs, c, size, q, top)
  {
    hide LaidAt, Gather, HasBlock, HasBlocks, Raw, Got, At, Addr, RunsOut;
    RawSizes(data, bs, c, q, o, top);
    var m := top + 1 - c[q];
    RunsOutIs(data, bs, c, size, q, top, m);
    if size == At(bs, q + m, 0) {
      RawWhole(data, bs, c, b, size, q, o, len, m);
    } else {
      RawElse(data, bs, c, b, size, q, o, len, m);
    }
  }

  lemma RunsOutIs(data: seq<byte>, bs: nat, c: seq<nat>, size: nat, q: nat, top: nat, m: nat)
    requires q < |c| && c[q] <= top && m == top + 1 - c[q]
    ensures RunsOut(data, bs, c, size, q, top) <==>
            size == At(bs, q + m, 0) && forall j :: 0 <= j < m ==> LaidAt(data, bs, c, q, j)
  {}

  lemma RawElse(data: seq<byte>, bs: nat, c: seq<nat>, b: seq<byte>, size: nat, q: nat, o: nat, len: nat, m: nat)
    requires q < |c| && o < bs && m > 0 && c[q] >= 1 && Addr(bs, c[q], o) < |data| == At(bs, c[q] - 1 + m, 0)
    requires size <= |b| <= At(bs, q, o) + len && size != At(bs, q + m, 0)
    ensures Raw(data, bs, c, q, o) != Got(b[..size], At(bs, q, o), len)
  {
    GotTail(b, size, At(bs, q, o), len);
    assert |Raw(data, bs, c, q, o)| == |data| - Addr(bs, c[q], o);
    Distribute(bs, c[q] - 1, m);
    Distribute(bs, q, m);
  }

  lemma RawWhole(data: seq<byte>, bs: nat, c: seq<nat>, b: seq<byte>, size: nat, q: nat, o: nat, len: nat, m: nat)
    requires HasBlocks(data, bs, c) && b == Gather(data, bs, c) && q < |c| && o < bs && m > 0 && c[q] >= 1
    requires Addr(bs, c[q], o) < |data| == At(bs, c[q] - 1 + m, 0)
    requires At(bs, q, o) < At(bs, q + m, 0) == size <= |b| <= At(bs, q, o) + len
    ensures Raw(data, bs, c, q, o) == Got(b[..size], At(bs, q, o), len) <==>
              forall j :: 0 <= j < m ==> LaidAt(data, bs, c, q, j)
  {
    hide LaidAt, Gather, HasBlocks;
    GatherSize(data, bs, c);
    AtMostBlocks(bs, q + m, |c|);
    GotTail(b, size, At(bs, q, o), len);
    AsLaid(data, bs, c, q, m, o);
  }

  lemma RawSizes(data: seq<byte>, bs: nat, c: seq<nat>, q: nat, o: nat, top: nat)
    requires |data| == At(bs, top, 0) && HasBlocks(data, bs, c) && q < |c| && o < bs
    ensures 1 <= c[q] <= top && |data| == At(bs, c[q] - 1 + (top + 1 - c[q]), 0)
    ensures Addr(bs, c[q], o) < |data| && At(bs, q, o) < At(bs, q + (top + 1 - c[q]), 0)
  {
    var b := c[q];
    assert HasBlock(data, bs, b);
    MulMono(bs, 1, top + 1 - b);
    MulStep(bs, b - 1);
    AtMostBlocks(bs, b, top);
    Distribute(bs, b - 1, top + 1 - b);
    Distribute(bs, q, top + 1 - b);
  }

  lemma GotTail(b: seq<byte>, size: nat, off: nat, len: nat)
    requires size <= |b| <= off + len
    ensures Got(b[..size], off, len) == if off >= size then [] else b[off..size]
  {}

  lemma AtMostBlocks(bs: nat, a: nat, n: nat)
    requires bs > 0 && bs * a <= bs * n
    ensures a <= n
  {
    if a > n { MulMono(bs, n + 1, a); MulStep(bs, n); }
  }

  /**
   * A read with a sum that wraps is not clipped to the size, and near the very end of 32 bits not split at block ends
   * either. Of a file no longer than its blocks it delivers the slice of the content exactly when there is nothing to
   * clip, and the blocks lie as they would have to.
   */
  lemma WrappedRead(data: seq<byte>, bs: nat, c: seq<nat>, b: seq<byte>, size: u32, off: u32, len: u32, top: nat)
    requires bs > 0 && HasBlocks(data, bs, c) && b == Gather(data, bs, c) && |data| == At(bs, top, 0)
    requires off <= size && (off as int) + (len as int) >= 0x1_0000_0000 && |b| < 0x1_0000_0000
    ensures FetchedFrom(data, bs, c, b, off / bs, off % bs, len) == Got(b[..Min(size, |b|)], off, len) <==>
              if off % bs + len < 0x1_0000_0000 then off as int >= |b| || size as int >= |b|
              else off / bs >= |c| || RunsOut(data, bs, c, Min(size, |b|), off / bs, top)
  {
    hide HasBlocks, LaidAt, Gather, RunsOut;
    var q, o := Split(bs, off);
    var s := Min(size, |b|);
    GatherSize(data, bs, c);
    if o + len < 0x1_0000_0000 {
      GotTail(b, s, off, len);
      GotTail(b, |b|, off, len);
      assert b[..|b|] == b;
    } else if q < |c| {
      RawRead(data, bs, c, b, s, q, o, len, top);
    } else {
      MulMono(bs, |c|, q);
      GotTail(b, s, off, len);
    }
  }

  /**
   * Lines 242-245 after a write that ran out of space: the size recorded stays right exactly when the write did not
   * start at offset 0; from there the handle wraps to 0xFFFF_FFFF and takes the size with it.
   */
  lemma FailedWriteSize(size: u32, off: u32)
    ensures Max(Max(size, off), ((off as int) - 1) % 0x1_0000_0000) == Max(size, off) <==>
              (off != 0 || size == 0xFFFF_FFFF)
  {}
}
