/**
 * What the calls mean once blocks and entries are forgotten: a map from names to contents, and how many blocks a
 * file owns. Each lemma takes the state change one call is proved to make and says what that does to the map. Line
 * numbers are those of src/fs/fat.c.
 */
module Meaning {
  import opened Bytes
  import opened Contents
  import opened Directory
  import opened OpenTable

  predicate Sized(files: seq<seq<byte>>, ch: seq<seq<nat>>) {
    0 < |files| == |ch| && |files| == 1 + Slots(files[0])
  }

  /** Slot `s` has the entry and the bytes it had. */
  predicate KeptAt(files0: seq<seq<byte>>, files: seq<seq<byte>>, s: nat)
    requires 0 < |files0| <= |files| && |files0| == 1 + Slots(files0[0]) && |files| == 1 + Slots(files[0])
             && s < Slots(files0[0])
  {
    s < Slots(files[0]) && Entry(files[0], s) == Entry(files0[0], s) && files[s + 1] == files0[s + 1]
  }

  /** Giving `name` the content `c`: nothing to be seen for a name no file can be given. */
  ghost function Assign(m: map<cstring, seq<byte>>, name: cstring, c: seq<byte>): map<cstring, seq<byte>> {
    if Ghostly(name) then m else m[name := c]
  }

  /** What a search for `name` comes upon; nothing for a name it does not find. */
  ghost function Held(files: seq<seq<byte>>, name: cstring): seq<byte>
    requires 0 < |files| && |files| == 1 + Slots(files[0])
  {
    if FindSlot(files[0], name, 0) == -1 then [] else Content(files, FindSlot(files[0], name, 0))
  }

  /** A search succeeds exactly for the names in the catalogue, and finds that file, or for a name no file can have. */
  lemma FoundIsInCatalog(files: seq<seq<byte>>, ch: seq<seq<nat>>, name: cstring)
    requires Sized(files, ch) && DirOK(files[0], ch)
    ensures var k := FindSlot(files[0], name, 0);
            if k == -1 || Ghostly(name) then name !in Catalog(files)
            else Listed(Entry(files[0], k)) && name in Catalog(files) && Catalog(files)[name] == Content(files, k)
  {
    hide Entry, Slots, NameOf, FindSlot, Content;
    var k := FindSlot(files[0], name, 0);
    FindSlotIs(files[0], name, 0);
    if k == -1 || Ghostly(name) {
      if name in Catalog(files) {
        var s := CatalogOnly(files, name);
        FirstChar(Entry(files[0], s));
        assert false;
      }
    } else {
      FoundListed(files[0], ch, name);
      CatalogHas(files, k);
    }
  }

  /** fs_unlink takes the name away, whether the blocks go now or later. */
  lemma CatalogUnlinked(files: seq<seq<byte>>, ch: seq<seq<nat>>, name: cstring, open: bool)
    requires Sized(files, ch) && DirOK(files[0], ch)
    requires UniqueNames(UnlinkFiles(files, FindSlot(files[0], name, 0), open)[0])
    ensures Catalog(UnlinkFiles(files, FindSlot(files[0], name, 0), open)) == Catalog(files) - {name}
  {
    hide Entry, Slots, NameOf, FindSlot, Content, ContentOf, PutEntry, Catalog, EntriesOK, EndsOnce, UniqueNames;
    var k := FindSlot(files[0], name, 0);
    FoundIsInCatalog(files, ch, name);
    if k != -1 {
      FoundEntry(files[0], ch, name);
      var e := WithMark(Entry(files[0], k), if open then 2 else 1);
      var b := if open then files[k + 1] else [];
      assert UnlinkFiles(files, k, open) == PutFile(files, k, e, b);
      CatalogPut(files, k, e, b);
    }
  }

  /** fs_rename moves the whole content; what had the new name is gone. */
  lemma CatalogRenamed(files: seq<seq<byte>>, ch: seq<seq<nat>>, oldname: cstring, newname: cstring, open: bool)
    requires Sized(files, ch) && DirOK(files[0], ch) && ValidName(newname) && |newname| < NAME_LEN
    requires FindSlot(files[0], oldname, 0) != -1
    requires oldname == newname ==> open || ch[FindSlot(files[0], oldname, 0) + 1] == []
    requires UniqueNames(UnlinkFiles(files, FindSlot(files[0], newname, 0), open)[0])
    requires UniqueNames(RenameFiles(UnlinkFiles(files, FindSlot(files[0], newname, 0), open),
                                     FindSlot(files[0], oldname, 0), newname)[0])
    ensures !Ghostly(oldname) ==> oldname in Catalog(files) && Catalog(files)[oldname] == Held(files, oldname)
    ensures Catalog(RenameFiles(UnlinkFiles(files, FindSlot(files[0], newname, 0), open),
                                FindSlot(files[0], oldname, 0), newname))
            == (Catalog(files) - {oldname, newname})[newname := Held(files, oldname)]
  {
    hide Entry, Slots, NameOf, FindSlot, Content, ContentOf, PutEntry, UnlinkFiles, RenameFiles, Catalog, UniqueNames,
        EntriesOK, EndsOnce;
    var k, t := FindSlot(files[0], oldname, 0), FindSlot(files[0], newname, 0);
    var mid := UnlinkFiles(files, t, open);
    FoundIsInCatalog(files, ch, oldname);
    CatalogUnlinked(files, ch, newname, open);
    FoundEntry(files[0], ch, oldname);
    MidEntry(files, ch, oldname, newname, open);
    CatalogNamed(mid, k, newname);
    MoveName(Catalog(files), oldname, newname, Content(mid, k));
  }

  /** The entry to be renamed after the removal: listed as before, or, if the removal was its own, not listed. */
  lemma MidEntry(files: seq<seq<byte>>, ch: seq<seq<nat>>, oldname: cstring, newname: cstring, open: bool)
    requires Sized(files, ch) && DirOK(files[0], ch) && ValidName(newname) && FindSlot(files[0], oldname, 0) != -1
    requires oldname == newname ==> open || ch[FindSlot(files[0], oldname, 0) + 1] == []
    ensures var k, t := FindSlot(files[0], oldname, 0), FindSlot(files[0], newname, 0);
            var mid, c := UnlinkFiles(files, t, open), UnlinkChains(ch, t, open);
            && Slots(mid[0]) == Slots(files[0]) && Content(mid, k) == Content(files, k)
            && (if oldname == newname then !Listed(Entry(mid[0], k)) else Entry(mid[0], k) == Entry(files[0], k))
            && SizeOf(Entry(mid[0], k)) == SizeOf(Entry(files[0], k)) && c[k + 1] == ch[k + 1]
            && (Live(Entry(files[0], k)) && (t == k ==> open) ==> Live(Entry(mid[0], k)))
  {
    hide Entry, Slots, NameOf, FindSlot, PutEntry;
    var k, t := FindSlot(files[0], oldname, 0), FindSlot(files[0], newname, 0);
    var e := Entry(files[0], k);
    FoundEntry(files[0], ch, oldname);
    FoundApart(files, ch, oldname, newname);
    if t != k { OthersUnlinked(files, ch, newname, open, k); }
    if t == k {
      MarkField(e, 1);
      MarkField(e, 2);
      PutGet(files[0], k, WithMark(e, if open then 2 else 1), k);
      assert SlotOK(e, ch[k + 1]);
      NotDead(files[0], newname);
    }
  }

  /** Different names find different slots. */
  lemma FoundApart(files: seq<seq<byte>>, ch: seq<seq<nat>>, name: cstring, name': cstring)
    requires Sized(files, ch) && DirOK(files[0], ch) && FindSlot(files[0], name, 0) != -1
    ensures FindSlot(files[0], name, 0) == FindSlot(files[0], name', 0) <==> name == name'
  {
    hide Entry, Slots, NameOf, FindSlot;
    FindSlotIs(files[0], name, 0);
    FindSlotIs(files[0], name', 0);
  }

  lemma ContentIs(files: seq<seq<byte>>, k: nat)
    requires |files| > 0 && |files| == 1 + Slots(files[0]) && k < Slots(files[0])
    ensures Content(files, k) == ContentOf(Entry(files[0], k), files[k + 1])
  {}

  /** Line 402: the name changes hands. */
  lemma CatalogNamed(files: seq<seq<byte>>, k: nat, newname: cstring)
    requires 0 < |files| && |files| == 1 + Slots(files[0]) && UniqueNames(files[0]) && k < Slots(files[0])
    requires ValidName(newname) && |newname| < NAME_LEN && UniqueNames(RenameFiles(files, k, newname)[0])
    ensures Catalog(RenameFiles(files, k, newname))
            == Without(Catalog(files), Entry(files[0], k))[newname := Content(files, k)]
  {
    hide Entry, Slots, NameOf, PutEntry, UniqueNames, Catalog;
    var e := WithName(Entry(files[0], k), newname);
    NameField(Entry(files[0], k), newname);
    assert NameChar(newname[0]);
    assert RenameFiles(files, k, newname) == PutFile(files, k, e, files[k + 1]);
    CatalogPut(files, k, e, files[k + 1]);
    SameContent(Entry(files[0], k), e, files[k + 1]);
  }

  lemma MoveName(m: map<cstring, seq<byte>>, oldname: cstring, newname: cstring, c: seq<byte>)
    ensures (m - {newname} - {oldname})[newname := c] == (m - {oldname, newname})[newname := c]
    ensures oldname !in m || oldname == newname ==>
              (m - {newname})[newname := c] == (m - {oldname, newname})[newname := c]
  {
    if oldname !in m || oldname == newname { assert m - {oldname, newname} == m - {newname}; }
  }

  lemma SameContent(e0: entry, e: entry, b: seq<byte>)
    requires SizeOf(e) == SizeOf(e0)
    ensures ContentOf(e, b) == ContentOf(e0, b)
  {}

  lemma OthersUnlinked(files: seq<seq<byte>>, ch: seq<seq<nat>>, name: cstring, open: bool, s: nat)
    requires Sized(files, ch) && DirOK(files[0], ch) && s < Slots(files[0]) && s != FindSlot(files[0], name, 0)
    ensures var f := UnlinkFiles(files, FindSlot(files[0], name, 0), open);
            Slots(f[0]) == Slots(files[0]) && Entry(f[0], s) == Entry(files[0], s) && f[s + 1] == files[s + 1]
  {
    hide Entry, Slots, NameOf, FindSlot, PutEntry;
    var k := FindSlot(files[0], name, 0);
    if k != -1 { PutGet(files[0], k, WithMark(Entry(files[0], k), if open then 2 else 1), s); }
  }

  /** The shape of the files once a file has been made, directory grown or not. */
  lemma MadeShape(files: seq<seq<byte>>, ch: seq<seq<nat>>, bs: nat, name: cstring)
    requires Sized(files, ch) && DirOK(files[0], ch) && |name| < NAME_LEN
    requires bs >= ENTRY_SIZE && bs % ENTRY_SIZE == 0
    ensures var k := FirstUnused(files[0], 0);
            var g := if k < Slots(files[0]) then files else GrownFiles(files, bs);
            && 0 < |g| && |g| == 1 + Slots(g[0]) && k < Slots(g[0]) && UniqueNames(g[0]) && !Listed(Entry(g[0], k))
            && Catalog(g) == Catalog(files) && |files| <= |g|
            && (forall s :: 0 <= s < Slots(files[0]) ==> KeptAt(files, g, s))
            && (forall s :: Slots(files[0]) <= s < Slots(g[0]) ==> Mark(Entry(g[0], s)) == 0)
  {
    var d, n, k := files[0], bs / ENTRY_SIZE, FirstUnused(files[0], 0);
    if k == Slots(d) {
      assert bs == ENTRY_SIZE * n;
      DirGrow(d, ch, [], n);
      var g := GrownFiles(files, bs);
      assert |g| == |files| + n;
      hide Entry, Slots, NameOf, FirstUnused, EntriesOK;
      assert g[0] == d + Zeros(ENTRY_SIZE * n);
      assert forall s :: 0 <= s < Slots(d) ==> KeptAt(files, g, s);
      SameCatalog(files, g);
    }
  }

  lemma SameCatalog(files: seq<seq<byte>>, g: seq<seq<byte>>)
    requires 0 < |files| && |files| == 1 + Slots(files[0]) && 0 < |g| && |g| == 1 + Slots(g[0]) && |files| <= |g|
    requires UniqueNames(files[0]) && UniqueNames(g[0])
    requires forall s :: 0 <= s < Slots(files[0]) ==> KeptAt(files, g, s)
    requires forall s :: Slots(files[0]) <= s < Slots(g[0]) ==> !Listed(Entry(g[0], s))
    ensures Catalog(g) == Catalog(files)
  {
    hide Entry, Slots, NameOf, ContentOf, Catalog;
    forall nm | nm in Catalog(files)
      ensures nm in Catalog(g) && Catalog(g)[nm] == Catalog(files)[nm]
    {
      var s := CatalogOnly(files, nm);
      assert KeptAt(files, g, s);
      CatalogHas(g, s);
    }
    forall nm | nm in Catalog(g)
      ensures nm in Catalog(files)
    {
      var s := CatalogOnly(g, nm);
      assert KeptAt(files, g, s);
      CatalogHas(files, s);
    }
  }

  /** A file created is there, and empty. */
  lemma CatalogMade(files: seq<seq<byte>>, ch: seq<seq<nat>>, bs: nat, name: cstring)
    requires Sized(files, ch) && DirOK(files[0], ch) && ValidName(name) && |name| < NAME_LEN
    requires bs >= ENTRY_SIZE && bs % ENTRY_SIZE == 0
    requires 0 < |MadeFiles(files, bs, name)|
             && |MadeFiles(files, bs, name)| == 1 + Slots(MadeFiles(files, bs, name)[0])
    requires UniqueNames(MadeFiles(files, bs, name)[0])
    ensures Catalog(MadeFiles(files, bs, name)) == Catalog(files)[name := []]
  {
    hide Entry, Slots, NameOf, FirstUnused, DirOK, UniqueNames, Catalog, NewEntry, PutEntry;
    MadeShape(files, ch, bs, name);
    var k := FirstUnused(files[0], 0);
    var g := if k < Slots(files[0]) then files else GrownFiles(files, bs);
    var e := NewEntry(Entry(g[0], k), name);
    NewEntryFields(Entry(g[0], k), name);
    assert NameChar(name[0]);
    assert MadeFiles(files, bs, name) == PutFile(g, k, e, g[k + 1]);
    CatalogPut(g, k, e, g[k + 1]);
    assert ContentOf(e, g[k + 1]) == [];
  }

  /** Truncated: the file is there, and empty. */
  lemma CatalogEmptied(files: seq<seq<byte>>, k: nat)
    requires 0 < |files| && |files| == 1 + Slots(files[0]) && UniqueNames(files[0]) && k < Slots(files[0])
             && Live(Entry(files[0], k))
    requires UniqueNames(PutEntry(files[0], k, Emptied(Entry(files[0], k))))
    ensures var e0, m := Entry(files[0], k), Catalog(files);
            Catalog(PutFile(files, k, Emptied(e0), [])) == if Listed(e0) then m[NameOf(e0) := []] else m
  {
    hide Entry, Slots, NameOf, UniqueNames, Catalog, PutEntry;
    var e0 := Entry(files[0], k);
    var e := Emptied(e0);
    BlockField(e0, 0);
    SizeField(WithBlock(e0, 0), 0);
    CatalogPut(files, k, e, []);
    var m := Catalog(files);
    assert (m - {NameOf(e0)})[NameOf(e0) := []] == m[NameOf(e0) := []];
  }

  /** The deletion a close puts off changes no name: the file had none any more. */
  lemma CatalogClosed(files: seq<seq<byte>>, k: nat)
    requires 0 < |files| && |files| == 1 + Slots(files[0]) && UniqueNames(files[0]) && k < Slots(files[0])
             && Mark(Entry(files[0], k)) == 2
    requires UniqueNames(PutEntry(files[0], k, WithMark(Entry(files[0], k), 1)))
    ensures Catalog(PutFile(files, k, WithMark(Entry(files[0], k), 1), [])) == Catalog(files)
  {
    hide Entry, Slots, NameOf, UniqueNames, Catalog, PutEntry;
    CatalogPut(files, k, WithMark(Entry(files[0], k), 1), []);
  }

  /** A write changes the content of the one file it goes to; a file without a name can be written to unseen. */
  lemma CatalogWritten(files0: seq<seq<byte>>, ch0: seq<seq<nat>>, files: seq<seq<byte>>, ch: seq<seq<nat>>, k: nat)
    requires OneSlot(files0, ch0, files, ch, k) && UniqueNames(files0[0]) && UniqueNames(files[0])
    ensures var e := Entry(files0[0], k);
            Catalog(files) == if Listed(e) then Catalog(files0)[NameOf(e) := Content(files, k)] else Catalog(files0)
  {
    hide Entry, Slots, NameOf, UniqueNames, Catalog, PutEntry, ContentOf, PermOf;
    var e0, e := Entry(files0[0], k), Entry(files[0], k);
    CatalogPut(files0, k, e, files[k + 1]);
    var m := Catalog(files0);
    assert (m - {NameOf(e0)})[NameOf(e0) := Content(files, k)] == m[NameOf(e0) := Content(files, k)];
  }

  // ---- how many blocks ----

  /** Every file owns exactly the blocks its size takes. */
  predicate Tight(files: seq<seq<byte>>, ch: seq<seq<nat>>, bs: nat)
    requires Sized(files, ch) && bs > 0
  {
    forall k :: 0 <= k < Slots(files[0]) && Live(Entry(files[0], k)) ==>
      |ch[k + 1]| == CeilDiv(SizeOf(Entry(files[0], k)), bs)
  }

  predicate TightKept(files0: seq<seq<byte>>, ch0: seq<seq<nat>>, files: seq<seq<byte>>, ch: seq<seq<nat>>, bs: nat) {
    Sized(files0, ch0) && Sized(files, ch) && bs > 0 && (Tight(files0, ch0, bs) ==> Tight(files, ch, bs))
  }

  lemma TightSame(files: seq<seq<byte>>, ch: seq<seq<nat>>, bs: nat)
    requires Sized(files, ch) && bs > 0
    ensures TightKept(files, ch, files, ch, bs)
  {}

  lemma TightEmptied(files: seq<seq<byte>>, ch: seq<seq<nat>>, bs: nat, k: nat)
    requires Sized(files, ch) && DirOK(files[0], ch) && bs > 0 && k < Slots(files[0]) && Live(Entry(files[0], k))
    ensures TightKept(files, ch, PutFile(files, k, Emptied(Entry(files[0], k)), []), ch[k + 1 := []], bs)
  {
    hide Entry, Slots, SizeOf, PutEntry, CeilDiv, DirOK, Emptied, Tight, NameOf, PutFile;
    var e := Emptied(Entry(files[0], k));
    EmptiedIs(files[0], ch, k);
    CeilDivBounds(0, bs);
    PutFileEntry(files, k, e, []);
    if Tight(files, ch, bs) { TightPut(files, ch, bs, k, e, [], []); }
  }

  lemma TightPut(files: seq<seq<byte>>, ch: seq<seq<nat>>, bs: nat, k: nat, e: entry, b: seq<byte>, c: seq<nat>)
    requires Sized(files, ch) && bs > 0 && Tight(files, ch, bs) && k < Slots(files[0])
    requires Live(e) ==> |c| == CeilDiv(SizeOf(e), bs)
    ensures Sized(PutFile(files, k, e, b), ch[k + 1 := c]) && Tight(PutFile(files, k, e, b), ch[k + 1 := c], bs)
  {
    hide Entry, Slots, SizeOf, PutEntry, CeilDiv;
    PutSame(files, k, e, b);
  }

  lemma MarkedFields(d: seq<byte>, ch: seq<seq<nat>>, k: nat)
    requires DirOK(d, ch) && k < Slots(d) && Mark(Entry(d, k)) != 0
    ensures var e := Entry(d, k);
            Live(WithMark(e, 2)) && SizeOf(WithMark(e, 2)) == SizeOf(e) && !Live(WithMark(e, 1))
  {
    var e := Entry(d, k);
    assert NamedOK(e);
    FirstChar(e);
    MarkField(e, 1);
    MarkField(e, 2);
  }

  lemma TightUnlinked(files: seq<seq<byte>>, ch: seq<seq<nat>>, bs: nat, k: int, open: bool)
    requires Sized(files, ch) && bs > 0 && Tight(files, ch, bs) && DirOK(files[0], ch) && -1 <= k < Slots(files[0])
    requires k != -1 ==> Mark(Entry(files[0], k)) != 0 && (open ==> Live(Entry(files[0], k)))
    ensures Sized(UnlinkFiles(files, k, open), UnlinkChains(ch, k, open))
    ensures Tight(UnlinkFiles(files, k, open), UnlinkChains(ch, k, open), bs)
  {
    hide Entry, Slots, SizeOf, PutEntry, CeilDiv, DirOK, NameOf;
    if k != -1 {
      var e := Entry(files[0], k);
      MarkedFields(files[0], ch, k);
      if open {
        TightPut(files, ch, bs, k, WithMark(e, 2), files[k + 1], ch[k + 1]);
        assert ch[k + 1 := ch[k + 1]] == ch;
        assert UnlinkFiles(files, k, open) == PutFile(files, k, WithMark(e, 2), files[k + 1]);
      } else {
        TightPut(files, ch, bs, k, WithMark(e, 1), [], []);
      }
    }
  }

  lemma TightNamed(files: seq<seq<byte>>, ch: seq<seq<nat>>, bs: nat, k: nat, newname: cstring)
    requires Sized(files, ch) && bs > 0 && Tight(files, ch, bs) && k < Slots(files[0]) && 0 < |newname| < NAME_LEN
    requires Live(Entry(files[0], k)) || (ch[k + 1] == [] && SizeOf(Entry(files[0], k)) == 0)
    ensures Sized(RenameFiles(files, k, newname), ch) && Tight(RenameFiles(files, k, newname), ch, bs)
  {
    var e := WithName(Entry(files[0], k), newname);
    NameField(Entry(files[0], k), newname);
    CeilDivBounds(0, bs);
    TightAt(files, ch, bs, k);
    hide Entry, Slots, SizeOf, PutEntry, NameOf, BlockOf, PermOf, CeilDiv, Tight, WithName;
    TightPut(files, ch, bs, k, e, files[k + 1], ch[k + 1]);
    assert ch[k + 1 := ch[k + 1]] == ch;
    assert RenameFiles(files, k, newname) == PutFile(files, k, e, files[k + 1]);
  }

  /** More slots, for which nothing is owned. */
  lemma TightGrown(files: seq<seq<byte>>, g: seq<seq<byte>>, ch: seq<seq<nat>>, ch': seq<seq<nat>>, bs: nat)
    requires bs > 0 && Sized(files, ch) && Sized(g, ch') && |files| <= |g| && Tight(files, ch, bs)
             && ChainsKept(ch, ch')
    requires forall s :: 0 <= s < Slots(files[0]) ==> KeptAt(files, g, s)
    requires forall s :: Slots(files[0]) <= s < Slots(g[0]) ==> Mark(Entry(g[0], s)) == 0
    ensures Tight(g, ch', bs)
  {
    hide Entry, Slots, SizeOf, CeilDiv;
    forall s | 0 <= s < Slots(g[0]) && Live(Entry(g[0], s))
      ensures |ch'[s + 1]| == CeilDiv(SizeOf(Entry(g[0], s)), bs)
    {
      assert KeptAt(files, g, s);
      assert Live(Entry(files[0], s)) && ch'[s + 1] == ch[s + 1];
    }
  }

  lemma TightMade(files: seq<seq<byte>>, ch: seq<seq<nat>>, bs: nat, name: cstring, ch': seq<seq<nat>>)
    requires Sized(files, ch) && bs >= ENTRY_SIZE && bs % ENTRY_SIZE == 0 && Tight(files, ch, bs) && DirOK(files[0], ch)
    requires ChainsKept(ch, ch') && ValidName(name) && |name| < NAME_LEN && Sized(MadeFiles(files, bs, name), ch')
             && DirOK(MadeFiles(files, bs, name)[0], ch')
    ensures Tight(MadeFiles(files, bs, name), ch', bs)
  {
    hide Entry, Slots, SizeOf, PutEntry, FirstUnused, DirOK, CeilDiv, NewEntry, NameOf, ChainsKept, Catalog, Live,
        ValidName, UniqueNames, PutFile, Tight, KeptAt;
    MadeShape(files, ch, bs, name);
    var k := FirstUnused(files[0], 0);
    var g := if k < Slots(files[0]) then files else GrownFiles(files, bs);
    var e := NewEntry(Entry(g[0], k), name);
    MadeIsPut(files, bs, name);
    hide MadeFiles, GrownFiles;
    PutFileEntry(g, k, e, g[k + 1]);
    NewIsListed(Entry(g[0], k), name);
    ListedLives(e);
    OwnsNothing(MadeFiles(files, bs, name)[0], ch', k);
    CeilDivBounds(0, bs);
    TightGrown(files, g, ch, ch', bs);
    TightPut(g, ch', bs, k, e, g[k + 1], ch'[k + 1]);
    assert ch'[k + 1 := ch'[k + 1]] == ch';
  }

  lemma ListedLives(e: entry)
    requires Listed(e)
    ensures Live(e)
  {}

  /** A write that succeeds leaves the file with exactly the blocks its new size takes. */
  lemma TightWritten(files0: seq<seq<byte>>, ch0: seq<seq<nat>>, files: seq<seq<byte>>, ch: seq<seq<nat>>, k: nat,
      bs: nat, end: nat)
    requires OneSlot(files0, ch0, files, ch, k) && bs > 0 && Tight(files0, ch0, bs) && Live(Entry(files0[0], k))
    requires SizeOf(Entry(files[0], k)) == Max(SizeOf(Entry(files0[0], k)), end)
             && |ch[k + 1]| == Max(|ch0[k + 1]|, CeilDiv(end, bs))
    ensures Sized(files, ch) && Tight(files, ch, bs)
  {
    hide Entry, Slots, SizeOf, PutEntry, NameOf, PermOf, CeilDiv;
    var size0, size := SizeOf(Entry(files0[0], k)), SizeOf(Entry(files[0], k));
    CeilDivMono(size0, size, bs);
    CeilDivMono(end, size, bs);
    TightPut(files0, ch0, bs, k, Entry(files[0], k), files[k + 1], ch[k + 1]);
  }

  /** The condition a write succeeds on, in terms of sizes: the blocks it adds are at most the free ones. */
  lemma SpaceLaw(size: nat, end: nat, bs: nat, own: nat, free: nat)
    requires bs > 0 && own == CeilDiv(size, bs)
    ensures CeilDiv(end, bs) <= own + free <==> CeilDiv(Max(size, end), bs) - CeilDiv(size, bs) <= free
  {
    hide CeilDiv;
    CeilDivMono(end, Max(size, end), bs);
    CeilDivMono(size, Max(size, end), bs);
  }

  /** A write succeeds exactly when the blocks its file grows by are free, and takes exactly those. */
  lemma WriteSpace(bs: nat, files0: seq<seq<byte>>, ch0: seq<seq<nat>>, free0: nat, files: seq<seq<byte>>,
      ch: seq<seq<nat>>, free: nat, k: nat, off: nat, str: seq<byte>, r: int, at: int, code: int)
    requires bs > 0 && DidWrite(bs, files0, ch0, free0, files, ch, free, k, off, str, r, at, code)
    requires Sized(files0, ch0) && Tight(files0, ch0, bs) && Live(Entry(files0[0], k))
    ensures var size0 := SizeOf(Entry(files0[0], k));
            var more := CeilDiv(Max(size0, off + |str|), bs) - CeilDiv(size0, bs);
            && (r != -1 <==> more <= free0)
            && (r != -1 ==> free == free0 - more && Tight(files, ch, bs))
  {
    hide Entry, Slots, SizeOf, CeilDiv, PutFile, NameOf, ContentOf, Overlay, Tight;
    CeilDivMono(SizeOf(Entry(files0[0], k)), Max(SizeOf(Entry(files0[0], k)), off + |str|), bs);
    TightAt(files0, ch0, bs, k);
    SpaceLaw(SizeOf(Entry(files0[0], k)), off + |str|, bs, |ch0[k + 1]|, free0);
    if r != -1 { TightWritten(files0, ch0, files, ch, k, bs, off + |str|); TightAt(files, ch, bs, k); }
  }

  lemma TightAt(files: seq<seq<byte>>, ch: seq<seq<nat>>, bs: nat, k: nat)
    requires Sized(files, ch) && bs > 0 && Tight(files, ch, bs) && k < Slots(files[0])
    ensures Live(Entry(files[0], k)) ==> |ch[k + 1]| == CeilDiv(SizeOf(Entry(files[0], k)), bs)
  {}

  /**
   * A write that ran out of space after its file got a block: the size recorded is right exactly when the write did not
   * start at offset 0, or could not get larger.
   */
  lemma WriteFailed(bs: nat, files0: seq<seq<byte>>, ch0: seq<seq<nat>>, free0: nat, files: seq<seq<byte>>,
      ch: seq<seq<nat>>, free: nat, k: nat, off: u32, str: seq<byte>, at: int, code: int)
    requires bs > 0 && DidWrite(bs, files0, ch0, free0, files, ch, free, k, off, str, -1, at, code) && ch[k + 1] != []
    ensures var size0, size := SizeOf(Entry(files0[0], k)), SizeOf(Entry(files[0], k));
            && (size == Max(size0, off) <==> off != 0 || size0 == 0xFFFF_FFFF)
            && (off == 0 ==> at == size == 0xFFFF_FFFF)
  {
    hide Entry, Slots, SizeOf, CeilDiv, PutFile, NameOf, ContentOf, Overlay;
    FailedWriteSize(SizeOf(Entry(files0[0], k)), off);
  }

  // ---- opening, seen from outside ----

  /** After opening `name`, which is slot `k` now, only that name may have changed. */
  ghost predicate Opened(files0: seq<seq<byte>>, files: seq<seq<byte>>, name: cstring, k: nat) {
    && 0 < |files0| <= |files| && |files0| == 1 + Slots(files0[0]) && |files| == 1 + Slots(files[0])
       && k < Slots(files[0])
    && UniqueNames(files0[0]) && UniqueNames(files[0])
    && Live(Entry(files[0], k)) && NameOf(Entry(files[0], k)) == name
       && (Listed(Entry(files[0], k)) <==> !Ghostly(name))
    && FindSlot(files[0], name, 0) == k
    && Catalog(files) == Assign(Catalog(files0), name, Content(files, k))
    && (forall s :: 0 <= s < Slots(files0[0]) && s != k ==> KeptAt(files0, files, s))
    && (forall s :: Slots(files0[0]) <= s < Slots(files[0]) && s != k ==> Mark(Entry(files[0], s)) == 0)
    && (k < Slots(files0[0]) && Live(Entry(files0[0], k)) ==> NameOf(Entry(files0[0], k)) == name)
  }

  /** Any other name finds what it found, unless that was a deleted entry. */
  lemma OtherSearch(files0: seq<seq<byte>>, files: seq<seq<byte>>, ch0: seq<seq<nat>>, name: cstring, k: nat,
      nm: cstring)
    requires Opened(files0, files, name, k) && Sized(files0, ch0) && DirOK(files0[0], ch0) && EndsOnce(files[0])
    requires nm != name && !FindsDead(files0[0], nm)
    ensures FindSlot(files[0], nm, 0) == FindSlot(files0[0], nm, 0)
    ensures FindSlot(files0[0], nm, 0) != -1 ==>
              FindSlot(files0[0], nm, 0) != k && KeptAt(files0, files, FindSlot(files0[0], nm, 0))
  {
    hide Entry, Slots, NameOf, Catalog, Content, UniqueNames, FindSlot, EndsOnce;
    var r, r' := FindSlot(files0[0], nm, 0), FindSlot(files[0], nm, 0);
    if r == -1 {
      SearchEnds(files0[0], ch0);
      FindSlotIs(files0[0], nm, 0);
      FindSlotIs(files[0], nm, 0);
      assert r' != -1 && r' < Slots(files0[0]) && r' != k ==> KeptAt(files0, files, r');
    } else {
      FoundEntry(files0[0], ch0, nm);
      FoundFirst(files0[0], nm, 0);
      assert KeptAt(files0, files, r);
      forall s | 0 <= s < r
        ensures Mark(Entry(files[0], s)) != 0 && NameOf(Entry(files[0], s)) != nm
      {
        if s != k { assert KeptAt(files0, files, s); }
      }
      FoundThere(files[0], nm, 0, r);
    }
  }

  lemma SearchEnds(d: seq<byte>, ch: seq<seq<nat>>)
    requires DirOK(d, ch)
    ensures EndsOnce(d)
  {}

  lemma OpenedMade(files: seq<seq<byte>>, ch: seq<seq<nat>>, bs: nat, name: cstring, ch': seq<seq<nat>>)
    requires Sized(files, ch) && DirOK(files[0], ch) && ValidName(name) && |name| < NAME_LEN
             && FindSlot(files[0], name, 0) == -1
    requires bs >= ENTRY_SIZE && bs % ENTRY_SIZE == 0
    requires Sized(MadeFiles(files, bs, name), ch') && DirOK(MadeFiles(files, bs, name)[0], ch')
    ensures var f, k := MadeFiles(files, bs, name), FirstUnused(files[0], 0);
            Opened(files, f, name, k) && Content(f, k) == [] && SizeOf(Entry(f[0], k)) == 0 && ch'[k + 1] == []
            && May(Entry(f[0], k), PERM_WRITE)
  {
    hide Entry, Slots, FirstUnused, Catalog, UniqueNames, NewEntry, NameOf, SizeOf, PermOf, PutEntry, EntriesOK,
        EndsOnce, ContentOf, ValidName, Listed, Live, May, PutFile, Opened, FindSlot, Assign;
    MadeShape(files, ch, bs, name);
    CatalogMade(files, ch, bs, name);
    var k := FirstUnused(files[0], 0);
    var g := if k < Slots(files[0]) then files else GrownFiles(files, bs);
    var e := NewEntry(Entry(g[0], k), name);
    MadeIsPut(files, bs, name);
    hide MadeFiles, GrownFiles;
    NewIsListed(Entry(g[0], k), name);
    ListedLives(e);
    EmptyContent(e, g[k + 1]);
    AssignValid(Catalog(files), name, []);
    PutSame(g, k, e, g[k + 1]);
    PutOthers(files, g, k, e, g[k + 1]);
    ValidNotGhostly(name);
    FoundMade(files, PutFile(g, k, e, g[k + 1]), name, k);
    OpenedByPut(files, g, k, e, g[k + 1], name);
    OwnsNothing(MadeFiles(files, bs, name)[0], ch', k);
  }

  lemma AssignValid(m: map<cstring, seq<byte>>, name: cstring, c: seq<byte>)
    requires ValidName(name)
    ensures Assign(m, name, c) == m[name := c]
  {
    ValidNotGhostly(name);
  }

  /** The name of a file just made finds it. */
  lemma FoundMade(files: seq<seq<byte>>, f: seq<seq<byte>>, name: cstring, k: nat)
    requires 0 < |files| <= |f| && |files| == 1 + Slots(files[0]) && |f| == 1 + Slots(f[0]) && k < Slots(f[0])
    requires EndsOnce(files[0]) && EndsOnce(f[0]) && FindSlot(files[0], name, 0) == -1
    requires NameOf(Entry(f[0], k)) == name && Live(Entry(f[0], k))
    requires forall s :: 0 <= s < Slots(files[0]) && s != k ==> KeptAt(files, f, s)
    requires forall s :: Slots(files[0]) <= s < Slots(f[0]) && s != k ==> Mark(Entry(f[0], s)) == 0
    ensures FindSlot(f[0], name, 0) == k
  {
    hide Entry, Slots, NameOf, FindSlot, EndsOnce;
    var r := FindSlot(f[0], name, 0);
    FindSlotIs(f[0], name, 0);
    FindSlotIs(files[0], name, 0);
    assert r != k && r != -1 && r < Slots(files[0]) ==> KeptAt(files, f, r);
  }

  lemma OpenedByPut(files: seq<seq<byte>>, g: seq<seq<byte>>, k: nat, e: entry, b: seq<byte>, name: cstring)
    requires 0 < |files| <= |g| && |files| == 1 + Slots(files[0]) && |g| == 1 + Slots(g[0]) && k < Slots(g[0])
    requires UniqueNames(files[0]) && UniqueNames(PutFile(g, k, e, b)[0])
    requires Live(e) && NameOf(e) == name && (Listed(e) <==> !Ghostly(name))
    requires |PutFile(g, k, e, b)| == 1 + Slots(PutFile(g, k, e, b)[0])
    requires FindSlot(PutFile(g, k, e, b)[0], name, 0) == k
    requires Catalog(PutFile(g, k, e, b)) == Assign(Catalog(files), name, ContentOf(e, b))
    requires forall s :: 0 <= s < Slots(files[0]) ==> KeptAt(files, g, s)
    requires forall s :: Slots(files[0]) <= s < Slots(g[0]) ==> Mark(Entry(g[0], s)) == 0
    requires k < Slots(files[0]) && Live(Entry(files[0], k)) ==> NameOf(Entry(files[0], k)) == name
    ensures Opened(files, PutFile(g, k, e, b), name, k)
    ensures Content(PutFile(g, k, e, b), k) == ContentOf(e, b) && Entry(PutFile(g, k, e, b)[0], k) == e
  {
    hide Entry, Slots, Catalog, UniqueNames, NameOf, PutEntry, ContentOf, Listed, Live, Content, PutFile, FindSlot,
        Assign;
    PutSame(g, k, e, b);
    PutOthers(files, g, k, e, b);
  }

  lemma PutOthers(files: seq<seq<byte>>, g: seq<seq<byte>>, k: nat, e: entry, b: seq<byte>)
    requires 0 < |files| <= |g| && |files| == 1 + Slots(files[0]) && |g| == 1 + Slots(g[0]) && k < Slots(g[0])
    requires forall s :: 0 <= s < Slots(files[0]) ==> KeptAt(files, g, s)
    requires forall s :: Slots(files[0]) <= s < Slots(g[0]) ==> Mark(Entry(g[0], s)) == 0
    ensures var f := PutFile(g, k, e, b);
            && Slots(f[0]) == Slots(g[0])
            && (forall s :: 0 <= s < Slots(files[0]) && s != k ==> KeptAt(files, f, s))
            && (forall s :: Slots(files[0]) <= s < Slots(g[0]) && s != k ==> Mark(Entry(f[0], s)) == 0)
  {
    hide Entry, Slots, PutEntry;
    var f := PutFile(g, k, e, b);
    PutSame(g, k, e, b);
    forall s | 0 <= s < Slots(files[0]) && s != k
      ensures KeptAt(files, f, s)
    {
      assert KeptAt(files, g, s);
    }
  }

  lemma MadeIsPut(files: seq<seq<byte>>, bs: nat, name: cstring)
    requires files != [] && |name| < NAME_LEN && bs >= ENTRY_SIZE
    ensures var k := FirstUnused(files[0], 0);
            var g := if k < Slots(files[0]) then files else GrownFiles(files, bs);
            |g| == 1 + Slots(g[0]) && k < Slots(g[0]) ==>
              MadeFiles(files, bs, name) == PutFile(g, k, NewEntry(Entry(g[0], k), name), g[k + 1])
  {}

  lemma NewIsListed(e: entry, name: cstring)
    requires ValidName(name) && |name| < NAME_LEN
    ensures Listed(NewEntry(e, name)) && NameOf(NewEntry(e, name)) == name
            && SizeOf(NewEntry(e, name)) == 0 == BlockOf(NewEntry(e, name))
    ensures May(NewEntry(e, name), PERM_WRITE)
  {
    NewEntryFields(e, name);
    assert NameChar(name[0]);
  }

  lemma EmptyContent(e: entry, b: seq<byte>)
    requires SizeOf(e) == 0
    ensures ContentOf(e, b) == []
  {}

  lemma OwnsNothing(d: seq<byte>, ch: seq<seq<nat>>, k: nat)
    requires DirOK(d, ch) && k < Slots(d) && Live(Entry(d, k)) && BlockOf(Entry(d, k)) == 0
    ensures ch[k + 1] == []
  {
    assert SlotOK(Entry(d, k), ch[k + 1]);
  }

  lemma OpenedEmptied(files: seq<seq<byte>>, ch: seq<seq<nat>>, name: cstring)
    requires Sized(files, ch) && DirOK(files[0], ch) && !FindsDead(files[0], name) && FindSlot(files[0], name, 0) != -1
    ensures var k := FindSlot(files[0], name, 0);
            var f := PutFile(files, k, Emptied(Entry(files[0], k)), []);
            Opened(files, f, name, k) && Content(f, k) == [] && SizeOf(Entry(f[0], k)) == 0
  {
    hide Entry, Slots, FindSlot, Catalog, UniqueNames, NameOf, SizeOf, PermOf, PutEntry, EntriesOK, EndsOnce,
        ContentOf, Emptied, Opened;
    FoundEntry(files[0], ch, name);
    var k := FindSlot(files[0], name, 0);
    var e := Emptied(Entry(files[0], k));
    EmptiedIs(files[0], ch, k);
    CatalogEmptied(files, k);
    EmptyContent(e, []);
    forall s | 0 <= s < Slots(files[0])
      ensures Mark(Entry(PutEntry(files[0], k, e), s)) == Mark(Entry(files[0], s))
      ensures NameOf(Entry(PutEntry(files[0], k, e), s)) == NameOf(Entry(files[0], s))
    {
      PutGet(files[0], k, e, s);
    }
    SearchSame(files[0], PutEntry(files[0], k, e), name, 0);
    OpenedByPut(files, files, k, e, [], name);
  }

  lemma OpenedSame(files: seq<seq<byte>>, ch: seq<seq<nat>>, name: cstring)
    requires Sized(files, ch) && DirOK(files[0], ch) && !FindsDead(files[0], name) && FindSlot(files[0], name, 0) != -1
    ensures Opened(files, files, name, FindSlot(files[0], name, 0))
    ensures Content(files, FindSlot(files[0], name, 0)) == Held(files, name)
  {
    hide Entry, Slots, FindSlot, Catalog, UniqueNames, NameOf, Content;
    FoundIsInCatalog(files, ch, name);
    FoundEntry(files[0], ch, name);
    var m := Catalog(files);
    assert name in m ==> m[name := m[name]] == m;
  }

  /** A file unlinked while open keeps its chain and its content for the handles that are left. */
  lemma UnlinkedStillReads(files: seq<seq<byte>>, ch: seq<seq<nat>>, k: nat)
    requires Sized(files, ch) && DirOK(files[0], ch) && k < Slots(files[0]) && Live(Entry(files[0], k))
    ensures var f := UnlinkFiles(files, k, true);
            k < Slots(f[0]) && |f| == 1 + Slots(f[0]) && Content(f, k) == Content(files, k)
            && UnlinkChains(ch, k, true)[k + 1] == ch[k + 1]
            && Live(Entry(f[0], k)) && !Listed(Entry(f[0], k))
  {
    MarkedFields(files[0], ch, k);
    PutGet(files[0], k, WithMark(Entry(files[0], k), 2), k);
    hide Entry, Slots, SizeOf, PutEntry;
    SameContent(Entry(files[0], k), WithMark(Entry(files[0], k), 2), files[k + 1]);
  }
}
