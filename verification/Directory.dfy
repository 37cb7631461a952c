/** The root directory: 64-byte entries laid out in the bytes of the root chain. */
module Directory {
  import opened Bytes

  const ENTRY_SIZE := 64
  const NAME_LEN := 32
  const PERM_WRITE := 2
  const PERM_READ := 4

  type entry = e: seq<byte> | |e| == ENTRY_SIZE ghost witness Zeros(ENTRY_SIZE)

  /** A C string: its NUL is where the sequence ends. */
  type cstring = s: seq<byte> | forall i :: 0 <= i < |s| ==> s[i] != 0

  // ---- the fields of an entry ----

  function Mark(e: entry): byte { e[0] }
  function NameOf(e: entry): cstring { CStr(e[..NAME_LEN], 0) }
  function SizeOf(e: entry): u32 { Dec32(e[32..36]) }
  function BlockOf(e: entry): u16 { Dec16(e[36..38]) }
  function PermOf(e: entry): byte { e[39] }

  /** The entry still stands for a file: listed, or unlinked while open. */
  predicate Live(e: entry) { Mark(e) != 0 && Mark(e) != 1 }

  /** What the listing shows: `name[0] > 2` on a signed char. */
  predicate Listed(e: entry) { 2 < Mark(e) < 0x80 }

  predicate May(e: entry, bit: nat)
    requires bit > 0
  {
    PermOf(e) / bit % 2 == 1
  }

  function WithMark(e: entry, m: byte): entry { Splice(e, 0, [m]) }
  function WithName(e: entry, name: cstring): entry
    requires |name| < NAME_LEN
  {
    Splice(e, 0, Padded(name))
  }
  function WithSize(e: entry, v: u32): entry { Splice(e, 32, Enc32(v)) }
  function WithBlock(e: entry, v: u16): entry { Splice(e, 36, Enc16(v)) }
  function WithKind(e: entry, kind: byte, perm: byte): entry { Splice(e, 38, [kind, perm]) }

  /** strncpy: the name and NULs up to the end of the field. */
  function Padded(name: cstring): (r: seq<byte>)
    requires |name| < NAME_LEN
    ensures |r| == NAME_LEN
  {
    name + Zeros(NAME_LEN - |name|)
  }

  // ---- C strings ----

  function CharAt(s: seq<byte>, i: nat): byte {
    if i < |s| then s[i] else 0
  }

  /** The characters of `s` from `i` on, up to a NUL or to the end of the field. */
  function CStr(s: seq<byte>, i: nat): (r: cstring)
    ensures |r| <= Max(0, NAME_LEN - i)
    decreases NAME_LEN - i
  {
    if i >= NAME_LEN || CharAt(s, i) == 0 then [] else [CharAt(s, i)] + CStr(s, i + 1)
  }

  /** strncmp(a, b, NAME_LEN) == 0, from character `i` on. */
  predicate SameName(a: seq<byte>, b: seq<byte>, i: nat)
    decreases NAME_LEN - i
  {
    i >= NAME_LEN || (CharAt(a, i) == CharAt(b, i) && (CharAt(a, i) == 0 || SameName(a, b, i + 1)))
  }

  lemma {:induction false} SameNameIs(a: seq<byte>, b: seq<byte>, i: nat)
    ensures SameName(a, b, i) <==> CStr(a, i) == CStr(b, i)
    decreases NAME_LEN - i
  {
    if i < NAME_LEN {
      SameNameIs(a, b, i + 1);
      if CharAt(a, i) != 0 && CharAt(b, i) != 0 {
        var x, y := CStr(a, i + 1), CStr(b, i + 1);
        assert ([CharAt(a, i)] + x)[1..] == x;
        assert ([CharAt(b, i)] + y)[1..] == y;
      }
    }
  }

  /** A string kept in the field, with whatever follows its NUL, reads back as itself. */
  lemma {:induction false} CStrOf(s: seq<byte>, name: cstring, i: nat)
    requires i <= |name| < NAME_LEN
    requires forall k :: 0 <= k < |name| ==> CharAt(s, k) == name[k]
    requires CharAt(s, |name|) == 0
    ensures CStr(s, i) == name[i..]
    decreases |name| - i
  {
    if i < |name| {
      CStrOf(s, name, i + 1);
      assert name[i..] == [name[i]] + name[i + 1..];
    }
  }

  lemma {:induction false} CStrLong(name: cstring, i: nat)
    requires i <= NAME_LEN <= |name|
    ensures |CStr(name, i)| == NAME_LEN - i
    decreases NAME_LEN - i
  {
    if i < NAME_LEN { CStrLong(name, i + 1); }
  }

  /** Against a name that fits its field, strncmp is plain equality. */
  lemma MatchIs(e: entry, name: cstring)
    requires |NameOf(e)| < NAME_LEN
    ensures SameName(e[..NAME_LEN], name, 0) <==> NameOf(e) == name
  {
    SameNameIs(e[..NAME_LEN], name, 0);
    if |name| < NAME_LEN {
      CStrOf(name, name, 0);
    } else {
      CStrLong(name, 0);
    }
  }

  predicate NameChar(c: byte) {
    || '0' as int <= c <= '9' as int
    || 'A' as int <= c <= 'Z' as int
    || 'a' as int <= c <= 'z' as int
    || c == '-' as int || c == '_' as int || c == '.' as int
  }

  predicate ValidName(name: seq<byte>) {
    0 < |name| < NAME_LEN && forall i :: 0 <= i < |name| ==> NameChar(name[i])
  }

  /** The names a file can be given, by character code: 1 to 31 digits, letters, '-', '.' and '_'. */
  lemma ValidNameIs(name: seq<byte>)
    ensures ValidName(name) <==>
            && 1 <= |name| <= 31
            && forall i :: 0 <= i < |name| ==>
                 || 48 <= name[i] <= 57 || 65 <= name[i] <= 90 || 97 <= name[i] <= 122
                 || name[i] == 45 || name[i] == 46 || name[i] == 95
  {}

  // ---- the fields, byte by byte ----

  /** An entry as it lies on the disk: 32 bytes of name, then numbers with the low byte first. */
  lemma EntryBytes(e: entry)
    ensures |e| == 64 && Mark(e) == e[0] && |NameOf(e)| <= 32
    ensures forall i :: 0 <= i < |NameOf(e)| ==> e[i] == NameOf(e)[i]
    ensures |NameOf(e)| < 32 ==> e[|NameOf(e)|] == 0
    ensures SizeOf(e) as int == (e[32] as int) + 0x100 * (e[33] as int) + 0x1_0000 * (e[34] as int)
                                + 0x100_0000 * (e[35] as int)
    ensures BlockOf(e) as int == (e[36] as int) + 0x100 * (e[37] as int)
    ensures May(e, PERM_WRITE) <==> e[39] % 4 >= 2
    ensures May(e, PERM_READ) <==> e[39] % 8 >= 4
  {
    hide CStr;
    PermBits(e);
    CStrBytes(e[..NAME_LEN], 0);
    assert e[32..36][..2] == e[32..34] && e[32..36][2..] == e[34..36];
  }

  /** The permission bits: 2 to write, 4 to read. */
  lemma PermBits(e: entry)
    ensures May(e, PERM_WRITE) <==> e[39] % 4 >= 2
    ensures May(e, PERM_READ) <==> e[39] % 8 >= 4
  {}

  lemma {:induction false} CStrBytes(s: seq<byte>, i: nat)
    requires i <= NAME_LEN == |s|
    ensures var c := CStr(s, i);
            && i + |c| <= NAME_LEN && (i + |c| < NAME_LEN ==> s[i + |c|] == 0)
            && forall k :: 0 <= k < |c| ==> c[k] == s[i + k]
    decreases NAME_LEN - i
  {
    if i < NAME_LEN && s[i] != 0 {
      CStrBytes(s, i + 1);
      var c, t := CStr(s, i), CStr(s, i + 1);
      assert c == [s[i]] + t;
      forall k | 0 <= k < |c|
        ensures c[k] == s[i + k]
      {
        if k > 0 { assert c[k] == t[k - 1]; }
      }
    }
  }

  /** The entry of a file just made: its name, NULs, size 0, no block, type 1, permissions 6. */
  lemma NewEntryBytes(e: entry, name: cstring)
    requires 0 < |name| < 32
    ensures var r := NewEntry(e, name);
            && r[..|name|] == name && (forall i :: |name| <= i < 32 ==> r[i] == 0)
            && r[32..40] == [0, 0, 0, 0, 0, 0, 1, 6] && r[48..] == e[48..]
  {
    NewEntryFields(e, name);
    var e1 := WithName(e, name);
    assert e1[..|name|] == name && forall i :: |name| <= i < 32 ==> e1[i] == 0;
    var r := NewEntry(e, name);
    assert forall i :: 0 <= i < 32 ==> r[i] == e1[i];
    assert forall i :: 40 <= i < 64 ==> r[i] == e[i];
    assert forall i :: 32 <= i < 38 ==> r[i] == 0;
  }

  // ---- what writing a field does to the others ----

  lemma NamePrefix(e: entry, e': entry)
    requires forall i :: 0 <= i < NAME_LEN ==> e'[i] == e[i]
    ensures NameOf(e') == NameOf(e) && Mark(e') == Mark(e)
  {
    assert e'[..NAME_LEN] == e[..NAME_LEN];
  }

  lemma SizeField(e: entry, v: u32)
    ensures SizeOf(WithSize(e, v)) == v && NameOf(WithSize(e, v)) == NameOf(e) && Mark(WithSize(e, v)) == Mark(e)
    ensures BlockOf(WithSize(e, v)) == BlockOf(e) && PermOf(WithSize(e, v)) == PermOf(e)
  {
    var e' := WithSize(e, v);
    NamePrefix(e, e');
    assert e'[32..36] == Enc32(v);
    DecEnc32(v);
    assert e'[36..38] == e[36..38];
  }

  lemma BlockField(e: entry, v: u16)
    ensures BlockOf(WithBlock(e, v)) == v && NameOf(WithBlock(e, v)) == NameOf(e) && Mark(WithBlock(e, v)) == Mark(e)
    ensures SizeOf(WithBlock(e, v)) == SizeOf(e) && PermOf(WithBlock(e, v)) == PermOf(e)
  {
    var e' := WithBlock(e, v);
    NamePrefix(e, e');
    assert e'[36..38] == Enc16(v);
    DecEnc16(v);
    assert e'[32..36] == e[32..36];
  }

  lemma KindField(e: entry, kind: byte, perm: byte)
    ensures var e' := WithKind(e, kind, perm);
            PermOf(e') == perm && NameOf(e') == NameOf(e) && Mark(e') == Mark(e) && SizeOf(e') == SizeOf(e)
            && BlockOf(e') == BlockOf(e)
  {
    var e' := WithKind(e, kind, perm);
    NamePrefix(e, e');
    assert e'[32..36] == e[32..36] && e'[36..38] == e[36..38];
  }

  lemma NameField(e: entry, name: cstring)
    requires 0 < |name| < NAME_LEN
    ensures var e' := WithName(e, name);
            NameOf(e') == name && Mark(e') == name[0] && SizeOf(e') == SizeOf(e) && BlockOf(e') == BlockOf(e)
            && PermOf(e') == PermOf(e)
  {
    var e' := WithName(e, name);
    CStrOf(e'[..NAME_LEN], name, 0);
    assert e'[32..36] == e[32..36] && e'[36..38] == e[36..38];
  }

  lemma MarkField(e: entry, m: byte)
    requires m != 0 && NameOf(e) != []
    ensures var e' := WithMark(e, m);
            Mark(e') == m && NameOf(e') == NameOf(e)[0 := m] && SizeOf(e') == SizeOf(e) && BlockOf(e') == BlockOf(e)
            && PermOf(e') == PermOf(e)
  {
    var e' := WithMark(e, m);
    var t := CStr(e[..NAME_LEN], 1);
    SameTail(e[..NAME_LEN], e'[..NAME_LEN], 1);
    assert NameOf(e) == [e[0]] + t;
    assert NameOf(e') == [m] + t;
    UpdateHead(e[0], m, t);
    assert e'[32..36] == e[32..36] && e'[36..38] == e[36..38];
  }

  lemma UpdateHead(x: byte, y: byte, t: seq<byte>)
    ensures ([x] + t)[0 := y] == [y] + t
  {}

  lemma {:induction false} SameTail(a: seq<byte>, b: seq<byte>, i: nat)
    requires |a| == |b| && forall k :: i <= k < |a| ==> a[k] == b[k]
    ensures CStr(a, i) == CStr(b, i)
    decreases NAME_LEN - i
  {
    if i < NAME_LEN { SameTail(a, b, i + 1); }
  }

  // ---- the directory as a whole ----

  function Slots(d: seq<byte>): nat {
    |d| / ENTRY_SIZE
  }

  /** Entry `k` of the directory bytes `d`. */
  function Entry(d: seq<byte>, k: nat): entry
    requires k < Slots(d)
  {
    d[ENTRY_SIZE * k..ENTRY_SIZE * k + ENTRY_SIZE]
  }

  function PutEntry(d: seq<byte>, k: nat, e: entry): (r: seq<byte>)
    requires k < Slots(d)
    ensures |r| == |d| && Slots(r) == Slots(d)
  {
    Splice(d, ENTRY_SIZE * k, e)
  }

  lemma PutGet(d: seq<byte>, k: nat, e: entry, k': nat)
    requires k < Slots(d) && k' < Slots(d)
    ensures Entry(PutEntry(d, k, e), k') == if k' == k then e else Entry(d, k')
  {}

  lemma PutTwice(d: seq<byte>, k: nat, e: entry, e': entry)
    requires k < Slots(d)
    ensures PutEntry(PutEntry(d, k, e), k, e') == PutEntry(d, k, e')
  {}

  /** Writing a field in place is putting back the entry with that field written. */
  lemma PutField(d: seq<byte>, k: nat, at: nat, t: seq<byte>)
    requires k < Slots(d) && at + |t| <= ENTRY_SIZE
    ensures Splice(d, ENTRY_SIZE * k + at, t) == PutEntry(d, k, Splice(Entry(d, k), at, t))
  {}

  /** An entry and the chain it owns. Nothing is owned once the entry is dead, though it may still name a block. */
  predicate SlotOK(e: entry, c: seq<nat>) {
    if Live(e) then
      && (BlockOf(e) == 0 <==> c == [])
      && (c != [] ==> c[0] == BlockOf(e))
      && (c == [] ==> SizeOf(e) == 0)
    else
      c == [] && (Mark(e) == 1 && BlockOf(e) == 0 ==> SizeOf(e) == 0)
  }

  predicate NamedOK(e: entry) {
    && (Mark(e) != 0 ==> |NameOf(e)| < NAME_LEN)
    && (Mark(e) > 2 ==> ValidName(NameOf(e)))
  }

  predicate EntriesOK(d: seq<byte>, ch: seq<seq<nat>>) {
    && |d| == ENTRY_SIZE * Slots(d) && |ch| == 1 + Slots(d)
    && forall k :: 0 <= k < Slots(d) ==> SlotOK(Entry(d, k), ch[k + 1]) && NamedOK(Entry(d, k))
  }

  /** Once an entry is marked as the end of the directory, so are all after it. */
  predicate EndsOnce(d: seq<byte>) {
    forall k, k' :: 0 <= k < k' < Slots(d) && Mark(Entry(d, k)) == 0 ==> Mark(Entry(d, k')) == 0
  }

  predicate UniqueNames(d: seq<byte>) {
    forall k, k' :: 0 <= k < k' < Slots(d) && Listed(Entry(d, k)) && Listed(Entry(d, k')) ==>
                      NameOf(Entry(d, k)) != NameOf(Entry(d, k'))
  }

  /** The directory invariant. */
  predicate DirOK(d: seq<byte>, ch: seq<seq<nat>>) {
    EntriesOK(d, ch) && EndsOnce(d) && UniqueNames(d)
  }

  /** Entry `k` may become `e` without disturbing the other names or the end of the directory. */
  predicate Placeable(d: seq<byte>, k: nat, e: entry)
    requires k < Slots(d)
  {
    && Mark(e) != 0 && NamedOK(e)
    && (forall k' :: 0 <= k' < k ==> Mark(Entry(d, k')) != 0)
    && (Listed(e) ==>
          forall k' :: 0 <= k' < Slots(d) && k' != k && Listed(Entry(d, k')) ==> NameOf(Entry(d, k')) != NameOf(e))
  }

  lemma DirUpdate(d: seq<byte>, ch: seq<seq<nat>>, k: nat, e: entry, c: seq<nat>)
    requires DirOK(d, ch) && k < Slots(d) && Placeable(d, k, e) && SlotOK(e, c)
    ensures DirOK(PutEntry(d, k, e), ch[k + 1 := c])
  {
    var d' := PutEntry(d, k, e);
    forall k' | 0 <= k' < Slots(d)
      ensures Entry(d', k') == if k' == k then e else Entry(d, k')
    {
      PutGet(d, k, e, k');
    }
  }

  /** Changing anything but name and mark of a live entry is always placeable. */
  lemma SameNamePlaceable(d: seq<byte>, ch: seq<seq<nat>>, k: nat, e: entry)
    requires DirOK(d, ch) && k < Slots(d) && Mark(Entry(d, k)) != 0
    requires NameOf(e) == NameOf(Entry(d, k)) && Mark(e) == Mark(Entry(d, k))
    ensures Placeable(d, k, e)
  {
    assert NamedOK(Entry(d, k));
  }

  lemma DeadPlaceable(d: seq<byte>, ch: seq<seq<nat>>, k: nat, e: entry)
    requires DirOK(d, ch) && k < Slots(d) && Mark(Entry(d, k)) != 0
    requires Mark(e) in {1, 2} && |NameOf(e)| < NAME_LEN
    ensures Placeable(d, k, e)
  {}

  /** A zeroed block behind a directory without end marker: just more room. */
  lemma DirGrow(d: seq<byte>, ch: seq<seq<nat>>, root: seq<nat>, n: nat)
    requires DirOK(d, ch) && forall k :: 0 <= k < Slots(d) ==> Mark(Entry(d, k)) != 0
    ensures DirOK(d + Zeros(ENTRY_SIZE * n), ch[0 := root] + seq(n, _ => []))
    ensures Slots(d + Zeros(ENTRY_SIZE * n)) == Slots(d) + n
    ensures forall k :: 0 <= k < Slots(d) ==> Entry(d + Zeros(ENTRY_SIZE * n), k) == Entry(d, k)
    ensures forall k :: Slots(d) <= k < Slots(d) + n ==> Mark(Entry(d + Zeros(ENTRY_SIZE * n), k)) == 0
  {
    var d', ch' := d + Zeros(ENTRY_SIZE * n), ch[0 := root] + seq(n, _ => []);
    forall k | 0 <= k < Slots(d')
      ensures k < Slots(d) ==> Entry(d', k) == Entry(d, k)
      ensures k >= Slots(d) ==> Mark(Entry(d', k)) == 0 && ch'[k + 1] == []
      ensures SlotOK(Entry(d', k), ch'[k + 1]) && NamedOK(Entry(d', k))
    {
      if k < Slots(d) {
        assert Entry(d', k) == Entry(d, k);
        assert SlotOK(Entry(d, k), ch[k + 1]);
      }
    }
  }

  // ---- looking a name up, and listing ----

  /** fs_find, from slot `k` on: the slot, or -1. */
  function FindSlot(d: seq<byte>, name: cstring, k: nat): (r: int)
    ensures -1 <= r < Slots(d) && (r != -1 ==> r >= k)
    decreases Slots(d) - k
  {
    if k >= Slots(d) || Mark(Entry(d, k)) == 0 then -1
    else if NameOf(Entry(d, k)) == name then k
    else FindSlot(d, name, k + 1)
  }

  /** fs_lsall, from slot `k` on. */
  function Listing(d: seq<byte>, k: nat): seq<entry>
    decreases Slots(d) - k
  {
    if k >= Slots(d) || Mark(Entry(d, k)) == 0 then []
    else (if Listed(Entry(d, k)) then [Entry(d, k)] else []) + Listing(d, k + 1)
  }

  lemma {:induction false} FindSlotIs(d: seq<byte>, name: cstring, k: nat)
    requires EndsOnce(d)
    ensures var r := FindSlot(d, name, k);
            if r == -1 then forall s :: k <= s < Slots(d) && Mark(Entry(d, s)) != 0 ==> NameOf(Entry(d, s)) != name
            else NameOf(Entry(d, r)) == name && Mark(Entry(d, r)) != 0
    decreases Slots(d) - k
  {
    hide Entry, Slots, NameOf;
    if k < Slots(d) {
      if Mark(Entry(d, k)) == 0 {
        assert forall s :: k <= s < Slots(d) ==> Mark(Entry(d, s)) == 0;
      } else if NameOf(Entry(d, k)) != name {
        FindSlotIs(d, name, k + 1);
      }
    }
  }

  lemma {:induction false} ListingIs(d: seq<byte>, k: nat, e: entry)
    requires EndsOnce(d)
    ensures e in Listing(d, k) <==> exists s :: k <= s < Slots(d) && Listed(Entry(d, s)) && Entry(d, s) == e
    decreases Slots(d) - k
  {
    hide Entry, Slots;
    if k < Slots(d) && Mark(Entry(d, k)) != 0 {
      hide EndsOnce;
      ListingIs(d, k + 1, e);
      var rest := Listing(d, k + 1);
      assert Listing(d, k) == (if Listed(Entry(d, k)) then [Entry(d, k)] else []) + rest;
      hide Listing, Listed;
      assert e in Listing(d, k) <==> (Listed(Entry(d, k)) && Entry(d, k) == e) || e in rest;
    } else if k < Slots(d) {
      assert forall s :: k <= s < Slots(d) ==> Mark(Entry(d, s)) == 0;
    }
  }

  /** No file is ever created under such a name, yet an entry marked deleted or unlinked may spell it. */
  predicate Ghostly(name: cstring) {
    |name| > 0 && (name[0] == 1 || name[0] == 2)
  }

  /**
   * A name is found exactly when the listing shows it, except that a name starting with the byte 1 or 2 can also
   * match an entry that is deleted, or unlinked while open: such an entry is found but not listed.
   */
  lemma FindIffListed(d: seq<byte>, ch: seq<seq<nat>>, name: cstring)
    requires DirOK(d, ch)
    ensures (exists e :: e in Listing(d, 0) && NameOf(e) == name) <==>
            (FindSlot(d, name, 0) != -1 && !Ghostly(name))
  {
    FindSlotIs(d, name, 0);
    var r := FindSlot(d, name, 0);
    if e :| e in Listing(d, 0) && NameOf(e) == name {
      ListingIs(d, 0, e);
      FirstChar(e);
      assert r != -1;
    }
    if r != -1 && !Ghostly(name) {
      FirstChar(Entry(d, r));
      assert NamedOK(Entry(d, r));
      ListingIs(d, 0, Entry(d, r));
      assert Entry(d, r) in Listing(d, 0);
    }
  }

  /** fs_find comes up with a deleted entry. */
  predicate FindsDead(d: seq<byte>, name: cstring) {
    |name| > 0 && name[0] == 1 && FindSlot(d, name, 0) != -1
  }

  /** And that entry still names a block, which is not its own any more. */
  predicate FindsStale(d: seq<byte>, name: cstring) {
    FindsDead(d, name) && BlockOf(Entry(d, FindSlot(d, name, 0))) != 0
  }

  /** What a successful search comes up with: the first character of the name says what state the entry is in. */
  lemma FoundEntry(d: seq<byte>, ch: seq<seq<nat>>, name: cstring)
    requires DirOK(d, ch) && FindSlot(d, name, 0) != -1
    ensures var e := Entry(d, FindSlot(d, name, 0));
            && NameOf(e) == name && |name| > 0 && Mark(e) == name[0] != 0
            && (Live(e) <==> !FindsDead(d, name)) && (Listed(e) <==> !Ghostly(name))
  {
    var k := FindSlot(d, name, 0);
    FindSlotIs(d, name, 0);
    assert NamedOK(Entry(d, k));
    FirstChar(Entry(d, k));
    if Mark(Entry(d, k)) > 2 { assert NameChar(name[0]); }
  }

  /** It is the first used slot of that name. */
  lemma {:induction false} FoundFirst(d: seq<byte>, name: cstring, k: nat)
    requires FindSlot(d, name, k) != -1
    ensures forall s :: k <= s < FindSlot(d, name, k) ==> Mark(Entry(d, s)) != 0 && NameOf(Entry(d, s)) != name
    decreases Slots(d) - k
  {
    hide Entry, Slots, NameOf;
    if NameOf(Entry(d, k)) != name { FoundFirst(d, name, k + 1); }
  }

  lemma {:induction false} FoundThere(d: seq<byte>, name: cstring, k: nat, r: nat)
    requires k <= r < Slots(d) && Mark(Entry(d, r)) != 0 && NameOf(Entry(d, r)) == name
    requires forall s :: k <= s < r ==> Mark(Entry(d, s)) != 0 && NameOf(Entry(d, s)) != name
    ensures FindSlot(d, name, k) == r
    decreases r - k
  {
    hide Entry, Slots, NameOf;
    if k < r { FoundThere(d, name, k + 1, r); }
  }

  /** Nothing but names and marks tells a search where to go. */
  lemma {:induction false} SearchSame(d: seq<byte>, d': seq<byte>, name: cstring, k: nat)
    requires Slots(d') == Slots(d)
    requires forall s :: k <= s < Slots(d) ==>
               Mark(Entry(d', s)) == Mark(Entry(d, s)) && NameOf(Entry(d', s)) == NameOf(Entry(d, s))
    ensures FindSlot(d', name, k) == FindSlot(d, name, k)
    decreases Slots(d) - k
  {
    hide Entry, Slots, NameOf;
    if k < Slots(d) { SearchSame(d, d', name, k + 1); }
  }

  lemma FirstChar(e: entry)
    requires Mark(e) != 0
    ensures |NameOf(e)| > 0 && NameOf(e)[0] == Mark(e)
  {
    assert NameOf(e) == [e[0]] + CStr(e[..NAME_LEN], 1);
  }

  // ---- creating a file ----

  const REGULAR: byte := 1
  const READ_WRITE: byte := 6

  /** An entry just created: the name, no bytes, no block, read and write permission. */
  function NewEntry(e: entry, name: cstring): entry
    requires |name| < NAME_LEN
  {
    WithKind(WithBlock(WithSize(WithName(e, name), 0), 0), REGULAR, READ_WRITE)
  }

  lemma NewEntryFields(e: entry, name: cstring)
    requires 0 < |name| < NAME_LEN
    ensures var e' := NewEntry(e, name);
            NameOf(e') == name && Mark(e') == name[0] && SizeOf(e') == 0 && BlockOf(e') == 0 && PermOf(e') == READ_WRITE
  {
    var e1 := WithName(e, name);
    var e2 := WithSize(e1, 0);
    NameField(e, name);
    SizeField(e1, 0);
    BlockField(e2, 0);
    KindField(WithBlock(e2, 0), REGULAR, READ_WRITE);
  }

  /** The first slot from `k` on that is unused: deleted, or past the end; one more than all when there is none. */
  function FirstUnused(d: seq<byte>, k: nat): (r: nat)
    requires k <= Slots(d)
    ensures k <= r <= Slots(d)
    ensures r < Slots(d) ==> !Live(Entry(d, r))
    ensures forall s :: k <= s < r ==> Live(Entry(d, s))
    decreases Slots(d) - k
  {
    if k == Slots(d) || !Live(Entry(d, k)) then k else FirstUnused(d, k + 1)
  }

  lemma FirstUnusedIs(d: seq<byte>, k: nat)
    requires k < Slots(d) && !Live(Entry(d, k)) && forall s :: 0 <= s < k ==> Live(Entry(d, s))
    ensures FirstUnused(d, 0) == k
  {
    var r := FirstUnused(d, 0);
  }

  /** Creating a file in the first unused slot, under a name nobody has. */
  lemma Created(d: seq<byte>, ch: seq<seq<nat>>, k: nat, name: cstring)
    requires DirOK(d, ch) && k < Slots(d) && k == FirstUnused(d, 0)
    requires ValidName(name) && FindSlot(d, name, 0) == -1
    ensures DirOK(PutEntry(d, k, NewEntry(Entry(d, k), name)), ch) && ch[k + 1] == []
    ensures Listed(NewEntry(Entry(d, k), name))
  {
    var e := NewEntry(Entry(d, k), name);
    NewEntryFields(Entry(d, k), name);
    assert NameChar(name[0]);
    FindSlotIs(d, name, 0);
    assert SlotOK(Entry(d, k), ch[k + 1]);
    hide NameOf, Slots, Entry, NewEntry, UniqueNames;
    assert Placeable(d, k, e);
    DirUpdate(d, ch, k, e, []);
    assert ch[k + 1 := []] == ch;
  }

  // ---- what the directory means: names to contents ----
  // files[0] is the directory itself, files[k + 1] what the chain of slot k holds.

  /** The bytes one can read from a file of entry `e` whose chain holds `b`. */
  function ContentOf(e: entry, b: seq<byte>): seq<byte> {
    b[..Min(SizeOf(e), |b|)]
  }

  function Content(files: seq<seq<byte>>, k: nat): seq<byte>
    requires |files| > 0 && |files| == 1 + Slots(files[0]) && k < Slots(files[0])
  {
    ContentOf(Entry(files[0], k), files[k + 1])
  }

  ghost function Catalog(files: seq<seq<byte>>): map<cstring, seq<byte>>
    requires |files| > 0 && |files| == 1 + Slots(files[0]) && UniqueNames(files[0])
  {
    map k | 0 <= k < Slots(files[0]) && Listed(Entry(files[0], k)) :: NameOf(Entry(files[0], k)) := Content(files, k)
  }

  lemma CatalogHas(files: seq<seq<byte>>, k: nat)
    requires |files| > 0 && |files| == 1 + Slots(files[0]) && UniqueNames(files[0])
    requires k < Slots(files[0]) && Listed(Entry(files[0], k))
    ensures NameOf(Entry(files[0], k)) in Catalog(files)
    ensures Catalog(files)[NameOf(Entry(files[0], k))] == Content(files, k)
  {
    hide Entry, Slots, NameOf, Content;
  }

  lemma CatalogOnly(files: seq<seq<byte>>, nm: cstring) returns (s: nat)
    requires |files| > 0 && |files| == 1 + Slots(files[0]) && UniqueNames(files[0]) && nm in Catalog(files)
    ensures s < Slots(files[0]) && Listed(Entry(files[0], s)) && NameOf(Entry(files[0], s)) == nm
    ensures Catalog(files)[nm] == Content(files, s)
  {
    s :| 0 <= s < Slots(files[0]) && Listed(Entry(files[0], s)) && NameOf(Entry(files[0], s)) == nm;
    CatalogHas(files, s);
  }

  /** What one entry contributes. */
  ghost function Without(m: map<cstring, seq<byte>>, e: entry): map<cstring, seq<byte>> {
    if Listed(e) then m - {NameOf(e)} else m
  }

  ghost function With(m: map<cstring, seq<byte>>, e: entry, content: seq<byte>): map<cstring, seq<byte>> {
    if Listed(e) then m[NameOf(e) := content] else m
  }

  function PutFile(files: seq<seq<byte>>, k: nat, e: entry, b: seq<byte>): (r: seq<seq<byte>>)
    requires |files| > 0 && |files| == 1 + Slots(files[0]) && k < Slots(files[0])
    ensures |r| == |files|
  {
    files[0 := PutEntry(files[0], k, e)][k + 1 := b]
  }

  lemma PutSame(files: seq<seq<byte>>, k: nat, e: entry, b: seq<byte>)
    requires |files| > 0 && |files| == 1 + Slots(files[0]) && k < Slots(files[0])
    ensures var files' := PutFile(files, k, e, b);
            Slots(files'[0]) == Slots(files[0]) && Entry(files'[0], k) == e && Content(files', k) == ContentOf(e, b)
            && forall s :: 0 <= s < Slots(files[0]) && s != k ==>
                 Entry(files'[0], s) == Entry(files[0], s) && Content(files', s) == Content(files, s)
  {
    forall s | 0 <= s < Slots(files[0])
      ensures Entry(PutEntry(files[0], k, e), s) == if s == k then e else Entry(files[0], s)
    {
      PutGet(files[0], k, e, s);
    }
  }

  /** A change of one slot changes the catalogue by that slot's contribution and nothing else. */
  lemma CatalogPut(files: seq<seq<byte>>, k: nat, e: entry, b: seq<byte>)
    requires |files| > 0 && |files| == 1 + Slots(files[0]) && UniqueNames(files[0]) && k < Slots(files[0])
    requires UniqueNames(PutEntry(files[0], k, e))
    ensures Catalog(PutFile(files, k, e, b)) == With(Without(Catalog(files), Entry(files[0], k)), e, ContentOf(e, b))
  {
    hide Entry, Slots, NameOf, Content, ContentOf, Catalog, PutEntry;
    var files' := PutFile(files, k, e, b);
    var d := files[0];
    PutSame(files, k, e, b);
    var m, m' := Catalog(files), Catalog(files');
    var w := With(Without(m, Entry(d, k)), e, ContentOf(e, b));
    forall nm | nm in m'
      ensures nm in w && w[nm] == m'[nm]
    {
      var s := CatalogOnly(files', nm);
      if s != k { CatalogHas(files, s); }
    }
    forall nm | nm in w
      ensures nm in m'
    {
      if Listed(e) && nm == NameOf(e) {
        CatalogHas(files', k);
      } else {
        var s := CatalogOnly(files, nm);
        CatalogHas(files', s);
      }
    }
  }
}
