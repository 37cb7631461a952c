/** What a write means for the contents of one file, and for the other files: nothing. */
module Contents {
  import opened Bytes
  import opened Directory
  import opened Errno
  import opened Store
  import opened Volumes

  /** `c` with `t` laid over it from `off` on; a gap in between reads as zero. */
  function Overlay(c: seq<byte>, off: nat, t: seq<byte>): (r: seq<byte>)
    ensures |r| == Max(|c|, off + |t|)
    ensures forall p :: 0 <= p < |r| ==>
      r[p] == if off <= p < off + |t| then t[p - off] else if p < |c| then c[p] else 0
  {
    var base := c + Zeros(Max(0, off + |t| - |c|));
    Splice(base, off, t)
  }

  /** The bytes of a chain after the hole between `size` and `off` has been zeroed. */
  function Filled(b: seq<byte>, size: nat, off: nat): seq<byte>
    requires off <= size || off <= |b|
  {
    if off > size then Splice(b, size, Zeros(off - size)) else b
  }

  lemma FillNone(b: seq<byte>, size: nat, off: nat)
    ensures off <= size ==> Filled(b, size, off) == b
  {}

  lemma FillMore(b: seq<byte>, size: nat, mid: nat, n: nat)
    requires size <= mid && mid + n <= |b|
    ensures Splice(Filled(b, size, mid), mid, Zeros(n)) == Filled(b, size, mid + n)
  {}

  /** How far one turn of the loop that fills a hole gets: to the end of the block, or to the end of the hole. */
  function FillPart(bs: nat, size: nat, off: nat): (n: nat)
    requires bs > 0 && size < off
    ensures 0 < n && size + n <= off
  {
    var n := bs - size % bs;
    if size + n > off then off - size else n
  }

  /** `n` bytes from `size` on lie in one block. */
  predicate InBlock(bs: nat, size: nat, n: nat)
    requires bs > 0
  {
    size % bs + n <= bs
  }

  lemma FillInBlock(bs: nat, size: nat, off: nat)
    requires bs > 0 && size < off
    ensures InBlock(bs, size, FillPart(bs, size, off))
  {}

  /**
   * Lines 232-238 of src/fs/fat.c, for a file of `n` blocks: filling the hole from `size` to `off` asks
   * fs_dataoffset, on some turn, for a place behind the chain.
   */
  predicate AsksOutside(bs: nat, n: nat, size: nat, off: nat)
    requires bs > 0
    decreases off - size
  {
    size < off && (size >= bs * n || AsksOutside(bs, n, size + FillPart(bs, size, off), off))
  }

  /** It does exactly when the hole ends behind both the size and the blocks. */
  lemma {:induction false} AsksOutsideIff(bs: nat, n: nat, size: nat, off: nat)
    requires bs > 0
    ensures AsksOutside(bs, n, size, off) <==> off > size && off > bs * n
    decreases off - size
  {
    if size < off && size < bs * n {
      var step := FillPart(bs, size, off);
      if size / bs >= n { MulMono(bs, n, size / bs); }
      MulMono(bs, size / bs + 1, n);
      MulStep(bs, size / bs);
      AsksOutsideIff(bs, n, size + step, off);
    }
  }

  /** When space ran out, the blocks are full: the old content, zeros in a gap, and as much as fitted. */
  lemma PartWritten(b0: seq<byte>, size0: nat, b1: seq<byte>, off: nat, str: seq<byte>, b: seq<byte>)
    requires size0 <= |b0| && b0 <= b1 && (off <= size0 || off <= |b1|)
    requires Wrote(Filled(b1, size0, off), b, off, str, -1)
    ensures off <= |b| && Fits(b, off) <= |str| && b == Overlay(b0[..size0], off, str[..Fits(b, off)])
  {}

  lemma KeptBefore(b0: seq<byte>, size0: nat, b1: seq<byte>, off: nat, str: seq<byte>, b: seq<byte>, size: nat)
    requires b0 <= b1 && (off <= size0 || off <= |b1|) && size >= Max(size0, off)
    requires Wrote(Filled(b1, size0, off), b, off, str, -1)
    ensures var c0, c := b0[..Min(size0, |b0|)], b[..Min(size, |b|)];
            Fits(b, off) <= |str| && Min(off, |c0|) <= |c| && c[..Min(off, |c0|)] == c0[..Min(off, |c0|)]
  {}

  lemma ContentWritten(b0: seq<byte>, size0: nat, b1: seq<byte>, off: nat, str: seq<byte>, b: seq<byte>, size: nat)
    requires size0 <= |b0| && b0 <= b1 && (off <= size0 || off <= |b1|)
    requires Overwritten(Filled(b1, size0, off), b, off, str) && str != []
    requires size == Max(size0, off + |str|)
    ensures size <= |b| && b[..size] == Overlay(b0[..size0], off, str)
  {}

  /**
   * What a write of `str` at `off` that returned `r` has made of a file: everything laid over the old content,
   * with zeros in a gap; or, when space ran out, the same as far as the file's blocks reach, nothing lost before the
   * offset.
   */
  ghost predicate WriteEffect(e0: entry, b0: seq<byte>, e: entry, b: seq<byte>, off: nat, str: seq<byte>, r: int) {
    if r == -1 then
      var n := Min(off, |ContentOf(e0, b0)|);
      && n <= |ContentOf(e, b)| && ContentOf(e, b)[..n] == ContentOf(e0, b0)[..n]
      && Fits(b, off) <= |str|
      && (b != [] && SizeOf(e0) <= |b0| ==>
            off <= |b| && b == Overlay(ContentOf(e0, b0), off, str[..Fits(b, off)]))
    else
      && SizeOf(e) == Max(SizeOf(e0), off + |str|)
      && (SizeOf(e0) <= |b0| ==> ContentOf(e, b) == Overlay(ContentOf(e0, b0), off, str))
  }

  lemma WroteFits(b0: seq<byte>, b: seq<byte>, off: nat, str: seq<byte>, r: int)
    requires Wrote(b0, b, off, str, r) && str != []
    ensures r != -1 ==> off + |str| <= |b|
  {}

  lemma NoEffect(e: entry, b: seq<byte>, off: nat, str: seq<byte>)
    ensures b == [] ==> WriteEffect(e, b, e, b, off, str, -1)
  {}

  lemma EffectIs(e0: entry, b0: seq<byte>, b1: seq<byte>, e: entry, b: seq<byte>, off: nat, str: seq<byte>, r: int)
    requires b0 <= b1 && (off <= SizeOf(e0) || off <= |b1|) && str != []
    requires Wrote(Filled(b1, SizeOf(e0), off), b, off, str, r)
    requires SizeOf(e) >= Max(SizeOf(e0), off) && (r != -1 ==> SizeOf(e) == Max(SizeOf(e0), off + |str|))
    ensures WriteEffect(e0, b0, e, b, off, str, r)
    ensures r != -1 ==> off + |str| <= |b|
  {
    WroteFits(Filled(b1, SizeOf(e0), off), b, off, str, r);
    hide Overlay, SizeOf, Overwritten, Filled;
    if r == -1 { KeptBefore(b0, SizeOf(e0), b1, off, str, b, SizeOf(e)); }
    if SizeOf(e0) <= |b0| {
      if r == -1 {
        PartWritten(b0, SizeOf(e0), b1, off, str, b);
      } else {
        ContentWritten(b0, SizeOf(e0), b1, off, str, b, SizeOf(e));
      }
    }
  }

  /**
   * From one state to the next only slot `k` changed: its chain, its bytes, and its entry except for name, mark and
   * permissions.
   */
  ghost predicate OneSlot(files0: seq<seq<byte>>, ch0: seq<seq<nat>>, files: seq<seq<byte>>, ch: seq<seq<nat>>,
      k: nat) {
    && 0 < |files0| == |files| == |ch0| == |ch| == 1 + Slots(files0[0]) && k < Slots(files0[0]) == Slots(files[0])
    && files == PutFile(files0, k, Entry(files[0], k), files[k + 1])
    && ch == ch0[k + 1 := ch[k + 1]]
    && KeepsName(Entry(files0[0], k), Entry(files[0], k))
  }

  /**
   * A write of `str` at `off` to slot `k` has returned `r` and left the handle at `at`: it succeeds exactly when the
   * blocks it takes are there; then all of it is in place and no block too many is taken. When space runs out, the
   * handle goes back by one, unless the file did not even get its first block.
   */
  ghost predicate DidWrite(bs: nat, files0: seq<seq<byte>>, ch0: seq<seq<nat>>, free0: nat, files: seq<seq<byte>>,
      ch: seq<seq<nat>>, free: nat, k: nat, off: nat, str: seq<byte>, r: int, at: int, code: int)
    requires bs > 0
  {
    && (r == |str| || r == -1)
    && OneSlot(files0, ch0, files, ch, k) && ch0[k + 1] <= ch[k + 1]
    && free + |ch[k + 1]| == free0 + |ch0[k + 1]|
    && (r != -1 <==> CeilDiv(off + |str|, bs) <= |ch0[k + 1]| + free0)
    && WriteEffect(Entry(files0[0], k), files0[k + 1], Entry(files[0], k), files[k + 1], off, str, r)
    && (r != -1 ==> at == off + |str| && |ch[k + 1]| == Max(|ch0[k + 1]|, CeilDiv(off + |str|, bs)))
    && (r == -1 ==> code == PETOOFAT && free == 0)
    && (r == -1 ==> if ch[k + 1] == [] then files == files0 && ch == ch0 && at == off
                    else at == (off - 1) % 0x1_0000_0000
                         && SizeOf(Entry(files[0], k)) == Max(Max(SizeOf(Entry(files0[0], k)), off), at))
  }

  /** A write that succeeded has laid its text over the content; at the end, that is appending. */
  lemma WroteAt(bs: nat, files0: seq<seq<byte>>, ch0: seq<seq<nat>>, free0: nat, files: seq<seq<byte>>,
      ch: seq<seq<nat>>, free: nat, k: nat, off: nat, str: seq<byte>, r: int, at: int, code: int)
    requires bs > 0 && DidWrite(bs, files0, ch0, free0, files, ch, free, k, off, str, r, at, code) && r == |str| > 0
    requires SizeOf(Entry(files0[0], k)) <= |files0[k + 1]|
    ensures |files| == |files0| == 1 + Slots(files0[0]) == 1 + Slots(files[0]) && k < Slots(files[0])
    ensures Content(files, k) == Overlay(Content(files0, k), off, str) && at == off + |str|
    ensures off == SizeOf(Entry(files0[0], k)) ==>
              Content(files, k) == Content(files0, k) + str && at == |Content(files, k)| == SizeOf(Entry(files[0], k))
  {
    hide Entry, Slots, SizeOf, CeilDiv, PutFile, KeepsName;
    var c0 := Content(files0, k);
    assert |c0| == SizeOf(Entry(files0[0], k));
    if off == |c0| { assert Overlay(c0, off, str) == c0 + str; }
  }

  /**
   * What a file that held `c` reads as after a write at `off` of which only `part` fitted: all of it when it started at
   * offset 0; otherwise nothing new behind the old end and the gap.
   */
  function Torn(c: seq<byte>, off: nat, part: seq<byte>): seq<byte> {
    var b := Overlay(c, off, part);
    if off == 0 then b[..Min(|b|, 0xFFFF_FFFF)] else b[..Max(|c|, off)]
  }

  /** A write that ran out of space, after its file got a block. */
  lemma WriteTorn(bs: nat, files0: seq<seq<byte>>, ch0: seq<seq<nat>>, free0: nat, files: seq<seq<byte>>,
      ch: seq<seq<nat>>, free: nat, k: nat, off: u32, str: seq<byte>, at: int, code: int)
    requires bs > 0 && DidWrite(bs, files0, ch0, free0, files, ch, free, k, off, str, -1, at, code) && ch[k + 1] != []
    requires files[k + 1] != [] && SizeOf(Entry(files0[0], k)) <= |files0[k + 1]|
    ensures off <= |files[k + 1]| <= off + |str|
    ensures Content(files, k) == Torn(Content(files0, k), off, str[..|files[k + 1]| - off])
  {
    hide Entry, Slots, SizeOf, CeilDiv, PutFile, KeepsName;
    var size0, b0, b := SizeOf(Entry(files0[0], k)), files0[k + 1], files[k + 1];
    assert Fits(b, off) == |b| - off;
    hide Overlay;
    assert ContentOf(Entry(files0[0], k), b0) == b0[..size0];
  }

  /** At the end of a file that is not empty, nothing changes but the handle. */
  lemma TornAtEnd(bs: nat, files0: seq<seq<byte>>, ch0: seq<seq<nat>>, free0: nat, files: seq<seq<byte>>,
      ch: seq<seq<nat>>, free: nat, k: nat, off: u32, str: seq<byte>, r: int, at: int,
      code: int)
    requires bs > 0 && DidWrite(bs, files0, ch0, free0, files, ch, free, k, off, str, r, at, code) && r != |str|
    requires ch0[k + 1] != [] && 0 < off == SizeOf(Entry(files0[0], k)) <= |files0[k + 1]|
    ensures |files| == |files0| == 1 + Slots(files0[0]) == 1 + Slots(files[0]) && k < Slots(files[0])
    ensures Content(files, k) == Content(files0, k) && at == |Content(files0, k)| - 1
  {
    hide Entry, Slots, SizeOf, CeilDiv, PutFile, KeepsName;
    var c0, b := Content(files0, k), files[k + 1];
    assert |c0| == off;
    WriteTorn(bs, files0, ch0, free0, files, ch, free, k, off, str, at, code);
    assert Torn(c0, off, str[..|b| - off]) == c0;
  }

  predicate KeepsName(e0: entry, e: entry) {
    NameOf(e) == NameOf(e0) && Mark(e) == Mark(e0) && PermOf(e) == PermOf(e0)
  }

  lemma PutFileEntry(files: seq<seq<byte>>, k: nat, e: entry, b: seq<byte>)
    requires |files| > 0 && |files| == 1 + Slots(files[0]) && k < Slots(files[0])
    ensures Slots(PutFile(files, k, e, b)[0]) == Slots(files[0])
    ensures Entry(PutFile(files, k, e, b)[0], k) == e && PutFile(files, k, e, b)[k + 1] == b
  {
    PutGet(files[0], k, e, k);
  }

  lemma PutFileTwice(files: seq<seq<byte>>, k: nat, e: entry, b: seq<byte>, e': entry, b': seq<byte>)
    requires |files| > 0 && |files| == 1 + Slots(files[0]) && k < Slots(files[0])
    ensures PutFile(PutFile(files, k, e, b), k, e', b') == PutFile(files, k, e', b')
  {
    PutTwice(files[0], k, e, e');
  }

  lemma OneSlotPut(files: seq<seq<byte>>, ch: seq<seq<nat>>, k: nat, e: entry, b: seq<byte>, c: seq<nat>)
    requires |files| > 0 && |ch| == |files| == 1 + Slots(files[0]) && k < Slots(files[0])
    requires KeepsName(Entry(files[0], k), e)
    ensures OneSlot(files, ch, PutFile(files, k, e, b), ch[k + 1 := c], k)
  {
    PutFileEntry(files, k, e, b);
  }

  lemma OneSlotBytes(files: seq<seq<byte>>, ch: seq<seq<nat>>, k: nat, b: seq<byte>)
    requires |files| > 0 && |ch| == |files| == 1 + Slots(files[0]) && k < Slots(files[0])
    ensures OneSlot(files, ch, files[k + 1 := b], ch, k)
  {
    assert PutEntry(files[0], k, Entry(files[0], k)) == files[0];
  }

  lemma OneSlotTail(files: seq<seq<byte>>, ch: seq<seq<nat>>, k: nat, b: seq<byte>, c: seq<nat>)
    requires |files| > 0 && |ch| == |files| == 1 + Slots(files[0]) && k < Slots(files[0])
    ensures OneSlot(files, ch, files[k + 1 := b], ch[k + 1 := c], k)
  {
    assert PutEntry(files[0], k, Entry(files[0], k)) == files[0];
  }

  lemma OneSlotRefl(files: seq<seq<byte>>, ch: seq<seq<nat>>, k: nat)
    requires |files| > 0 && |ch| == |files| == 1 + Slots(files[0]) && k < Slots(files[0])
    ensures OneSlot(files, ch, files, ch, k)
  {
    assert PutEntry(files[0], k, Entry(files[0], k)) == files[0];
  }

  lemma OneSlotTrans(f0: seq<seq<byte>>, c0: seq<seq<nat>>, f1: seq<seq<byte>>, c1: seq<seq<nat>>, f2: seq<seq<byte>>,
      c2: seq<seq<nat>>, k: nat)
    requires OneSlot(f0, c0, f1, c1, k) && OneSlot(f1, c1, f2, c2, k)
    ensures OneSlot(f0, c0, f2, c2, k)
  {
    hide Entry, Slots, PutEntry, NameOf, PermOf;
    PutFileTwice(f0, k, Entry(f1[0], k), f1[k + 1], Entry(f2[0], k), f2[k + 1]);
  }

  lemma OneSlotKeeps(f0: seq<seq<byte>>, c0: seq<seq<nat>>, f: seq<seq<byte>>, c: seq<seq<nat>>, k: nat)
    requires OneSlot(f0, c0, f, c, k)
    ensures |f| == |f0| > 0 && |c| == |c0| && k < Slots(f[0]) == Slots(f0[0])
    ensures May(Entry(f[0], k), PERM_WRITE) == May(Entry(f0[0], k), PERM_WRITE)
            && NameOf(Entry(f[0], k)) == NameOf(Entry(f0[0], k)) && Mark(Entry(f[0], k)) == Mark(Entry(f0[0], k))
  {}

  /** The other slots: same entry, same content. */
  lemma OthersSame(f0: seq<seq<byte>>, c0: seq<seq<nat>>, f: seq<seq<byte>>, c: seq<seq<nat>>, k: nat, s: nat)
    requires OneSlot(f0, c0, f, c, k) && s < Slots(f0[0]) && s != k
    ensures Entry(f[0], s) == Entry(f0[0], s) && Content(f, s) == Content(f0, s) && c[s + 1] == c0[s + 1]
  {
    PutGet(f0[0], k, Entry(f[0], k), s);
  }
}
