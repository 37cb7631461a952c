/**
 * The block layer: chains of blocks over the table and the data region, changed in place.
 * Line numbers are those of src/fs/fat.c.
 */
module Volumes {
  import opened Bytes
  import opened Errno
  import opened Fat
  import opened Store

  /** `ch`, `files` are `ch0`, `files0` with chain `j` continued; what was there is kept. */
  ghost predicate Extends(ch0: seq<seq<nat>>, files0: seq<seq<byte>>, ch: seq<seq<nat>>, files: seq<seq<byte>>,
      j: nat) {
    && j < |ch0| == |ch| && |files0| == |files| == |ch0|
    && ch == ch0[j := ch[j]] && files == files0[j := files[j]]
    && ch0[j] <= ch[j] && files0[j] <= files[j]
  }

  /** `f` is `f0` with `t` laid over position `pos`, perhaps longer than before. */
  ghost predicate Overwritten(f0: seq<byte>, f: seq<byte>, pos: nat, t: seq<byte>) {
    && |f0| <= |f|
    && (t == [] || pos + |t| <= |f|)
    && (forall p :: 0 <= p < |f0| && !(pos <= p < pos + |t|) ==> f[p] == f0[p])
    && (forall p :: 0 <= p < |t| ==> f[pos + p] == t[p])
  }

  /** What a write of `str` at `pos` has done when it returns `r`: all of it, or (-1) exactly what fitted. */
  ghost predicate Wrote(f0: seq<byte>, f: seq<byte>, pos: nat, str: seq<byte>, r: int) {
    && (r == |str| || r == -1)
    && (r == |str| ==> Overwritten(f0, f, pos, str))
    && (r == -1 ==> Fits(f, pos) <= |str| && Overwritten(f0, f, pos, str[..Fits(f, pos)]))
  }

  function Fits(f: seq<byte>, pos: nat): nat {
    Max(0, |f| - pos)
  }

  /** What a read of `len` bytes at `pos` finds. */
  function Got(f: seq<byte>, pos: nat, len: nat): (r: seq<byte>)
    ensures |r| <= len
  {
    if pos >= |f| then [] else f[pos..Min(pos + len, |f|)]
  }

  /** What the host file holds from byte `o` of the k-th block of a chain on, block ends or not. */
  ghost function Raw(data: seq<byte>, bs: nat, c: seq<nat>, k: nat, o: nat): (r: seq<byte>)
    ensures |r| <= |data|
  {
    if k < |c| && c[k] >= 1 && Addr(bs, c[k], o) <= |data| then data[Addr(bs, c[k], o)..] else []
  }

  /**
   * What fs_read_blk fetches for `len` bytes at byte `o` of the k-th block of a chain that holds `f`: the file's
   * bytes, unless the 32-bit sum of `o` and `len` wraps; then the read is not split, and runs on over the host file.
   */
  ghost function FetchedFrom(data: seq<byte>, bs: nat, c: seq<nat>, f: seq<byte>, k: nat, o: nat, len: nat): seq<byte> {
    if o + len < 0x1_0000_0000 then Got(f, At(bs, k, o), len) else Raw(data, bs, c, k, o)
  }

  lemma GotZero(f: seq<byte>, pos: nat, b: seq<byte>, at: nat)
    requires at <= |b|
    ensures Got(f, pos, 0) == [] && Splice(b, at, Got(f, pos, 0)) == b
  {}

  lemma GotSplit(f: seq<byte>, pos: nat, part: nat, len: nat, b0: seq<byte>, at: nat)
    requires pos + part <= |f| && part <= len && at + len <= |b0|
    ensures Got(f, pos, part) == f[pos..pos + part]
    ensures |Got(f, pos, len)| == part + |Got(f, pos + part, len - part)| <= len
    ensures Splice(Splice(b0, at, f[pos..pos + part]), at + part, Got(f, pos + part, len - part))
              == Splice(b0, at, Got(f, pos, len))
  {
    assert Got(f, pos, len) == f[pos..pos + part] + Got(f, pos + part, len - part);
  }

  lemma OverwriteTwice(f0: seq<byte>, f1: seq<byte>, f2: seq<byte>, pos: nat, s: seq<byte>, t: seq<byte>)
    requires Overwritten(f0, f1, pos, s) && Overwritten(f1, f2, pos + |s|, t)
    requires pos + |s| + |t| <= |f2|
    ensures Overwritten(f0, f2, pos, s + t)
  {}

  lemma OverwriteSplice(f0: seq<byte>, f1: seq<byte>, pos: nat, t: seq<byte>)
    requires f0 <= f1 && pos + |t| <= |f1|
    ensures Overwritten(f0, Splice(f1, pos, t), pos, t)
  {}

  lemma WroteNothing(f0: seq<byte>, f1: seq<byte>, pos: nat, str: seq<byte>)
    requires f0 <= f1 && |f1| <= pos
    ensures Wrote(f0, f1, pos, str, -1)
  {}

  lemma WroteAll(f0: seq<byte>, f1: seq<byte>, pos: nat, str: seq<byte>)
    requires f0 <= f1 && pos + |str| <= |f1|
    ensures Wrote(f0, Splice(f1, pos, str), pos, str, |str|)
  {}

  lemma WrotePart(f0: seq<byte>, f1: seq<byte>, pos: nat, part: nat, str: seq<byte>)
    requires part <= |str| && Overwritten(f0, f1, pos, str[..part]) && |f1| == pos + part
    ensures Wrote(f0, f1, pos, str, -1)
  {}

  lemma WroteParts(f0: seq<byte>, f1: seq<byte>, f2: seq<byte>, pos: nat, part: nat, str: seq<byte>, r: int)
    requires 0 < part < |str| && pos + part <= |f2|
    requires Overwritten(f0, f1, pos, str[..part]) && Wrote(f1, f2, pos + part, str[part..], r)
    ensures Wrote(f0, f2, pos, str, if r == -1 then -1 else part + r)
  {
    var n := if r == -1 then Fits(f2, pos + part) else |str| - part;
    assert str[part..][..n] == str[part..part + n];
    assert r != -1 ==> str[part..][..n] == str[part..];
    assert str[..part] + str[part..part + n] == str[..part + n];
    OverwriteTwice(f0, f1, f2, pos, str[..part], str[part..][..n]);
    assert r != -1 ==> str[..part + n] == str;
  }

  lemma SplitAt(bs: nat, m: nat, o: nat, part: nat)
    requires part + o == bs
    ensures At(bs, m, o) + part == At(bs, m + 1, 0) == bs * (m + 1)
  {
    MulStep(bs, m);
  }

  lemma WalkStep(bs: nat, k: nat, o: nat)
    requires o < bs <= At(bs, k, o)
    ensures k > 0 && At(bs, k, o) - bs == At(bs, k - 1, o)
  {
    MulStep(bs, k);
  }

  lemma WalkDone(bs: nat, k: nat, o: nat)
    requires At(bs, k, o) < bs
    ensures k == 0 && At(bs, k, o) == o
  {
    if k > 0 { MulMono(bs, 1, k); }
  }

  lemma AtZero(bs: nat)
    ensures At(bs, 0, 0) == 0
  {}

  lemma AtBlock(bs: nat, k: nat)
    ensures At(bs, k, 0) == bs * k
  {}

  lemma SplitNeed(bs: nat, o: nat, part: nat, len: nat, need: nat)
    requires part + o == bs && part < len && bs * need >= o + len && bs * (need - 1) < o + len
    ensures need >= 2 && bs * (need - 1) >= len - part && (need > 2 ==> bs * (need - 2) < len - part)
  {
    MulStep(bs, need);
    MulStep(bs, need - 1);
    if need <= 1 { MulMono(bs, need, 1); }
  }

  lemma OverwriteThenGrow(f0: seq<byte>, f1: seq<byte>, f2: seq<byte>, pos: nat, t: seq<byte>)
    requires Overwritten(f0, f1, pos, t) && f1 <= f2
    ensures Overwritten(f0, f2, pos, t)
  {}

  lemma GrowRepresents(data: seq<byte>, bs: nat, ch: seq<seq<nat>>, files: seq<seq<byte>>, j: nat, b: nat)
    requires Represents(data, bs, ch, files) && j < |ch| && HasBlock(data, bs, b)
    ensures Represents(data, bs, ch[j := ch[j] + [b]], files[j := files[j] + Block(data, bs, b)])
  {
    assert HasBlocks(data, bs, [b]);
    GatherAppend(data, bs, ch[j], [b]);
    assert Gather(data, bs, [b]) == Block(data, bs, b) + Gather(data, bs, []);
  }

  /** The tie between memory and what it stands for. */
  ghost predicate Rep(bs: nat, fat: seq<u16>, data: seq<byte>, ch: seq<seq<nat>>, files: seq<seq<byte>>) {
    && 0 < bs <= 4096
    && WellFormed(fat, ch)
    && |data| == bs * (Limit(fat) - 1)
    && Represents(data, bs, ch, files)
  }

  lemma RepAppend(bs: nat, fat: seq<u16>, data: seq<byte>, ch: seq<seq<nat>>, files: seq<seq<byte>>, j: nat, b: u16)
    requires Rep(bs, fat, data, ch, files) && j < |ch| && b as nat in FreeSet(fat)
    ensures forall i :: 0 <= i < |ch[j]| ==> ch[j][i] < |fat|
    ensures HasBlock(data, bs, b)
    ensures Rep(bs, Linked(fat, ch[j], b), data, ch[j := ch[j] + [b]], files[j := files[j] + Block(data, bs, b)])
    ensures |FreeSet(Linked(fat, ch[j], b))| == |FreeSet(fat)| - 1
  {
    hide WellFormed, Represents;
    LinkKeepsForm(fat, ch, j, b);
    BlockExists(fat, data, bs, b);
    GrowRepresents(data, bs, ch, files, j, b);
  }

  /** Linking is two stores: the new end, and the link to it. */
  lemma LinkedIs(fat: seq<u16>, c: seq<nat>, b: u16)
    requires b as nat in FreeSet(fat) && forall i :: 0 <= i < |c| ==> c[i] < |fat|
    ensures 1 <= b < |fat|
    ensures Linked(fat, c, b) == if c == [] then fat[b := EOF] else fat[b := EOF][c[|c| - 1] := b]
  {}

  lemma NoneFree(fat: seq<u16>)
    ensures FreeSet(fat) == {} ==> |FreeSet(fat)| == 0
  {}

  lemma ReleaseStep(fat0: seq<u16>, c: seq<nat>, n: nat, fat: seq<u16>)
    requires Chained(fat0, c) && n < |c| && Released(fat0, c[..n], fat)
    requires forall i, i' :: 0 <= i < i' < |c| ==> c[i] != c[i']
    ensures 1 <= c[n] < |fat| && fat[c[n]] == Successor(c, n)
    ensures n + 1 < |c| ==> c[n + 1] < Limit(fat0)
    ensures Released(fat0, c[..n + 1], fat[c[n] := FREE])
  {
    assert c[n] !in c[..n];
    assert fat0[c[n]] == Successor(c, n);
    var fat' := fat[c[n] := FREE];
    forall b | 0 <= b < |fat0|
      ensures fat'[b] == if b in c[..n + 1] then FREE else fat0[b]
    {
      OneMore(c, n, b);
    }
  }

  lemma OneMore(c: seq<nat>, n: nat, b: nat)
    requires n < |c|
    ensures b in c[..n + 1] <==> b in c[..n] || b == c[n]
  {
    assert c[..n + 1] == c[..n] + [c[n]];
  }

  lemma RepRelease(bs: nat, fat: seq<u16>, data: seq<byte>, ch: seq<seq<nat>>, files: seq<seq<byte>>, j: nat,
      fat': seq<u16>)
    requires Rep(bs, fat, data, ch, files) && j < |ch| && Released(fat, ch[j], fat')
    ensures Rep(bs, fat', data, ch[j := []], files[j := []])
    ensures |FreeSet(fat')| == |FreeSet(fat)| + |ch[j]|
  {
    hide WellFormed, Released;
    ReleaseKeepsForm(fat, ch, j, fat');
    ReleaseFrees(fat, ch, j, fat');
    assert |fat'| == |fat| by { ReleasedSize(fat, ch[j], fat'); }
  }

  lemma ReleasedSize(fat: seq<u16>, c: seq<nat>, fat': seq<u16>)
    requires Released(fat, c, fat')
    ensures |fat'| == |fat|
  {}

  lemma RepWrite(bs: nat, fat: seq<u16>, data: seq<byte>, ch: seq<seq<nat>>, files: seq<seq<byte>>, j: nat, i: nat,
      o: nat, t: seq<byte>)
    requires Rep(bs, fat, data, ch, files) && j < |ch| && i < |ch[j]| && o + |t| <= bs
    ensures ch[j][i] >= 1 && Addr(bs, ch[j][i], o) + |t| <= |data| && |files| == |ch|
    ensures At(bs, i, o) + |t| <= |files[j]|
    ensures Rep(bs, fat, Splice(data, Addr(bs, ch[j][i], o), t), ch, files[j := Splice(files[j], At(bs, i, o), t)])
  {
    assert Chained(fat, ch[j]);
    assert Distinct(ch);
    hide WellFormed, Represents, Distinct;
    StoreWrite(data, bs, ch, files, j, i, o, t);
  }

  lemma RepRead(bs: nat, fat: seq<u16>, data: seq<byte>, ch: seq<seq<nat>>, files: seq<seq<byte>>, j: nat, i: nat,
      o: nat, n: nat)
    requires Rep(bs, fat, data, ch, files) && j < |ch| && i < |ch[j]| && o + n <= bs
    ensures ch[j][i] >= 1 && Addr(bs, ch[j][i], o) + n <= |data| && |files| == |ch|
    ensures At(bs, i, o) + n <= |files[j]|
    ensures files[j][At(bs, i, o)..At(bs, i, o) + n] == data[Addr(bs, ch[j][i], o)..Addr(bs, ch[j][i], o) + n]
  {
    hide Rep, Gather, HasBlocks, Limit;
    RepChain(bs, fat, data, ch, files, j);
    assert ch[j][i] >= 1;
    hide Chained, At, Addr;
    GatherSlice(data, bs, ch[j], i, o, n);
  }

  lemma RepChain(bs: nat, fat: seq<u16>, data: seq<byte>, ch: seq<seq<nat>>, files: seq<seq<byte>>, j: nat)
    requires Rep(bs, fat, data, ch, files) && j < |ch|
    ensures Chained(fat, ch[j]) && HasBlocks(data, bs, ch[j]) && |files| == |ch| && files[j] == Gather(data, bs, ch[j])
  {}

  lemma BlockExists(fat: seq<u16>, data: seq<byte>, bs: nat, b: nat)
    requires 1 <= b < Limit(fat) && |data| == bs * (Limit(fat) - 1)
    ensures HasBlock(data, bs, b)
  {
    MulMono(bs, b, Limit(fat) - 1);
    MulStep(bs, b);
  }

  class Volume {
    const blockSize: nat
    const fat: array<u16>
    const data: array<byte>
    var errno: int

    // What cell 0 held when the volume was mounted.
    ghost const header: u16

    // What the table and the data region stand for: the chain of the root directory,
    // then one chain for each directory slot, and the bytes of each chain.
    ghost var ch: seq<seq<nat>>
    ghost var files: seq<seq<byte>>

    constructor (blockSize: nat, fat: array<u16>, data: array<byte>, ghost ch: seq<seq<nat>>,
        ghost files: seq<seq<byte>>)
      requires fat.Length > 0
      ensures this.blockSize == blockSize && this.fat == fat && this.data == data && this.ch == ch
              && this.files == files && header == fat[0]
    {
      this.blockSize, this.fat, this.data, this.ch, this.files := blockSize, fat, data, ch, files;
      errno, header := 0, fat[0];
    }

    ghost predicate Shape()
      reads this, fat, data
    {
      && fat as object != data
      && 2 <= fat.Length <= 0x1_0000 && 0 < blockSize <= 4096 && |files| == |ch| && fat[0] == header
      && Rep(blockSize, fat[..], data[..], ch, files)
    }

    ghost function Free(): nat
      reads fat
    {
      |FreeSet(fat[..])|
    }

    /** Only the largest geometry (0x1_0000 cells) can run dry badly; the others always have room to fail. */
    ghost predicate Roomy(n: int)
      reads fat
    {
      fat.Length <= EOF || n <= Free()
    }

    method LinkNextFree() returns (block: u16)
      requires 2 <= fat.Length <= 0x1_0000 && Roomy(1)
      modifies fat
      ensures block == 0 ==> FreeSet(old(fat[..])) == {} && fat[..] == old(fat[..])
      ensures block != 0 ==> block as nat in FreeSet(old(fat[..])) && fat[..] == old(fat[..])[block := EOF]
      ensures block != 0 ==> forall b :: b in FreeSet(old(fat[..])) ==> block <= b
    {
      block := 1;
      while block < fat.Length
        invariant 1 <= block <= Limit(fat[..])
        invariant fat[..] == old(fat[..])
        invariant forall b :: 1 <= b < block ==> fat[b] != FREE
        invariant block == EOF ==> fat.Length == EOF
        decreases Limit(fat[..]) - block
      {
        if fat[block] == FREE {
          fat[block] := EOF;
          return;
        }
        block := (block as int + 1) % 0x1_0000;
      }
      block := 0;
    }

    /** Take the next free block and link it behind chain `j`, whose last block is `last` (0 for none yet). */
    method Append(last: u16, ghost j: nat) returns (block: u16)
      requires Shape() && j < |ch| && Roomy(1)
      requires if ch[j] == [] then last == 0 else last == ch[j][|ch[j]| - 1] && last != 0
      modifies this`ch, this`files, fat
      ensures Shape() && Extends(old(ch), old(files), ch, files, j)
      ensures block == 0 ==> old(Free()) == 0 && ch == old(ch) && files == old(files) && fat[..] == old(fat[..])
      ensures block != 0 ==> ch[j] == old(ch[j]) + [block as nat] && Free() == old(Free()) - 1
    {
      hide Rep, FreeSet, Linked;
      LastIn(j);
      block := LinkNextFree();
      if block == 0 {
        NoneFree(old(fat[..]));
      } else {
        RepAppend(blockSize, old(fat[..]), data[..], ch, files, j, block);
        LinkedIs(old(fat[..]), ch[j], block);
        if last != 0 {
          fat[last] := block;
        }
        assert fat[..] == Linked(old(fat[..]), ch[j], block);
        files := files[j := files[j] + Block(data[..], blockSize, block)];
        ch := ch[j := ch[j] + [block as nat]];
      }
    }

    /** The blocks of a chain are cells of the table, and not its header. */
    lemma LastIn(j: nat)
      requires Shape() && j < |ch|
      ensures forall i :: 0 <= i < |ch[j]| ==> 1 <= ch[j][i] < fat.Length
    {
      ChainOf(j);
    }

    /** The i-th block of chain `j` and what its cell says about the next. */
    lemma NextBlock(j: nat, i: nat)
      requires Shape() && j < |ch| && i < |ch[j]|
      ensures 1 <= ch[j][i] < Limit(fat[..]) <= fat.Length
      ensures fat[ch[j][i]] == EOF <==> i + 1 == |ch[j]|
      ensures i + 1 < |ch[j]| ==> fat[ch[j][i]] == ch[j][i + 1]
    {
      assert Chained(fat[..], ch[j]);
      assert fat[..][ch[j][i]] == Successor(ch[j], i);
    }

    /**
     * Continue the chain from `base`, its i-th block, until it reaches `offset`, which lies `q` blocks on.
     * Returns the block it lands in, or -1 when the table is full.
     */
    method ExtendBlk(base: u16, offset: u32, ghost j: nat, ghost i: nat, ghost q: nat, ghost o: nat) returns (r: int)
      requires Shape() && j < |ch| && i < |ch[j]| && base == ch[j][i]
      requires offset == At(blockSize, q, o) && o < blockSize
      requires Roomy(i + q + 1 - |ch[j]|)
      modifies this`ch, this`files, this`errno, fat
      ensures Shape() && Extends(old(ch), old(files), ch, files, j)
      ensures Free() + |ch[j]| == old(Free() + |ch[j]|)
      ensures r != -1 ==> |ch[j]| == Max(old(|ch[j]|), i + q + 1) && r == ch[j][i + q] && errno == old(errno)
      ensures r == -1 ==> errno == PETOOFAT && Free() == 0 && |ch[j]| <= i + q
      ensures |ch[j]| == |old(ch[j])| ==> ch == old(ch) && files == old(files) && fat[..] == old(fat[..])
    {
      hide Rep;
      var rest, cur: u16 := offset as int, base;
      ghost var m := 0;
      while rest >= blockSize
        invariant Shape() && Extends(old(ch), old(files), ch, files, j)
        invariant Free() + |ch[j]| == old(Free() + |ch[j]|)
        invariant m <= q && rest == At(blockSize, q - m, o)
        invariant i + m < |ch[j]| && cur == ch[j][i + m]
        invariant |ch[j]| == Max(old(|ch[j]|), i + m + 1)
        invariant |ch[j]| == |old(ch[j])| ==> ch == old(ch) && files == old(files) && fat[..] == old(fat[..])
        invariant errno == old(errno)
        decreases rest
      {
        MulStep(blockSize, q - m);
        NextBlock(j, i + m);
        var next := fat[cur];
        if next == EOF {
          next := Append(cur, j);
          if next == 0 {
            errno := PETOOFAT;
            return -1;
          }
        }
        rest := rest - blockSize;
        cur := next;
        m := m + 1;
      }
      if m < q { MulMono(blockSize, 1, q - m); }
      return cur;
    }

    lemma SizeOf(j: nat)
      requires Shape() && j < |ch|
      ensures |files[j]| == blockSize * |ch[j]|
    {
      GatherSize(data[..], blockSize, ch[j]);
    }

    /** The chain laid down at `base` is given back, cell by cell; the number of blocks freed. */
    method FreeBlk(base: u16, ghost j: nat) returns (freed: int)
      requires Shape() && j < |ch|
      requires if ch[j] == [] then base == 0 else base == ch[j][0]
      modifies this`ch, this`files, fat
      ensures Shape() && ch == old(ch)[j := []] && files == old(files)[j := []]
      ensures freed == |old(ch[j])| && Free() == old(Free()) + freed
      ensures Released(old(fat[..]), old(ch[j]), fat[..])
    {
      ghost var c := ch[j];
      freed := 0;
      if base != 0 {
        freed := FreeChain(base, c, j);
      }
      RepRelease(blockSize, old(fat[..]), data[..], ch, files, j, fat[..]);
      ch := ch[j := []];
      files := files[j := []];
    }

    lemma ChainOf(j: nat)
      requires Shape() && j < |ch|
      ensures Chained(fat[..], ch[j])
      ensures forall i, i' :: 0 <= i < i' < |ch[j]| ==> ch[j][i] != ch[j][i']
    {}

    method FreeChain(base: u16, ghost c: seq<nat>, ghost j: nat) returns (freed: int)
      requires Shape() && j < |ch| && c == ch[j] && c != [] && base == c[0]
      modifies fat
      ensures Released(old(fat[..]), c, fat[..]) && freed == |c| && fat[0] == old(fat[0])
    {
      hide Rep;
      ChainOf(j);
      ghost var fat0 := fat[..];
      var cur := base;
      freed := 0;
      while true
        invariant 0 <= freed < |c| && cur == c[freed]
        invariant Released(fat0, c[..freed], fat[..]) && fat[0] == fat0[0]
        decreases |c| - freed
      {
        ReleaseStep(fat0, c, freed, fat[..]);
        var next := fat[cur];
        fat[cur] := FREE;
        freed := freed + 1;
        cur := next;
        if cur == EOF { break; }
      }
      assert c[..|c|] == c;
    }

    /** memcpy or bzero into the data region, inside one block. */
    method Put(addr: nat, t: seq<byte>, ghost j: nat, ghost i: nat, ghost o: nat)
      requires Shape() && j < |ch| && i < |ch[j]| && o + |t| <= blockSize
      requires ch[j][i] >= 1 && addr == Addr(blockSize, ch[j][i], o)
      modifies this`files, data
      ensures Shape() && At(blockSize, i, o) + |t| <= |old(files[j])|
      ensures files == old(files)[j := Splice(old(files[j]), At(blockSize, i, o), t)]
    {
      hide Rep;
      RepWrite(blockSize, fat[..], data[..], ch, files, j, i, o, t);
      CopyIn(addr, t);
      files := files[j := Splice(files[j], At(blockSize, i, o), t)];
    }

    method CopyIn(addr: nat, t: seq<byte>)
      requires addr + |t| <= data.Length
      modifies data
      ensures data[..] == Splice(old(data[..]), addr, t)
    {
      forall p | 0 <= p < |t| {
        data[addr + p] := t[p];
      }
    }

    /**
     * Where `offset` bytes from the start of block `base` (the i-th of chain `j`) lie; -1 when the chain ends
     * before.
     */
    method DataOffset(base: u16, offset: u32, ghost j: nat, ghost i: nat, ghost q: nat,
        ghost o: nat) returns (addr: int)
      requires Shape() && j < |ch| && i < |ch[j]| && base == ch[j][i]
      requires offset == At(blockSize, q, o) && o < blockSize
      modifies this`errno
      ensures i + q < |ch[j]| ==> ch[j][i + q] >= 1 && addr == Addr(blockSize, ch[j][i + q], o) && errno == old(errno)
      ensures i + q >= |ch[j]| ==> addr == -1 && errno == PEINVAL
      ensures Shape()
    {
      hide Rep;
      var rest, cur: u16 := offset as int, base;
      ghost var m := 0;
      while rest >= blockSize
        invariant m <= q && rest == At(blockSize, q - m, o)
        invariant i + m < |ch[j]| && cur == ch[j][i + m] && errno == old(errno)
        decreases rest
      {
        MulStep(blockSize, q - m);
        NextBlock(j, i + m);
        var next := fat[cur];
        if next == EOF {
          errno := PEINVAL;
          return -1;
        }
        rest := rest - blockSize;
        cur := next;
        m := m + 1;
      }
      if m < q { MulMono(blockSize, 1, q - m); }
      NextBlock(j, i + m);
      return blockSize * (cur - 1) + rest;
    }

    lemma NoWrap(j: nat, k: nat)
      requires Shape() && j < |ch| && k <= |ch[j]|
      ensures blockSize * k <= 4096 * 0xFFFE
    {
      ChainBound(fat[..], ch, j);
      MulMono(blockSize, k, 0xFFFE);
    }

    /**
     * Write `str` at `offset` bytes from `base`, the i-th block of chain `j`, over as many blocks as it takes:
     * `need` of them counted from the one `offset` lies in. Returns |str|, or -1 when the table fills up;
     * then exactly what fitted has been written.
     */
    method WriteBlk(base: u16, offset: u32, str: seq<byte>, ghost j: nat, ghost i: nat, ghost q: nat, ghost o: nat,
        ghost need: nat)
      returns (r: int)
      requires Shape() && j < |ch| && i < |ch[j]| && base == ch[j][i]
      requires offset == At(blockSize, q, o) && o < blockSize && o + |str| < 0x1_0000_0000
      requires need >= 1 && blockSize * need >= o + |str| && (need > 1 ==> blockSize * (need - 1) < o + |str|)
      requires Roomy(i + q + need - |ch[j]|)
      modifies this`ch, this`files, this`errno, fat, data
      ensures Shape()
      ensures |ch| == |old(ch)| && ch == old(ch)[j := ch[j]] && files == old(files)[j := files[j]]
              && old(ch[j]) <= ch[j]
      ensures Free() + |ch[j]| == old(Free() + |ch[j]|)
      ensures r == |str| ==> |ch[j]| == Max(old(|ch[j]|), i + q + need) && errno == old(errno)
      ensures r == |str| || r == -1
      ensures Wrote(old(files[j]), files[j], At(blockSize, i + q, o), str, r)
      ensures r == -1 ==> errno == PETOOFAT && Free() == 0 && |ch[j]| < i + q + need
      decreases |str|, 1
    {
      hide Rep, Overwritten, Wrote;
      ghost var f0, pos := files[j], At(blockSize, i + q, o);
      var blkno := ExtendBlk(base, offset, j, i, q, o);
      SizeOf(j);
      ghost var f1 := files[j];
      if blkno == -1 {
        MulMono(blockSize, |ch[j]|, i + q);
        WroteNothing(f0, f1, pos, str);
        return -1;
      }
      DivUnique(blockSize, q, o);
      NextBlock(j, i + q);
      var blkOffset := offset % blockSize;
      if blkOffset + |str| > blockSize {
        // as much as fits in this block, then the next one
        var part := blockSize - blkOffset;
        PutAt(blkno, blkOffset, str[..part], j, i + q);
        OverwriteSplice(f0, f1, pos, str[..part]);
        r := WriteRest(base, offset, str, part, j, i, q, o, need, f0);
      } else {
        PutAt(blkno, blkOffset, str, j, i + q);
        WroteAll(f0, f1, pos, str);
        if need > 1 { MulMono(blockSize, 1, need - 1); }
        r := |str|;
      }
    }

    /** The part of a split write that goes to the blocks after the first. */
    method WriteRest(base: u16, offset: u32, str: seq<byte>, part: nat, ghost j: nat, ghost i: nat, ghost q: nat,
        ghost o: nat, ghost need: nat, ghost f0: seq<byte>)
      returns (r: int)
      requires Shape() && j < |ch| && i + q < |ch[j]| && base == ch[j][i]
      requires offset == At(blockSize, q, o) && o < blockSize && part == blockSize - o < |str|
               && o + |str| < 0x1_0000_0000
      requires blockSize * need >= o + |str| && blockSize * (need - 1) < o + |str|
      requires Roomy(i + q + need - |ch[j]|)
      requires Overwritten(f0, files[j], At(blockSize, i + q, o), str[..part])
      modifies this`ch, this`files, this`errno, fat, data
      ensures Shape()
      ensures |ch| == |old(ch)| && ch == old(ch)[j := ch[j]] && files == old(files)[j := files[j]]
              && old(ch[j]) <= ch[j]
      ensures Free() + |ch[j]| == old(Free() + |ch[j]|)
      ensures r == |str| ==> |ch[j]| == Max(old(|ch[j]|), i + q + need) && errno == old(errno)
      ensures r == |str| || r == -1
      ensures Wrote(f0, files[j], At(blockSize, i + q, o), str, r)
      ensures r == -1 ==> errno == PETOOFAT && Free() == 0 && |ch[j]| < i + q + need
      decreases |str|, 0
    {
      hide Rep, Overwritten, Wrote, At;
      ghost var pos, f1 := At(blockSize, i + q, o), files[j];
      NoWrap(j, q + 1);
      SplitAt(blockSize, q, o, part);
      SplitAt(blockSize, i + q, o, part);
      SplitNeed(blockSize, o, part, |str|, need);
      var next := ExtendBlk(base, (offset + part) % 0x1_0000_0000, j, i, q + 1, 0);
      SizeOf(j);
      ghost var f2 := files[j];
      OverwriteThenGrow(f0, f1, f2, pos, str[..part]);
      if next == -1 {
        WrotePart(f0, f2, pos, part, str);
        return -1;
      }
      NextBlock(j, i + q + 1);
      assert At(blockSize, 0, 0) == 0 by { AtZero(blockSize); }
      r := WriteBlk(next, 0, str[part..], j, i + q + 1, 0, 0, need - 1);
      SizeOf(j);
      MulMono(blockSize, i + q + 1, |ch[j]|);
      WroteParts(f0, f2, files[j], pos, part, str, r);
      if r != -1 { r := part + r; }
    }

    /** The copy of lines 535 and 543: into the block just found. */
    method PutAt(blkno: u16, blkOffset: u16, t: seq<byte>, ghost j: nat, ghost m: nat)
      requires Shape() && j < |ch| && m < |ch[j]| && blkno == ch[j][m] && blkOffset + |t| <= blockSize
               && blkOffset < blockSize
      modifies this`files, this`errno, data
      ensures Shape() && errno == old(errno) && At(blockSize, m, blkOffset) + |t| <= |old(files[j])|
      ensures files == old(files)[j := Splice(old(files[j]), At(blockSize, m, blkOffset), t)]
    {
      hide Rep;
      var addr := DataOffset(blkno, blkOffset, j, m, 0, blkOffset);
      Put(addr, t, j, m, blkOffset);
    }

    /** A read from the host image at the place of byte `o` of block `b`. */
    method ReadHost(addr: nat, n: nat, buf: array<byte>, at: nat)
      requires addr + n <= data.Length && at + n <= buf.Length && buf != data
      modifies buf
      ensures buf[..] == Splice(old(buf[..]), at, data[addr..addr + n])
    {
      forall p | 0 <= p < n {
        buf[at + p] := data[addr + p];
      }
    }

    /** What fs_read_blk fetches from chain `j`. */
    ghost function Fetched(j: nat, k: nat, o: nat, len: nat): seq<byte>
      requires j < |ch| && j < |files|
      reads this`ch, this`files, data
    {
      FetchedFrom(data[..], blockSize, ch[j], files[j], k, o, len)
    }

    lemma FetchedFits(j: nat, k: nat, o: nat, len: nat)
      requires Shape() && j < |ch| && o < blockSize
      ensures |Fetched(j, k, o, len)| <= len && data.Length <= 4096 * 0xFFFE
      ensures o + len < 0x1_0000_0000 ==> Fetched(j, k, o, len) == Got(files[j], At(blockSize, k, o), len)
    {
      MulMono(blockSize, Limit(fat[..]) - 1, 0xFFFE);
    }

    lemma FetchedEnds(j: nat, k: nat, o: nat, len: nat)
      requires Shape() && j < |ch| && o < blockSize
      ensures |Fetched(j, k, o, len)| > 0 ==> At(blockSize, k, o) + |Fetched(j, k, o, len)| < 0x1_0000_0000
    {
      hide Rep;
      FetchedFits(j, k, o, len);
      SizeOf(j);
      NoWrap(j, |ch[j]|);
      if k < |ch[j]| {
        MulMono(blockSize, k + 1, |ch[j]|);
        MulStep(blockSize, k);
      }
    }

    /**
     * Read up to `len` bytes at `offset` bytes from `base`, the i-th block of chain `j`, into `buf` from `at` on.
     * Returns how many there were before the chain ended, -1 for a base that is no block.
     */
    method ReadBlk(base: u16, offset: u32, len: u32, buf: array<byte>, at: nat, ghost j: nat, ghost i: nat,
        ghost q: nat, ghost o: nat)
      returns (r: int)
      requires Shape() && j < |ch| && (base == 0 || (i < |ch[j]| && base == ch[j][i]))
      requires offset == At(blockSize, q, o) && o < blockSize
      requires buf != data && buf as object != fat && at + len <= buf.Length
      modifies this`errno, buf
      ensures Shape() && |Fetched(j, i + q, o, len)| <= len
      ensures base == 0 ==> r == -1 && errno == PEINVAL && buf[..] == old(buf[..])
      ensures base != 0 ==> errno == old(errno) && r == |Fetched(j, i + q, o, len)|
      ensures base != 0 ==> buf[..] == Splice(old(buf[..]), at, Fetched(j, i + q, o, len))
      decreases len, 2
    {
      hide Rep, At, Got, Fetched;
      FetchedFits(j, i + q, o, len);
      if base != 0 { NextBlock(j, i); }
      if base >= fat.Length || base == 0 {
        errno := PEINVAL;
        return -1;
      }
      var rest, cur: u16 := offset as int, base;
      ghost var m := 0;
      while rest >= blockSize
        invariant m <= q && rest == At(blockSize, q - m, o)
        invariant i + m < |ch[j]| && cur == ch[j][i + m] && errno == old(errno) && buf[..] == old(buf[..])
        decreases rest
      {
        WalkStep(blockSize, q - m, o);
        NextBlock(j, i + m);
        var next := fat[cur];
        if next == EOF {
          FetchedNothing(j, i + q, o, len, buf[..], at);
          return 0;
        }
        rest := rest - blockSize;
        cur := next;
        m := m + 1;
      }
      WalkDone(blockSize, q - m, o);
      r := ReadHere(cur, rest, len, buf, at, j, i + q);
    }

    lemma FetchedNothing(j: nat, k: nat, o: nat, n: nat, b: seq<byte>, at: nat)
      requires Shape() && j < |ch| && |ch[j]| <= k && at <= |b|
      ensures Fetched(j, k, o, n) == [] && Splice(b, at, Fetched(j, k, o, n)) == b
    {
      GotNothing(j, k, o, n, b, at);
    }

    /** The read once the block is found, split over the following blocks if it must be. */
    method ReadHere(cur: u16, rest: nat, len: u32, buf: array<byte>, at: nat, ghost j: nat, ghost k: nat)
      returns (r: int)
      requires Shape() && j < |ch| && k < |ch[j]| && cur == ch[j][k] && rest < blockSize
      requires buf != data && buf as object != fat && at + len <= buf.Length
      modifies this`errno, buf
      ensures Shape() && errno == old(errno) && |Fetched(j, k, rest, len)| <= len
      ensures r == |Fetched(j, k, rest, len)|
      ensures buf[..] == Splice(old(buf[..]), at, Fetched(j, k, rest, len))
      decreases len, 1
    {
      hide Rep, At, Got, Splice, Fetched;
      FetchedFits(j, k, rest, len);
      NextBlock(j, k);
      if (rest + len) % 0x1_0000_0000 > blockSize {
        r := ReadSplit(cur, rest, len, buf, at, j, k);
      } else {
        r := ReadWhole(cur, rest, len, buf, at, j, k);
      }
    }

    /** Lines 495-502: this block's part, then the next block. */
    method ReadSplit(cur: u16, rest: nat, len: u32, buf: array<byte>, at: nat, ghost j: nat, ghost k: nat)
      returns (r: int)
      requires Shape() && j < |ch| && k < |ch[j]| && cur == ch[j][k]
      requires rest < blockSize < rest + len < 0x1_0000_0000
      requires buf != data && buf as object != fat && at + len <= buf.Length
      modifies this`errno, buf
      ensures Shape() && errno == old(errno)
      ensures r == |Got(files[j], At(blockSize, k, rest), len)|
      ensures buf[..] == Splice(old(buf[..]), at, Got(files[j], At(blockSize, k, rest), len))
      decreases len, 0
    {
      hide Rep, At, Got, Splice, Fetched;
      ghost var f, pos := files[j], At(blockSize, k, rest);
      var part := blockSize - rest;
      ReadableAt(j, k, rest, part);
      GotSplit(f, pos, part, len, buf[..], at);
      ReadHost(Addr(blockSize, cur, rest), part, buf, at);
      NextBlock(j, k);
      SplitAt(blockSize, k, rest, part);
      AtZero(blockSize);
      var next := fat[cur];
      if next == EOF {
        GotNothing(j, k + 1, 0, len - part, buf[..], at + part);
        return part;
      }
      NextBlock(j, k + 1);
      FetchedFits(j, k + 1, 0, len - part);
      r := ReadBlk(next, 0, len - part, buf, at + part, j, k + 1, 0, 0);
      r := part + r;
    }

    /** Lines 504-507: one read of the host file. */
    method ReadWhole(cur: u16, rest: nat, len: u32, buf: array<byte>, at: nat, ghost j: nat, ghost k: nat)
      returns (r: int)
      requires Shape() && j < |ch| && k < |ch[j]| && cur == ch[j][k] && rest < blockSize
      requires rest + len <= blockSize || rest + len >= 0x1_0000_0000
      requires buf != data && buf as object != fat && at + len <= buf.Length
      modifies this`errno, buf
      ensures Shape() && errno == old(errno) && |Fetched(j, k, rest, len)| <= len
      ensures r == |Fetched(j, k, rest, len)|
      ensures buf[..] == Splice(old(buf[..]), at, Fetched(j, k, rest, len))
    {
      hide Rep, At, Got, Splice, Fetched;
      FetchedFits(j, k, rest, len);
      WholeFetched(j, k, rest, len);
      var addr := Addr(blockSize, cur, rest);
      var n := if addr + len > data.Length then data.Length - addr else len;
      ReadHost(addr, n, buf, at);
      return n;
    }

    lemma RepSize(j: nat)
      requires Shape() && j < |ch|
      ensures |files| == |ch|
    {}

    lemma WholeFetched(j: nat, k: nat, rest: nat, len: nat)
      requires Shape() && j < |ch| && k < |ch[j]| && rest < blockSize && len < 0x1_0000_0000
      requires rest + len <= blockSize || rest + len >= 0x1_0000_0000
      ensures ch[j][k] >= 1 && Addr(blockSize, ch[j][k], rest) <= data.Length
      ensures var addr := Addr(blockSize, ch[j][k], rest);
              var n := if addr + len > data.Length then data.Length - addr else len;
              Fetched(j, k, rest, len) == data[addr..addr + n]
    {
      hide Rep, At, Addr;
      ReadableAt(j, k, rest, 0);
      RepSize(j);
      FetchedFits(j, k, rest, len);
      if rest + len <= blockSize {
        ReadableAt(j, k, rest, len);
      } else {
        assert data[..][Addr(blockSize, ch[j][k], rest)..] == data[Addr(blockSize, ch[j][k], rest)..data.Length];
      }
    }

    lemma GotNothing(j: nat, k: nat, o: nat, n: nat, b: seq<byte>, at: nat)
      requires Shape() && j < |ch| && |ch[j]| <= k && at <= |b|
      ensures Got(files[j], At(blockSize, k, o), n) == []
      ensures Splice(b, at, Got(files[j], At(blockSize, k, o), n)) == b
    {
      PastEnd(j, k, o);
    }

    lemma PastEnd(j: nat, k: nat, o: nat)
      requires Shape() && j < |ch| && |ch[j]| <= k
      ensures Fits(files[j], At(blockSize, k, o)) == 0
    {
      SizeOf(j);
      MulMono(blockSize, |ch[j]|, k);
    }

    lemma ReadableAt(j: nat, k: nat, o: nat, n: nat)
      requires Shape() && j < |ch| && k < |ch[j]| && o + n <= blockSize
      ensures ch[j][k] >= 1 && Addr(blockSize, ch[j][k], o) + n <= data.Length
      ensures At(blockSize, k, o) + n <= |files[j]|
      ensures files[j][At(blockSize, k, o)..At(blockSize, k, o) + n]
                == data[Addr(blockSize, ch[j][k], o)..Addr(blockSize, ch[j][k], o) + n]
    {
      hide Rep;
      RepRead(blockSize, fat[..], data[..], ch, files, j, k, o, n);
    }

    /** Room for more chains, all of them still empty. */
    ghost method Pad(n: nat)
      requires Shape()
      modifies this`ch, this`files
      ensures Shape() && ch == old(ch) + seq(n, _ => []) && files == old(files) + seq(n, _ => [])
    {
      RepPad(blockSize, fat[..], data[..], ch, files, n);
      ch := ch + seq(n, _ => []);
      files := files + seq(n, _ => []);
    }
  }

  lemma RepPad(bs: nat, fat: seq<u16>, data: seq<byte>, ch: seq<seq<nat>>, files: seq<seq<byte>>, n: nat)
    requires Rep(bs, fat, data, ch, files)
    ensures Rep(bs, fat, data, ch + seq(n, _ => []), files + seq(n, _ => []))
  {
    PadKeepsForm(fat, ch, n);
    hide WellFormed;
    var ch', files' := ch + seq(n, _ => []), files + seq(n, _ => []);
    forall j | 0 <= j < |ch'|
      ensures HasBlocks(data, bs, ch'[j]) && files'[j] == Gather(data, bs, ch'[j])
    {
      if j < |ch| { assert ch'[j] == ch[j] && files'[j] == files[j]; }
    }
  }
}
