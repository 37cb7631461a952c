/** From bytes scattered over chained blocks to one byte sequence per chain. */
module Store {
  import opened Bytes
  import opened Fat

  /** Where byte `o` of block `b` lies in the data region. */
  function Addr(bs: nat, b: nat, o: nat): nat
    requires b >= 1
  {
    bs * (b - 1) + o
  }

  /** Byte `o` of the i-th block, counted from the start of a chain. */
  function At(bs: nat, i: nat, o: nat): nat {
    bs * i + o
  }

  ghost predicate HasBlock(data: seq<byte>, bs: nat, b: nat) {
    b >= 1 && bs * (b - 1) + bs <= |data|
  }

  ghost predicate HasBlocks(data: seq<byte>, bs: nat, c: seq<nat>) {
    forall i :: 0 <= i < |c| ==> HasBlock(data, bs, c[i])
  }

  ghost function Block(data: seq<byte>, bs: nat, b: nat): (r: seq<byte>)
    requires HasBlock(data, bs, b)
    ensures |r| == bs
  {
    data[Addr(bs, b, 0)..Addr(bs, b, bs)]
  }

  /** The bytes of a chain, in chain order. */
  ghost function Gather(data: seq<byte>, bs: nat, c: seq<nat>): (r: seq<byte>)
    requires HasBlocks(data, bs, c)
  {
    if c == [] then [] else Block(data, bs, c[0]) + Gather(data, bs, c[1..])
  }

  /** `files` is what the data region holds for the chains `ch`. */
  ghost predicate Represents(data: seq<byte>, bs: nat, ch: seq<seq<nat>>, files: seq<seq<byte>>) {
    && |files| == |ch|
    && (forall j :: 0 <= j < |ch| ==> HasBlocks(data, bs, ch[j]))
    && (forall j :: 0 <= j < |ch| ==> files[j] == Gather(data, bs, ch[j]))
  }

  lemma {:induction false} GatherSize(data: seq<byte>, bs: nat, c: seq<nat>)
    requires HasBlocks(data, bs, c)
    ensures |Gather(data, bs, c)| == bs * |c|
  {
    if c != [] {
      GatherSize(data, bs, c[1..]);
      MulStep(bs, |c|);
    }
  }

  lemma {:induction false} GatherAppend(data: seq<byte>, bs: nat, c: seq<nat>, d: seq<nat>)
    requires HasBlocks(data, bs, c) && HasBlocks(data, bs, d)
    ensures HasBlocks(data, bs, c + d)
    ensures Gather(data, bs, c + d) == Gather(data, bs, c) + Gather(data, bs, d)
  {
    BothHave(data, bs, c, d);
    if c == [] {
      assert c + d == d;
    } else {
      var t := c[1..];
      assert (c + d)[1..] == t + d && (c + d)[0] == c[0];
      TailHas(data, bs, c);
      BothHave(data, bs, t, d);
      hide HasBlocks, HasBlock, Block;
      GatherAppend(data, bs, t, d);
      var b, x, y := Block(data, bs, c[0]), Gather(data, bs, t), Gather(data, bs, d);
      assert Gather(data, bs, c) == b + x && Gather(data, bs, c + d) == b + Gather(data, bs, t + d);
      hide Gather;
      assert (b + x) + y == b + (x + y);
    }
  }

  lemma BothHave(data: seq<byte>, bs: nat, c: seq<nat>, d: seq<nat>)
    requires HasBlocks(data, bs, c) && HasBlocks(data, bs, d)
    ensures HasBlocks(data, bs, c + d)
  {}

  /** Stretches of a concatenation. */
  lemma ConcatSlice(a: seq<byte>, b: seq<byte>, p: nat, n: nat)
    requires p + n <= |b|
    ensures (a + b)[|a| + p..|a| + p + n] == b[p..p + n]
  {}

  lemma ConcatSliceHead(a: seq<byte>, b: seq<byte>, p: nat, n: nat)
    requires p + n <= |a|
    ensures (a + b)[p..p + n] == a[p..p + n]
  {}

  lemma ConcatSplice(a: seq<byte>, b: seq<byte>, p: nat, t: seq<byte>)
    requires p + |t| <= |b|
    ensures a + Splice(b, p, t) == Splice(a + b, |a| + p, t)
  {}

  lemma ConcatSpliceHead(a: seq<byte>, b: seq<byte>, p: nat, t: seq<byte>)
    requires p + |t| <= |a|
    ensures Splice(a, p, t) + b == Splice(a + b, p, t)
  {}

  lemma GatherFits(data: seq<byte>, bs: nat, c: seq<nat>, i: nat, o: nat, n: nat)
    requires HasBlocks(data, bs, c) && i < |c| && o + n <= bs
    ensures At(bs, i, o) + n <= |Gather(data, bs, c)|
    ensures Addr(bs, c[i], o) + n <= |data|
  {
    GatherSize(data, bs, c);
    MulMono(bs, i + 1, |c|);
    MulStep(bs, i);
    assert HasBlock(data, bs, c[i]);
  }

  /** A stretch of a later block, seen from the chain without its first block. */
  lemma SliceBehind(data: seq<byte>, bs: nat, c: seq<nat>, i: nat, o: nat, n: nat)
    requires HasBlocks(data, bs, c) && 0 < i < |c| && o + n <= bs && At(bs, i - 1, o) + n <= |Gather(data, bs, c[1..])|
    ensures At(bs, i, o) + n <= |Gather(data, bs, c)|
    ensures Gather(data, bs, c)[At(bs, i, o)..At(bs, i, o) + n]
            == Gather(data, bs, c[1..])[At(bs, i - 1, o)..At(bs, i - 1, o) + n]
  {
    var t, a := Gather(data, bs, c[1..]), Block(data, bs, c[0]);
    assert Gather(data, bs, c) == a + t;
    hide HasBlocks, Gather, Block;
    MulStep(bs, i);
    ConcatSlice(a, t, At(bs, i - 1, o), n);
  }

  lemma BlockSlice(data: seq<byte>, bs: nat, b: nat, o: nat, n: nat)
    requires HasBlock(data, bs, b) && o + n <= bs
    ensures Addr(bs, b, o) + n <= |data|
    ensures Block(data, bs, b)[o..o + n] == data[Addr(bs, b, o)..Addr(bs, b, o) + n]
  {
    var a := Addr(bs, b, 0);
    assert Addr(bs, b, bs) == a + bs && Addr(bs, b, o) == a + o;
    hide Addr;
    SliceOfSlice(data, a, bs, o, n);
  }

  lemma SliceOfSlice(s: seq<byte>, a: nat, m: nat, o: nat, n: nat)
    requires a + m <= |s| && o + n <= m
    ensures s[a..a + m][o..o + n] == s[a + o..a + o + n]
  {
    var t, v := s[a..a + m], s[a + o..a + o + n];
    var u := t[o..o + n];
    assert forall i :: 0 <= i < n ==> u[i] == t[o + i];
    assert forall i :: 0 <= i < n ==> v[i] == s[a + o + i];
  }

  /** And of the first one. */
  lemma SliceFirst(data: seq<byte>, bs: nat, c: seq<nat>, o: nat, n: nat)
    requires HasBlocks(data, bs, c) && c != [] && o + n <= bs && Addr(bs, c[0], o) + n <= |data|
    ensures At(bs, 0, o) + n <= |Gather(data, bs, c)|
    ensures Gather(data, bs, c)[At(bs, 0, o)..At(bs, 0, o) + n] == data[Addr(bs, c[0], o)..Addr(bs, c[0], o) + n]
  {
    var a := Block(data, bs, c[0]);
    assert Gather(data, bs, c) == a + Gather(data, bs, c[1..]);
    BlockSlice(data, bs, c[0], o, n);
    hide HasBlocks, Gather, Block, Addr;
    assert At(bs, 0, o) == o;
    ConcatSliceHead(a, Gather(data, bs, c[1..]), o, n);
  }

  lemma {:induction false} GatherSlice(data: seq<byte>, bs: nat, c: seq<nat>, i: nat, o: nat, n: nat)
    requires HasBlocks(data, bs, c) && i < |c| && o + n <= bs
    ensures At(bs, i, o) + n <= |Gather(data, bs, c)|
    ensures Addr(bs, c[i], o) + n <= |data|
    ensures Gather(data, bs, c)[At(bs, i, o)..At(bs, i, o) + n] == data[Addr(bs, c[i], o)..Addr(bs, c[i], o) + n]
  {
    GatherFits(data, bs, c, i, o, n);
    TailHas(data, bs, c);
    hide HasBlocks, Gather, At, Addr;
    if i == 0 {
      SliceFirst(data, bs, c, o, n);
    } else {
      assert c[1..][i - 1] == c[i];
      GatherSlice(data, bs, c[1..], i - 1, o, n);
      SliceBehind(data, bs, c, i, o, n);
    }
  }

  // ---- blocks next to each other ----

  function Nth(u: seq<byte>, bs: nat, j: nat): seq<byte> {
    if bs * j + bs <= |u| then u[bs * j..bs * j + bs] else []
  }

  /** Whole blocks are the same bytes exactly when block by block they are. */
  lemma Blockwise(u: seq<byte>, v: seq<byte>, bs: nat, m: nat)
    requires bs > 0 && |u| == bs * m && |v| == bs * m
    ensures u == v <==> forall j :: 0 <= j < m ==> Nth(u, bs, j) == Nth(v, bs, j)
  {
    if forall j :: 0 <= j < m ==> Nth(u, bs, j) == Nth(v, bs, j) {
      forall p | 0 <= p < bs * m
        ensures u[p] == v[p]
      {
        NthHolds(u, bs, m, p);
        NthHolds(v, bs, m, p);
      }
    }
  }

  lemma NthHolds(u: seq<byte>, bs: nat, m: nat, p: nat)
    requires bs > 0 && p < bs * m == |u|
    ensures 0 <= p / bs < m && p % bs < |Nth(u, bs, p / bs)| && Nth(u, bs, p / bs)[p % bs] == u[p]
  {
    var j, x := p / bs, p % bs;
    assert p == bs * j + x;
    if j >= m { MulMono(bs, m, j); }
    MulMono(bs, j + 1, m);
    MulStep(bs, j);
  }

  /** The block after `j` more links holds the same bytes as the one that lies `j` blocks further. */
  ghost predicate LaidAt(data: seq<byte>, bs: nat, c: seq<nat>, q: nat, j: nat) {
    && q + j < |c| && HasBlock(data, bs, c[q + j]) && HasBlock(data, bs, c[q] + j)
    && Block(data, bs, c[q + j]) == Block(data, bs, c[q] + j)
  }

  /** From the q-th block of a chain on, chain and data region hold the same `m` blocks. */
  lemma AsLaid(data: seq<byte>, bs: nat, c: seq<nat>, q: nat, m: nat, o: nat)
    requires bs > 0 && HasBlocks(data, bs, c) && q < |c| && q + m <= |c| && o <= bs && m > 0
    requires c[q] >= 1 && |data| == At(bs, c[q] - 1 + m, 0)
    ensures At(bs, q, o) <= At(bs, q + m, 0) <= |Gather(data, bs, c)| && Addr(bs, c[q], o) <= |data|
    ensures Gather(data, bs, c)[At(bs, q, o)..At(bs, q + m, 0)] == data[Addr(bs, c[q], o)..] <==>
              forall j :: 0 <= j < m ==> LaidAt(data, bs, c, q, j)
  {
    hide Gather, Nth, HasBlock, HasBlocks, Block, LaidAt, At, Addr;
    PartSizes(data, bs, c, q, m, o);
    var b, x, y, a := Gather(data, bs, c), At(bs, q, 0), At(bs, q + m, 0), Addr(bs, c[q], 0);
    forall j | 0 <= j < m
      ensures Nth(b[x..y], bs, j) == Nth(data[a..], bs, j) <==> LaidAt(data, bs, c, q, j)
    {
      NthLaid(data, bs, c, q, m, j);
    }
    LaidHere(data, bs, c, q);
    BehindFirst(b[x..y], data[a..], data, bs, c, q, m, o);
    DropBoth(b, x, y, o);
    DropBoth(data, a, |data|, o);
  }

  lemma LaidHere(data: seq<byte>, bs: nat, c: seq<nat>, q: nat)
    requires HasBlocks(data, bs, c) && q < |c|
    ensures LaidAt(data, bs, c, q, 0)
  {}

  lemma BehindFirst(u: seq<byte>, v: seq<byte>, data: seq<byte>, bs: nat, c: seq<nat>, q: nat, m: nat, o: nat)
    requires bs > 0 && m > 0 && o <= bs <= At(bs, m, 0) == |u| == |v| && LaidAt(data, bs, c, q, 0)
    requires forall j :: 0 <= j < m ==> (Nth(u, bs, j) == Nth(v, bs, j) <==> LaidAt(data, bs, c, q, j))
    ensures u[o..] == v[o..] <==> forall j :: 0 <= j < m ==> LaidAt(data, bs, c, q, j)
  {
    hide Nth, LaidAt;
    FirstPart(u, bs);
    FirstPart(v, bs);
    assert Nth(u, bs, 0) == Nth(v, bs, 0);
    Blockwise(u, v, bs, m);
    SameBehind(u, v, bs, o);
  }

  lemma DropBoth(s: seq<byte>, a: nat, b: nat, o: nat)
    requires a + o <= b <= |s|
    ensures s[a..b][o..] == s[a + o..b]
  {}

  lemma PartSizes(data: seq<byte>, bs: nat, c: seq<nat>, q: nat, m: nat, o: nat)
    requires bs > 0 && HasBlocks(data, bs, c) && q < |c| && q + m <= |c| && m > 0
    requires c[q] >= 1 && |data| == At(bs, c[q] - 1 + m, 0)
    ensures At(bs, q + m, 0) == At(bs, q, 0) + At(bs, m, 0) <= |Gather(data, bs, c)| && bs <= At(bs, m, 0)
    ensures |data| == Addr(bs, c[q], 0) + At(bs, m, 0)
    ensures At(bs, q, o) == At(bs, q, 0) + o && Addr(bs, c[q], o) == Addr(bs, c[q], 0) + o
  {
    GatherSize(data, bs, c);
    MulMono(bs, q + m, |c|);
    MulMono(bs, q, q + m);
    Distribute(bs, q, m);
    Distribute(bs, c[q] - 1, m);
    MulMono(bs, 1, m);
  }

  lemma FirstPart(u: seq<byte>, bs: nat)
    requires bs <= |u|
    ensures Nth(u, bs, 0) == u[..bs]
  {}

  lemma NthLaid(data: seq<byte>, bs: nat, c: seq<nat>, q: nat, m: nat, j: nat)
    requires bs > 0 && HasBlocks(data, bs, c) && q < |c| && q + m <= |c| && j < m
    requires c[q] >= 1 && |data| == At(bs, c[q] - 1 + m, 0)
    ensures At(bs, q, 0) <= At(bs, q + m, 0) <= |Gather(data, bs, c)| && Addr(bs, c[q], 0) <= |data|
    ensures var u, v := Gather(data, bs, c)[At(bs, q, 0)..At(bs, q + m, 0)], data[Addr(bs, c[q], 0)..];
            Nth(u, bs, j) == Nth(v, bs, j) <==> LaidAt(data, bs, c, q, j)
  {
    hide Gather, Nth, Block, HasBlock, HasBlocks;
    NthInChain(data, bs, c, q, m, j);
    NthInData(data, bs, c[q], m, j);
  }

  lemma Distribute(n: nat, a: int, b: int)
    ensures n * (a + b) == n * a + n * b
  {}

  /** Where the first block is the same, it does not matter at which byte of it one starts. */
  lemma SameBehind(u: seq<byte>, v: seq<byte>, bs: nat, o: nat)
    requires o <= bs <= |u| == |v| && u[..bs] == v[..bs]
    ensures u[o..] == v[o..] <==> u == v
  {
    if u[o..] == v[o..] { assert u == u[..bs][..o] + u[o..] && v == v[..bs][..o] + v[o..]; }
  }

  lemma NthInPart(b: seq<byte>, bs: nat, q: nat, m: nat, j: nat)
    requires bs * (q + m) <= |b| && j < m
    ensures bs * q <= bs * (q + m) && bs * (q + j) + bs <= |b|
    ensures Nth(b[bs * q..bs * (q + m)], bs, j) == b[bs * (q + j)..bs * (q + j) + bs]
  {
    MulMono(bs, j + 1, m);
    MulStep(bs, j);
    Distribute(bs, q, j);
    Distribute(bs, q, m);
    SliceOfSlice(b, bs * q, bs * m, bs * j, bs);
  }

  lemma NthInChain(data: seq<byte>, bs: nat, c: seq<nat>, q: nat, m: nat, j: nat)
    requires HasBlocks(data, bs, c) && q + m <= |c| && j < m
    ensures HasBlock(data, bs, c[q + j]) && bs * q <= bs * (q + m) <= |Gather(data, bs, c)|
    ensures Nth(Gather(data, bs, c)[bs * q..bs * (q + m)], bs, j) == Block(data, bs, c[q + j])
  {
    GatherSize(data, bs, c);
    GatherSlice(data, bs, c, q + j, 0, bs);
    WholeBlock(data, bs, c, q + j);
    hide HasBlocks, HasBlock, Block, Gather, Nth, Addr, At;
    MulMono(bs, q + m, |c|);
    NthInPart(Gather(data, bs, c), bs, q, m, j);
  }

  lemma WholeBlock(data: seq<byte>, bs: nat, c: seq<nat>, i: nat)
    requires HasBlocks(data, bs, c) && i < |c|
    ensures HasBlock(data, bs, c[i]) && Addr(bs, c[i], 0) + bs <= |data| && At(bs, i, 0) == bs * i
    ensures Block(data, bs, c[i]) == data[Addr(bs, c[i], 0)..Addr(bs, c[i], 0) + bs]
  {}

  lemma NthInData(data: seq<byte>, bs: nat, b: nat, m: nat, j: nat)
    requires b >= 1 && |data| == bs * (b - 1 + m) && j < m
    ensures HasBlock(data, bs, b + j) && bs * (b - 1) <= |data|
    ensures Nth(data[bs * (b - 1)..], bs, j) == Block(data, bs, b + j)
  {
    hide Nth;
    NthInPart(data, bs, b - 1, m, j);
    assert data[bs * (b - 1)..] == data[bs * (b - 1)..bs * (b - 1 + m)];
  }

  lemma TailHas(data: seq<byte>, bs: nat, c: seq<nat>)
    requires HasBlocks(data, bs, c) && c != []
    ensures HasBlocks(data, bs, c[1..]) && c[0] >= 1 && HasBlock(data, bs, c[0])
  {}

  lemma {:induction false} GatherFrame(data: seq<byte>, data': seq<byte>, bs: nat, c: seq<nat>)
    requires HasBlocks(data, bs, c) && |data'| == |data|
    requires forall i :: 0 <= i < |c| ==> Block(data', bs, c[i]) == Block(data, bs, c[i])
    ensures HasBlocks(data', bs, c)
    ensures Gather(data', bs, c) == Gather(data, bs, c)
  {
    if c != [] {
      assert Block(data', bs, c[0]) == Block(data, bs, c[0]);
      assert forall i :: 0 <= i < |c[1..]| ==> c[1..][i] == c[i + 1];
      GatherFrame(data, data', bs, c[1..]);
    }
  }

  lemma SpliceSame(data: seq<byte>, bs: nat, b: nat, o: nat, t: seq<byte>)
    requires HasBlock(data, bs, b) && o + |t| <= bs
    ensures Addr(bs, b, o) + |t| <= |data|
    ensures HasBlock(Splice(data, Addr(bs, b, o), t), bs, b)
    ensures Block(Splice(data, Addr(bs, b, o), t), bs, b) == Splice(Block(data, bs, b), o, t)
  {}

  lemma SpliceOther(data: seq<byte>, bs: nat, b: nat, o: nat, t: seq<byte>, b': nat)
    requires HasBlock(data, bs, b) && HasBlock(data, bs, b') && o + |t| <= bs && b' != b
    ensures Addr(bs, b, o) + |t| <= |data|
    ensures HasBlock(Splice(data, Addr(bs, b, o), t), bs, b')
    ensures Block(Splice(data, Addr(bs, b, o), t), bs, b') == Block(data, bs, b')
  {
    MulStep(bs, b - 1);
    MulStep(bs, b' - 1);
    if b < b' {
      MulMono(bs, b, b' - 1);
    } else {
      MulMono(bs, b', b - 1);
    }
  }

  /** The first block has been spliced. */
  lemma SpliceFirst(data: seq<byte>, data': seq<byte>, bs: nat, c: seq<nat>, o: nat, t: seq<byte>)
    requires HasBlocks(data, bs, c) && HasBlocks(data', bs, c) && c != [] && o + |t| <= bs
    requires Block(data', bs, c[0]) == Splice(Block(data, bs, c[0]), o, t)
    requires Gather(data', bs, c[1..]) == Gather(data, bs, c[1..])
    ensures At(bs, 0, o) + |t| <= |Gather(data, bs, c)|
    ensures Gather(data', bs, c) == Splice(Gather(data, bs, c), At(bs, 0, o), t)
  {
    var b0, rest := Block(data, bs, c[0]), Gather(data, bs, c[1..]);
    assert Gather(data, bs, c) == b0 + rest && Gather(data', bs, c) == Splice(b0, o, t) + rest;
    hide HasBlocks, Gather, Block, Splice;
    ConcatSpliceHead(b0, rest, o, t);
    assert At(bs, 0, o) == o;
  }

  /** A later block has. */
  lemma SpliceBehind(data: seq<byte>, data': seq<byte>, bs: nat, c: seq<nat>, i: nat, o: nat, t: seq<byte>)
    requires HasBlocks(data, bs, c) && HasBlocks(data', bs, c) && 0 < i < |c| && o + |t| <= bs
    requires Block(data', bs, c[0]) == Block(data, bs, c[0])
    requires At(bs, i - 1, o) + |t| <= |Gather(data, bs, c[1..])|
    requires Gather(data', bs, c[1..]) == Splice(Gather(data, bs, c[1..]), At(bs, i - 1, o), t)
    ensures At(bs, i, o) + |t| <= |Gather(data, bs, c)|
    ensures Gather(data', bs, c) == Splice(Gather(data, bs, c), At(bs, i, o), t)
  {
    var b0, rest := Block(data, bs, c[0]), Gather(data, bs, c[1..]);
    assert Gather(data, bs, c) == b0 + rest && Gather(data', bs, c) == b0 + Splice(rest, At(bs, i - 1, o), t);
    hide HasBlocks, Gather, Block, Splice;
    MulStep(bs, i);
    ConcatSplice(b0, rest, At(bs, i - 1, o), t);
  }

  lemma {:induction false} GatherSplice(data: seq<byte>, data': seq<byte>, bs: nat, c: seq<nat>, i: nat, o: nat,
      t: seq<byte>)
    requires HasBlocks(data, bs, c) && i < |c| && o + |t| <= bs
    requires forall k, k' :: 0 <= k < k' < |c| ==> c[k] != c[k']
    requires |data'| == |data|
    requires Block(data', bs, c[i]) == Splice(Block(data, bs, c[i]), o, t)
    requires forall k :: 0 <= k < |c| && k != i ==> Block(data', bs, c[k]) == Block(data, bs, c[k])
    ensures HasBlocks(data', bs, c)
    ensures At(bs, i, o) + |t| <= |Gather(data, bs, c)|
    ensures Gather(data', bs, c) == Splice(Gather(data, bs, c), At(bs, i, o), t)
  {
    var d := c[1..];
    SameHas(data, data', bs, c);
    TailHas(data, bs, c);
    assert forall k :: 0 <= k < |d| ==> d[k] == c[k + 1];
    hide HasBlocks, Gather, Block, Splice, At;
    if i == 0 {
      GatherFrame(data, data', bs, d);
      SpliceFirst(data, data', bs, c, o, t);
    } else {
      GatherSplice(data, data', bs, d, i - 1, o, t);
      SpliceBehind(data, data', bs, c, i, o, t);
    }
  }

  lemma SameHas(data: seq<byte>, data': seq<byte>, bs: nat, c: seq<nat>)
    requires HasBlocks(data, bs, c) && |data'| == |data|
    ensures HasBlocks(data', bs, c)
  {}

  /** One memcpy inside a block changes one stretch of one chain's bytes, and nothing else. */
  lemma StoreWrite(data: seq<byte>, bs: nat, ch: seq<seq<nat>>, files: seq<seq<byte>>, j: nat, i: nat, o: nat,
      t: seq<byte>)
    requires Represents(data, bs, ch, files) && Distinct(ch)
    requires j < |ch| && i < |ch[j]| && o + |t| <= bs && ch[j][i] >= 1
    ensures Addr(bs, ch[j][i], o) + |t| <= |data|
    ensures At(bs, i, o) + |t| <= |files[j]|
    ensures Represents(Splice(data, Addr(bs, ch[j][i], o), t), bs, ch, files[j := Splice(files[j], At(bs, i, o), t)])
  {
    var b := ch[j][i];
    assert HasBlocks(data, bs, ch[j]);
    SpliceSame(data, bs, b, o, t);
    var data' := Splice(data, Addr(bs, b, o), t);
    forall k | 0 <= k < |ch[j]| && k != i
      ensures Block(data', bs, ch[j][k]) == Block(data, bs, ch[j][k])
    {
      SpliceOther(data, bs, b, o, t, ch[j][k]);
    }
    assert forall k, k' :: 0 <= k < k' < |ch[j]| ==> ch[j][k] != ch[j][k'];
    GatherSplice(data, data', bs, ch[j], i, o, t);
    forall j' | 0 <= j' < |ch| && j' != j
      ensures HasBlocks(data', bs, ch[j']) && files[j'] == Gather(data', bs, ch[j'])
    {
      StoreWriteOther(data, bs, ch, j, i, o, t, j');
    }
  }

  lemma StoreWriteOther(data: seq<byte>, bs: nat, ch: seq<seq<nat>>, j: nat, i: nat, o: nat, t: seq<byte>, j': nat)
    requires j < |ch| && i < |ch[j]| && o + |t| <= bs && j' < |ch| && j' != j
    requires HasBlocks(data, bs, ch[j]) && HasBlocks(data, bs, ch[j']) && Distinct(ch)
    ensures Addr(bs, ch[j][i], o) + |t| <= |data|
    ensures var data' := Splice(data, Addr(bs, ch[j][i], o), t);
            HasBlocks(data', bs, ch[j']) && Gather(data', bs, ch[j']) == Gather(data, bs, ch[j'])
  {
    var b := ch[j][i];
    SpliceSame(data, bs, b, o, t);
    var data' := Splice(data, Addr(bs, b, o), t);
    forall k | 0 <= k < |ch[j']|
      ensures HasBlock(data', bs, ch[j'][k]) && Block(data', bs, ch[j'][k]) == Block(data, bs, ch[j'][k])
    {
      SpliceOther(data, bs, b, o, t, ch[j'][k]);
    }
    GatherFrame(data, data', bs, ch[j']);
  }
}
