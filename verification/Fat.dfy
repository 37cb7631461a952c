/** The file allocation table as a value: chains of blocks and who owns which cell. */
module Fat {
  import opened Bytes

  const FREE: u16 := 0
  const EOF: u16 := 0xFFFF

  /** Blocks are 1 .. Limit - 1: cell 0 is the header and 0xFFFF cannot be named, it means end of file. */
  function Limit(fat: seq<u16>): nat {
    Min(|fat|, EOF)
  }

  /** What the cell of c[i] holds. */
  function Successor(c: seq<nat>, i: nat): nat
    requires i < |c|
  {
    if i + 1 < |c| then c[i + 1] else EOF
  }

  /** `c` is what one reads by following the table from c[0]: in range and ended by EOF. */
  ghost predicate Chained(fat: seq<u16>, c: seq<nat>) {
    && (forall i :: 0 <= i < |c| ==> 1 <= c[i] < Limit(fat))
    && (forall i :: 0 <= i < |c| ==> fat[c[i]] == Successor(c, i))
  }

  /** No block occurs twice, neither in one chain nor in two. */
  ghost predicate Distinct(ch: seq<seq<nat>>) {
    forall j, i, j', i' ::
      (0 <= j < |ch| && 0 <= i < |ch[j]| && 0 <= j' < |ch| && 0 <= i' < |ch[j']| && ch[j][i] == ch[j'][i'])
      ==> j == j' && i == i'
  }

  ghost predicate Owned(ch: seq<seq<nat>>, b: nat) {
    exists j, i :: 0 <= j < |ch| && 0 <= i < |ch[j]| && ch[j][i] == b
  }

  /** The structural invariant: proper chains, pairwise disjoint, covering exactly the cells in use. */
  ghost predicate WellFormed(fat: seq<u16>, ch: seq<seq<nat>>) {
    && 2 <= |fat| <= 0x1_0000
    && (forall j :: 0 <= j < |ch| ==> Chained(fat, ch[j]))
    && Distinct(ch)
    && (forall b :: 1 <= b < |fat| && fat[b] != FREE ==> Owned(ch, b))
  }

  ghost function FreeSet(fat: seq<u16>): set<nat> {
    set b: nat | 1 <= b < Limit(fat) && fat[b] == FREE
  }

  ghost function Elems(c: seq<nat>): set<nat> {
    set b | b in c
  }

  function Total(ch: seq<seq<nat>>): nat {
    if ch == [] then 0 else |ch[0]| + Total(ch[1..])
  }

  /** The table after block `b` has been taken and linked behind chain `c`. */
  function Linked(fat: seq<u16>, c: seq<nat>, b: u16): (r: seq<u16>)
    requires b < |fat| && forall i :: 0 <= i < |c| ==> c[i] < |fat|
    ensures |r| == |fat|
  {
    if c == [] then fat[b := EOF] else fat[b := EOF][c[|c| - 1] := b]
  }

  /** `fat'` is the table after the cells of `c` have been given back. */
  ghost predicate Released(fat: seq<u16>, c: seq<nat>, fat': seq<u16>) {
    && |fat'| == |fat|
    && forall b :: 0 <= b < |fat| ==> fat'[b] == if b in c then FREE else fat[b]
  }

  lemma OwnedInUse(fat: seq<u16>, ch: seq<seq<nat>>, b: nat)
    requires WellFormed(fat, ch) && Owned(ch, b)
    ensures 1 <= b < Limit(fat) && fat[b] != FREE
  {
    var j, i :| 0 <= j < |ch| && 0 <= i < |ch[j]| && ch[j][i] == b;
    var c := ch[j];
    assert Chained(fat, c);
    assert fat[c[i]] == Successor(c, i);
  }

  lemma LinkChain(fat: seq<u16>, c: seq<nat>, b: u16)
    requires Chained(fat, c) && 1 <= b < Limit(fat) && fat[b] == FREE
    requires forall i, i' :: 0 <= i < i' < |c| ==> c[i] != c[i']
    ensures Chained(Linked(fat, c, b), c + [b])
  {
    var c', fat' := c + [b], Linked(fat, c, b);
    forall i | 0 <= i < |c|
      ensures 1 <= c[i] < Limit(fat) && fat[c[i]] == Successor(c, i) && c[i] != b
      ensures i + 1 < |c| ==> c[i] != c[|c| - 1]
    {
      assert fat[c[i]] == Successor(c, i);
    }
  }

  /** A cell outside `d` may change freely. */
  lemma OtherChain(fat: seq<u16>, fat': seq<u16>, d: seq<nat>)
    requires Chained(fat, d) && |fat'| == |fat|
    requires forall i :: 0 <= i < |d| ==> fat'[d[i]] == fat[d[i]]
    ensures Chained(fat', d)
  {}

  lemma DistinctAppend(ch: seq<seq<nat>>, j: nat, b: nat)
    requires Distinct(ch) && j < |ch| && !Owned(ch, b)
    ensures Distinct(ch[j := ch[j] + [b]])
  {
    var ch' := ch[j := ch[j] + [b]];
    forall k, i, k', i' | 0 <= k < |ch'| && 0 <= i < |ch'[k]| && 0 <= k' < |ch'| && 0 <= i' < |ch'[k']|
    && ch'[k][i] == ch'[k'][i']
      ensures k == k' && i == i'
    {
      var new1, new2 := k == j && i == |ch[j]|, k' == j && i' == |ch[j]|;
      assert !new1 ==> ch'[k][i] == ch[k][i] && Owned(ch, ch[k][i]);
      assert !new2 ==> ch'[k'][i'] == ch[k'][i'] && Owned(ch, ch[k'][i']);
    }
  }

  /** The other chains do not notice. */
  lemma LinkOther(fat: seq<u16>, ch: seq<seq<nat>>, j: nat, b: u16, k: nat)
    requires WellFormed(fat, ch) && j < |ch| && 1 <= b < Limit(fat) && fat[b] == FREE
    requires forall i :: 0 <= i < |ch[j]| ==> ch[j][i] < |fat|
    requires k < |ch| && k != j
    ensures Chained(Linked(fat, ch[j], b), ch[k])
  {
    var fat', c, d := Linked(fat, ch[j], b), ch[j], ch[k];
    assert Chained(fat, d);
    forall i | 0 <= i < |d|
      ensures fat'[d[i]] == fat[d[i]]
    {
      assert fat[d[i]] == Successor(d, i);
      assert c != [] ==> ch[k][i] != ch[j][|c| - 1];
    }
    OtherChain(fat, fat', d);
  }

  lemma LinkFrees(fat: seq<u16>, c: seq<nat>, b: u16)
    requires Chained(fat, c) && 1 <= b < Limit(fat) && fat[b] == FREE
    ensures FreeSet(Linked(fat, c, b)) == FreeSet(fat) - {b as nat}
    ensures |FreeSet(Linked(fat, c, b))| == |FreeSet(fat)| - 1
  {
    if c != [] { assert fat[c[|c| - 1]] == Successor(c, |c| - 1) == EOF; }
    var fat' := Linked(fat, c, b);
    forall x: nat | 1 <= x < Limit(fat)
      ensures fat'[x] == FREE <==> fat[x] == FREE && x != b
    {
    }
    assert FreeSet(fat') == FreeSet(fat) - {b as nat};
  }

  /** What the new block and its chain need from the invariant. */
  lemma LinkReady(fat: seq<u16>, ch: seq<seq<nat>>, j: nat, b: u16)
    requires WellFormed(fat, ch) && j < |ch| && 1 <= b < Limit(fat) && fat[b] == FREE
    ensures Chained(fat, ch[j]) && Distinct(ch) && !Owned(ch, b)
    ensures forall i :: 0 <= i < |ch[j]| ==> ch[j][i] < |fat|
    ensures forall i, i' :: 0 <= i < i' < |ch[j]| ==> ch[j][i] != ch[j][i']
    ensures forall x :: 1 <= x < |fat| && fat[x] != FREE ==> Owned(ch, x)
  {
    assert Chained(fat, ch[j]);
    if Owned(ch, b) { OwnedInUse(fat, ch, b); }
  }

  lemma LinkKeepsForm(fat: seq<u16>, ch: seq<seq<nat>>, j: nat, b: u16)
    requires WellFormed(fat, ch) && j < |ch| && 1 <= b < Limit(fat) && fat[b] == FREE
    ensures forall i :: 0 <= i < |ch[j]| ==> ch[j][i] < |fat|
    ensures WellFormed(Linked(fat, ch[j], b), ch[j := ch[j] + [b]])
    ensures FreeSet(Linked(fat, ch[j], b)) == FreeSet(fat) - {b as nat}
    ensures |FreeSet(Linked(fat, ch[j], b))| == |FreeSet(fat)| - 1
  {
    hide Chained, Distinct, Linked, FreeSet, Owned;
    LinkReady(fat, ch, j, b);
    var fat', ch' := Linked(fat, ch[j], b), ch[j := ch[j] + [b]];
    DistinctAppend(ch, j, b);
    LinkChain(fat, ch[j], b);
    LinkFrees(fat, ch[j], b);
    forall k | 0 <= k < |ch| && k != j
      ensures Chained(fat', ch[k])
    {
      LinkOther(fat, ch, j, b, k);
    }
    forall x | 1 <= x < |fat'| && fat'[x] != FREE
      ensures Owned(ch', x)
    {
      LinkCovers(fat, ch, j, b, x);
    }
  }

  lemma LinkCovers(fat: seq<u16>, ch: seq<seq<nat>>, j: nat, b: u16, x: nat)
    requires j < |ch| && b < |fat| && forall i :: 0 <= i < |ch[j]| ==> ch[j][i] < |fat|
    requires 1 <= x < |fat| && (fat[x] != FREE ==> Owned(ch, x)) && Linked(fat, ch[j], b)[x] != FREE
    ensures Owned(ch[j := ch[j] + [b]], x)
  {
    var c, ch' := ch[j], ch[j := ch[j] + [b]];
    if x == b {
      assert ch'[j][|c|] == b;
    } else if c != [] && x == c[|c| - 1] {
      assert ch'[j][|c| - 1] == x;
    } else {
      var k, i :| 0 <= k < |ch| && 0 <= i < |ch[k]| && ch[k][i] == x;
      assert ch'[k][i] == x;
    }
  }

  lemma ReleaseOther(fat: seq<u16>, ch: seq<seq<nat>>, j: nat, fat': seq<u16>, k: nat)
    requires WellFormed(fat, ch) && j < |ch| && Released(fat, ch[j], fat') && k < |ch| && k != j
    ensures Chained(fat', ch[k])
  {
    var d := ch[k];
    assert Chained(fat, d);
    forall i | 0 <= i < |d|
      ensures fat'[d[i]] == fat[d[i]]
    {
      assert d[i] !in ch[j];
    }
  }

  lemma ReleaseKeepsForm(fat: seq<u16>, ch: seq<seq<nat>>, j: nat, fat': seq<u16>)
    requires WellFormed(fat, ch) && j < |ch| && Released(fat, ch[j], fat')
    ensures WellFormed(fat', ch[j := []])
  {
    var ch' := ch[j := []];
    forall k | 0 <= k < |ch'|
      ensures Chained(fat', ch'[k])
    {
      if k != j { ReleaseOther(fat, ch, j, fat', k); }
    }
    assert forall k :: 0 <= k < |ch'| && |ch'[k]| > 0 ==> ch'[k] == ch[k];
    forall x | 1 <= x < |fat'| && fat'[x] != FREE
      ensures Owned(ch', x)
    {
      var k, i :| 0 <= k < |ch| && 0 <= i < |ch[k]| && ch[k][i] == x;
      assert ch'[k][i] == x;
    }
  }

  lemma ReleaseFreeSet(fat: seq<u16>, c: seq<nat>, fat': seq<u16>)
    requires Chained(fat, c) && Released(fat, c, fat')
    ensures FreeSet(fat') == FreeSet(fat) + Elems(c) && FreeSet(fat) !! Elems(c)
  {
    forall b | b in c
      ensures 1 <= b < Limit(fat) && fat[b] != FREE
    {
      var i :| 0 <= i < |c| && c[i] == b;
      assert fat[c[i]] == Successor(c, i);
    }
  }

  /** Giving a chain back frees exactly its cells, and as many as it is long. */
  lemma ReleaseFrees(fat: seq<u16>, ch: seq<seq<nat>>, j: nat, fat': seq<u16>)
    requires WellFormed(fat, ch) && j < |ch| && Released(fat, ch[j], fat')
    ensures FreeSet(fat') == FreeSet(fat) + Elems(ch[j])
    ensures |FreeSet(fat')| == |FreeSet(fat)| + |ch[j]|
  {
    assert forall i, i' :: 0 <= i < i' < |ch[j]| ==> ch[j][i] != ch[j][i'];
    SizeOfElems(ch[j]);
    ReleaseFreeSet(fat, ch[j], fat');
  }

  lemma {:induction false} SizeOfElems(c: seq<nat>)
    requires forall i, i' :: 0 <= i < i' < |c| ==> c[i] != c[i']
    ensures |Elems(c)| == |c|
  {
    if c != [] {
      SizeOfElems(c[1..]);
      assert c == [c[0]] + c[1..];
      assert Elems(c) == {c[0]} + Elems(c[1..]);
      assert c[0] !in Elems(c[1..]);
    }
  }

  ghost function OwnedSet(ch: seq<seq<nat>>): set<nat> {
    if ch == [] then {} else Elems(ch[0]) + OwnedSet(ch[1..])
  }

  lemma {:induction false} InOwnedSet(ch: seq<seq<nat>>, b: nat)
    ensures b in OwnedSet(ch) <==> Owned(ch, b)
  {
    if ch != [] {
      InOwnedSet(ch[1..], b);
      if b in ch[0] {
        var i :| 0 <= i < |ch[0]| && ch[0][i] == b;
      }
      if Owned(ch[1..], b) {
        var j, i :| 0 <= j < |ch[1..]| && 0 <= i < |ch[1..][j]| && ch[1..][j][i] == b;
        assert ch[j + 1][i] == b;
      }
      if Owned(ch, b) && b !in ch[0] {
        var j, i :| 0 <= j < |ch| && 0 <= i < |ch[j]| && ch[j][i] == b;
        assert ch[1..][j - 1][i] == b;
      }
    }
  }

  lemma {:induction false} SizeOfOwnedSet(ch: seq<seq<nat>>)
    requires Distinct(ch)
    ensures |OwnedSet(ch)| == Total(ch)
  {
    if ch != [] {
      var t := ch[1..];
      assert forall j :: 0 <= j < |t| ==> t[j] == ch[j + 1];
      SizeOfOwnedSet(t);
      SizeOfElems(ch[0]);
      forall b | b in ch[0]
        ensures b !in OwnedSet(t)
      {
        InOwnedSet(t, b);
        var i :| 0 <= i < |ch[0]| && ch[0][i] == b;
        assert forall k, m :: 0 <= k < |t| && 0 <= m < |t[k]| ==> t[k][m] != ch[0][i];
      }
    }
  }

  function Blocks(n: nat): (r: set<nat>)
    ensures forall b :: b in r <==> 1 <= b < n + 1
    ensures |r| == n
  {
    if n == 0 then {} else Blocks(n - 1) + {n}
  }

  /** Conservation: every block is free or owned exactly once. */
  lemma Conservation(fat: seq<u16>, ch: seq<seq<nat>>)
    requires WellFormed(fat, ch)
    ensures |FreeSet(fat)| + Total(ch) == Limit(fat) - 1
  {
    var all := Blocks(Limit(fat) - 1);
    forall b: nat
      ensures b in all <==> b in FreeSet(fat) || b in OwnedSet(ch)
      ensures !(b in FreeSet(fat) && b in OwnedSet(ch))
    {
      InOwnedSet(ch, b);
      if Owned(ch, b) {
        OwnedInUse(fat, ch, b);
      }
    }
    assert all == FreeSet(fat) + OwnedSet(ch) && FreeSet(fat) !! OwnedSet(ch);
    SizeOfOwnedSet(ch);
  }

  lemma {:induction false} PartOfTotal(ch: seq<seq<nat>>, j: nat)
    requires j < |ch|
    ensures |ch[j]| <= Total(ch)
  {
    if j > 0 { PartOfTotal(ch[1..], j - 1); }
  }

  lemma ChainBound(fat: seq<u16>, ch: seq<seq<nat>>, j: nat)
    requires WellFormed(fat, ch) && j < |ch|
    ensures |ch[j]| + |FreeSet(fat)| < Limit(fat)
  {
    Conservation(fat, ch);
    PartOfTotal(ch, j);
  }

  /** Empty chains may be appended freely. */
  lemma PadKeepsForm(fat: seq<u16>, ch: seq<seq<nat>>, n: nat)
    requires WellFormed(fat, ch)
    ensures WellFormed(fat, ch + seq(n, _ => []))
  {
    var ch' := ch + seq(n, _ => []);
    forall b | 1 <= b < |fat| && fat[b] != FREE
      ensures Owned(ch', b)
    {
      var j, i :| 0 <= j < |ch| && 0 <= i < |ch[j]| && ch[j][i] == b;
      assert ch'[j][i] == b;
    }
  }

  /**
   * The chains say everything about the table but its header: whatever brings the chains back brings the table back.
   */
  lemma ChainsDetermineTable(fat: seq<u16>, fat': seq<u16>, ch: seq<seq<nat>>)
    requires WellFormed(fat, ch) && WellFormed(fat', ch) && |fat'| == |fat| && fat'[0] == fat[0]
    ensures fat' == fat
  {
    forall b | 1 <= b < |fat|
      ensures fat'[b] == fat[b]
    {
      if Owned(ch, b) {
        var j, i :| 0 <= j < |ch| && 0 <= i < |ch[j]| && ch[j][i] == b;
        assert Chained(fat, ch[j]) && Chained(fat', ch[j]);
        assert fat[ch[j][i]] == Successor(ch[j], i) == fat'[ch[j][i]];
      }
    }
  }

  /** The first free cell from `b` on; the length of the table when there is none. */
  function FirstFree(fat: seq<u16>, b: nat): (r: nat)
    requires b <= |fat|
    ensures b <= r <= |fat| && (r < |fat| ==> fat[r] == FREE) && forall x :: b <= x < r ==> fat[x] != FREE
    decreases |fat| - b
  {
    if b == |fat| || fat[b] == FREE then b else FirstFree(fat, b + 1)
  }

  /**
   * The search for a free block finds a block exactly when there is one; otherwise it leaves the table, except in the
   * largest geometry, where it may come up with cell 0xFFFF, whose number means end of file.
   */
  lemma SearchFinds(fat: seq<u16>)
    requires 2 <= |fat| <= 0x1_0000
    ensures FirstFree(fat, 1) < Limit(fat) <==> FreeSet(fat) != {}
    ensures FirstFree(fat, 1) == EOF < |fat| <==> |fat| == 0x1_0000 && FreeSet(fat) == {} && fat[EOF] == FREE
  {
    var r := FirstFree(fat, 1);
    if r < Limit(fat) { assert r in FreeSet(fat); }
    if b :| b in FreeSet(fat) { assert fat[b] == FREE; }
  }
}
