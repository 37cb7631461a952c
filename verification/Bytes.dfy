/** Bytes, fixed-width words and the one way memory is changed: a splice. */
module Bytes {

  type byte = x: int | 0 <= x < 0x100
  type u16 = x: int | 0 <= x < 0x1_0000
  type u32 = x: int | 0 <= x < 0x1_0000_0000

  function Min(a: int, b: int): int { if a < b then a else b }

  function Max(a: int, b: int): int { if a < b then b else a }

  function CeilDiv(a: nat, b: nat): nat
    requires b > 0
  {
    (a + b - 1) / b
  }

  /** `s` with the elements from position `at` on replaced by `t`. */
  function Splice<T>(s: seq<T>, at: nat, t: seq<T>): (r: seq<T>)
    requires at + |t| <= |s|
    ensures |r| == |s|
    ensures forall p :: 0 <= p < |s| ==> r[p] == if at <= p < at + |t| then t[p - at] else s[p]
  {
    s[..at] + t + s[at + |t|..]
  }

  function Zeros(n: nat): (r: seq<byte>)
    ensures |r| == n && forall i :: 0 <= i < n ==> r[i] == 0
  {
    seq(n, _ => 0)
  }

  /** Little-endian words, as the host lays them out in the image. */
  function Enc16(v: u16): (r: seq<byte>)
    ensures |r| == 2
  {
    [v % 0x100, v / 0x100]
  }

  function Dec16(s: seq<byte>): u16
    requires |s| == 2
  {
    (s[0] as int) + 0x100 * (s[1] as int)
  }

  function Enc32(v: u32): (r: seq<byte>)
    ensures |r| == 4
  {
    Enc16(v % 0x1_0000) + Enc16(v / 0x1_0000)
  }

  function Dec32(s: seq<byte>): u32
    requires |s| == 4
  {
    (Dec16(s[..2]) as int) + 0x1_0000 * (Dec16(s[2..]) as int)
  }

  lemma DecEnc16(v: u16)
    ensures Dec16(Enc16(v)) == v
  {}

  lemma DecEnc32(v: u32)
    ensures Dec32(Enc32(v)) == v
  {
    assert Enc32(v)[..2] == Enc16(v % 0x1_0000);
    assert Enc32(v)[2..] == Enc16(v / 0x1_0000);
  }

  // ---- a little multiplication, kept out of the solver's way ----

  lemma MulMono(n: nat, a: int, b: int)
    requires a <= b
    ensures n * a <= n * b
  {}

  lemma MulStep(n: nat, a: int)
    ensures n * (a + 1) == n * a + n
    ensures n * (a - 1) == n * a - n
  {}

  /** q * n + r with r < n has exactly one reading. */
  lemma DivUnique(n: nat, q: nat, r: nat)
    requires r < n
    ensures (n * q + r) / n == q && (n * q + r) % n == r
  {
    var a := n * q + r;
    var q', r' := a / n, a % n;
    assert a == n * q' + r';
    if q < q' {
      MulMono(n, q + 1, q');
    } else if q' < q {
      MulMono(n, q' + 1, q);
    }
  }

  lemma CeilDivBounds(a: nat, b: nat)
    requires b > 0
    ensures b * CeilDiv(a, b) >= a
    ensures CeilDiv(a, b) > 0 ==> b * (CeilDiv(a, b) - 1) < a
    ensures CeilDiv(a, b) == 0 <==> a == 0
  {
    var n := a + b - 1;
    var q := CeilDiv(a, b);
    assert n == b * q + n % b;
    MulStep(b, q);
    if a == 0 { DivUnique(b, 0, b - 1); }
    if q == 0 { assert n < b; }
  }

  lemma CeilDivMono(a: nat, a': nat, b: nat)
    requires b > 0 && a <= a'
    ensures CeilDiv(a, b) <= CeilDiv(a', b)
  {
    CeilDivBounds(a, b);
    CeilDivBounds(a', b);
    var q, q' := CeilDiv(a, b), CeilDiv(a', b);
    if q' < q { MulMono(b, q', q - 1); }
  }
}
