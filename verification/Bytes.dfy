/** Bytes, optional values and the fixed-width integer encodings shared by every format. */
module Bytes {

  type byte = x: int | 0 <= x < 256

  const U32: nat := 0x1_0000_0000
  const U64: nat := 0x1_0000_0000_0000_0000

  datatype Option<+T> = None | Some(value: T) {
    predicate IsFailure() { None? }
    function PropagateFailure<U>(): Option<U>
      requires None?
    {
      None
    }
    function Extract(): T
      requires Some?
    {
      value
    }
  }

  function Min(a: int, b: int): int {
    if a < b then a else b
  }

  function Max(a: int, b: int): int {
    if a < b then b else a
  }

  /** The values of a sequence. */
  function Elements<T(==)>(xs: seq<T>): set<T> {
    set x | x in xs
  }

  lemma LaterIsIn<T>(xs: seq<T>, i: nat, j: nat)
    requires i < |xs| && j < |xs|
    ensures i < j ==> xs[j] in xs[i + 1..]
  {
    if i < j { assert xs[i + 1..][j - i - 1] == xs[j]; }
  }

  function Digit(d: nat): (c: char)
    requires d < 10
    ensures '0' <= c <= '9' && c as int == 48 + d
  {
    (48 + d) as char
  }

  function Pow256(n: nat): (r: nat)
    ensures r > 0
  {
    if n == 0 then 1 else 256 * Pow256(n - 1)
  }

  lemma Pow256Facts()
    ensures Pow256(2) == 0x1_0000 && Pow256(4) == U32 && Pow256(8) == U64
  {
    assert Pow256(3) == 0x100_0000;
    assert Pow256(5) == 0x100_0000_0000;
    assert Pow256(7) == 0x100_0000_0000_0000;
  }

  /** `n` bytes of `v`, least significant first. */
  function Le(n: nat, v: nat): (r: seq<byte>)
    ensures |r| == n
  {
    if n == 0 then [] else [v % 256] + Le(n - 1, v / 256)
  }

  function FromLe(s: seq<byte>): (v: nat)
    ensures v < Pow256(|s|)
  {
    if s == [] then 0 else s[0] + 256 * FromLe(s[1..])
  }

  /** Most significant byte first. */
  function FromBe(s: seq<byte>): (v: nat)
    ensures v < Pow256(|s|)
  {
    if s == [] then 0 else 256 * FromBe(s[..|s| - 1]) + s[|s| - 1]
  }

  lemma {:induction false} LeRoundTrip(n: nat, v: nat)
    requires v < Pow256(n)
    ensures FromLe(Le(n, v)) == v
  {
    if n != 0 {
      LeRoundTrip(n - 1, v / 256);
      assert Le(n, v)[1..] == Le(n - 1, v / 256);
    }
  }

  lemma {:induction false} LeOfFromLe(s: seq<byte>)
    ensures Le(|s|, FromLe(s)) == s
  {
    if s != [] {
      LeOfFromLe(s[1..]);
      assert FromLe(s) % 256 == s[0] && FromLe(s) / 256 == FromLe(s[1..]);
    }
  }

  /** `n` bytes of `v`, most significant first. */
  function Be(n: nat, v: nat): (r: seq<byte>)
    ensures |r| == n
  {
    if n == 0 then [] else Be(n - 1, v / 256) + [v % 256]
  }

  lemma {:induction false} BeRoundTrip(n: nat, v: nat)
    requires v < Pow256(n)
    ensures FromBe(Be(n, v)) == v
  {
    if n != 0 {
      BeRoundTrip(n - 1, v / 256);
      assert Be(n, v)[..n - 1] == Be(n - 1, v / 256);
    }
  }

  /** The bytes `e` stand at offset `p` of `b`. */
  predicate At(b: seq<byte>, p: nat, e: seq<byte>) {
    p + |e| <= |b| && b[p..p + |e|] == e
  }

  lemma MulAtLeast(c: nat, d: int)
    requires c > 0 && d != 0
    ensures d > 0 ==> c * d >= c
    ensures d < 0 ==> c * d + c <= 0
  {
  }

  lemma AtWhole(b: seq<byte>)
    ensures At(b, 0, b)
  {
  }

  lemma AtSplit(b: seq<byte>, p: nat, e: seq<byte>, f: seq<byte>)
    requires At(b, p, e + f)
    ensures At(b, p, e) && At(b, p + |e|, f)
  {
    var w := b[p..p + |e| + |f|];
    assert b[p..p + |e|] == w[..|e|] == e;
    assert b[p + |e|..p + |e| + |f|] == w[|e|..] == f;
  }

  lemma AtJoin(b: seq<byte>, p: nat, e: seq<byte>, f: seq<byte>)
    requires At(b, p, e) && At(b, p + |e|, f)
    ensures At(b, p, e + f)
  {
    assert b[p..p + |e| + |f|] == b[p..p + |e|] + b[p + |e|..p + |e| + |f|];
  }

  lemma AtIndex(b: seq<byte>, p: nat, e: seq<byte>, i: nat)
    requires At(b, p, e) && i < |e|
    ensures b[p + i] == e[i]
  {
    assert b[p..p + |e|][i] == b[p + i];
  }

  /** What stands at `p` still stands there after more bytes are appended. */
  lemma AtExtend(b: seq<byte>, c: seq<byte>, p: nat, e: seq<byte>)
    requires b <= c && At(b, p, e)
    ensures At(c, p, e)
  {
    assert c[p..p + |e|] == b[p..p + |e|];
  }

  /** A little-endian integer of `n` bytes at `p`, when the file holds it. */
  function IntAt(b: seq<byte>, n: nat, p: nat): (r: Option<nat>)
    ensures r.Some? ==> r.value < Pow256(n)
  {
    if p + n <= |b| then Some(FromLe(b[p..p + n])) else None
  }

  lemma IntAtLe(b: seq<byte>, n: nat, p: nat, v: nat)
    requires v < Pow256(n) && At(b, p, Le(n, v))
    ensures IntAt(b, n, p) == Some(v)
  {
    LeRoundTrip(n, v);
  }
}
