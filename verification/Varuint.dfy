/** LEB128 integers: the one encoder and the readers of the three decoders. */
module Varuint {
  import opened Bytes

  function Pow128(n: nat): (r: nat)
    ensures r > 0
  {
    if n == 0 then 1 else 128 * Pow128(n - 1)
  }

  /** Seven bits per byte, least significant group first, the high bit on all but the last. */
  function Encode(v: nat): (r: seq<byte>)
    ensures |r| > 0
    decreases v
  {
    if v < 128 then [v] else [v % 128 + 128] + Encode(v / 128)
  }

  /**
   Up to `left` groups at `p`. A group without the high bit ends the number. When all `left` bytes
   carry it, a strict reader refuses and a lenient one stops.
   */
  function Groups(b: seq<byte>, p: nat, left: nat, strict: bool): (r: Option<(nat, nat)>)
    requires left > 0
    ensures r.Some? ==> p < r.value.1 <= p + left && r.value.1 <= |b| && r.value.0 < Pow128(left)
    decreases left
  {
    if p >= |b| then None else
    var g: nat := b[p] % 128;
    if b[p] < 128 || (left == 1 && !strict) then Some((g, p + 1)) else
    if left == 1 then None else
    var rest :- Groups(b, p + 1, left - 1, strict);
    Some((g + 128 * rest.0, rest.1))
  }

  /** The number of bytes of an encoding grows with the number of groups. */
  lemma {:induction false} EncodeLength(v: nat, n: nat)
    requires n > 0
    ensures |Encode(v)| <= n <==> v < Pow128(n)
  {
    if n > 1 && v >= 128 {
      EncodeLength(v / 128, n - 1);
    }
  }

  /** A reader of `left` groups reads back what fits in them. */
  lemma {:induction false} GroupsOfEncode(b: seq<byte>, p: nat, v: nat, left: nat, strict: bool)
    requires left > 0 && v < Pow128(left) && At(b, p, Encode(v))
    ensures Groups(b, p, left, strict) == Some((v, p + |Encode(v)|))
    decreases left
  {
    assert b[p] == Encode(v)[0] by { assert b[p..p + |Encode(v)|][0] == b[p]; }
    if v >= 128 {
      AtSplit(b, p, [v % 128 + 128], Encode(v / 128));
      GroupsOfEncode(b, p + 1, v / 128, left - 1, strict);
    }
  }

  /** A strict reader refuses what does not fit. */
  lemma {:induction false} GroupsRefuse(b: seq<byte>, p: nat, v: nat, left: nat)
    requires left > 0 && v >= Pow128(left) && At(b, p, Encode(v))
    ensures Groups(b, p, left, true) == None
    decreases left
  {
    assert b[p] == Encode(v)[0] by { assert b[p..p + |Encode(v)|][0] == b[p]; }
    if left > 1 {
      AtSplit(b, p, [v % 128 + 128], Encode(v / 128));
      GroupsRefuse(b, p + 1, v / 128, left - 1);
    }
  }

  /** What a prefix of the bytes gives, all of them give. */
  lemma {:induction false} GroupsExtend(b: seq<byte>, c: seq<byte>, p: nat, left: nat, strict: bool)
    requires left > 0 && b <= c && Groups(b, p, left, strict).Some?
    ensures Groups(c, p, left, strict) == Groups(b, p, left, strict)
    decreases left
  {
    if left > 1 && b[p] >= 128 {
      GroupsExtend(b, c, p + 1, left - 1, strict);
    }
  }

  /** What all the bytes give, a prefix that holds the number gives. */
  lemma {:induction false} GroupsShrink(b: seq<byte>, c: seq<byte>, p: nat, left: nat, strict: bool)
    requires left > 0 && b <= c && Groups(c, p, left, strict).Some? && Groups(c, p, left, strict).value.1 <= |b|
    ensures Groups(b, p, left, strict) == Groups(c, p, left, strict)
    decreases left
  {
    if left > 1 && c[p] >= 128 {
      GroupsShrink(b, c, p + 1, left - 1, strict);
    }
  }

  lemma Pow128Facts()
    ensures Pow128(5) == 0x8_0000_0000 && Pow128(6) == 0x400_0000_0000
  {
    assert Pow128(3) == 0x20_0000;
  }

  /** fc `unsigned_int`: five bytes at most, low 32 bits. */
  function Fc(b: seq<byte>, p: nat): (r: Option<(nat, nat)>)
    ensures r.Some? ==> p < r.value.1 <= |b| && r.value.0 < U32
  {
    var r :- Groups(b, p, 5, false);
    Some((r.0 % U32, r.1))
  }

  /** The delta reader: six bytes at most, refused when they do not end. */
  function Wide(b: seq<byte>, p: nat): (r: Option<(nat, nat)>)
    ensures r.Some? ==> p < r.value.1 <= |b|
  {
    Groups(b, p, 6, true)
  }

  /** The trace reader: as `Wide`, then the low 32 bits. */
  function Narrow(b: seq<byte>, p: nat): (r: Option<(nat, nat)>)
    ensures r.Some? ==> p < r.value.1 <= |b| && r.value.0 < U32
  {
    var r :- Groups(b, p, 6, true);
    Some((r.0 % U32, r.1))
  }

  /** The encodings at the ends of one and two groups, and a number in between. */
  lemma KnownEncodings()
    ensures Encode(127) == [0x7f] && Encode(128) == [0x80, 0x01] && Encode(2000) == [0xd0, 0x0f]
    ensures Encode(16383) == [0xff, 0x7f] && Encode(16384) == [0x80, 0x80, 0x01]
  {
    assert Encode(1) == [1] && Encode(15) == [15] && Encode(128) == [0x80, 0x01];
  }

  lemma FcOfEncode(b: seq<byte>, p: nat, v: nat)
    requires v < U32 && At(b, p, Encode(v))
    ensures Fc(b, p) == Some((v, p + |Encode(v)|))
  {
    Pow128Facts();
    GroupsOfEncode(b, p, v, 5, false);
  }

  lemma NarrowOfEncode(b: seq<byte>, p: nat, v: nat)
    requires v < U32 && At(b, p, Encode(v))
    ensures Narrow(b, p) == Some((v, p + |Encode(v)|))
  {
    Pow128Facts();
    GroupsOfEncode(b, p, v, 6, true);
  }

  /** The delta reader reads back exactly the lengths below 2^42. */
  lemma WideOfEncode(b: seq<byte>, p: nat, v: nat)
    requires At(b, p, Encode(v))
    ensures Wide(b, p) == if v < 0x400_0000_0000 then Some((v, p + |Encode(v)|)) else None
  {
    Pow128Facts();
    if v < 0x400_0000_0000 {
      GroupsOfEncode(b, p, v, 6, true);
    } else {
      GroupsRefuse(b, p, v, 6);
    }
  }

  // The loops.

  /** `put_varuint`: append to `out` until no group is left. */
  method Put(out: seq<byte>, value: nat) returns (r: seq<byte>)
    ensures r == out + Encode(value)
  {
    r := out;
    var v := value;
    while true
      invariant r + Encode(v) == out + Encode(value)
      decreases v
    {
      var b := v % 128;
      ghost var before := r;
      if v / 128 == 0 {
        r := r + [b];
        return;
      }
      r := r + [b + 128];
      assert r + Encode(v / 128) == before + ([b + 128] + Encode(v / 128));
      v := v / 128;
    }
  }

  /** The number read so far, `v`, with the groups still to come. */
  function Join(v: nat, scale: nat, rest: Option<(nat, nat)>): Option<(nat, nat)> {
    if rest.Some? then Some((v + rest.value.0 * scale, rest.value.1)) else None
  }

  lemma JoinStep(b: seq<byte>, p: nat, left: nat, strict: bool, v: nat, scale: nat)
    requires left > 0
    ensures Join(v, scale, Groups(b, p, left, strict)) ==
      if p >= |b| then None
      else if b[p] < 128 || (left == 1 && !strict) then Some((v + b[p] % 128 * scale, p + 1))
      else if left == 1 then None
      else Join(v + b[p] % 128 * scale, scale * 128, Groups(b, p + 1, left - 1, strict))
  {
    if p < |b| && b[p] >= 128 && left > 1 && Groups(b, p + 1, left - 1, strict).Some? {
      Regroup(scale, b[p] % 128, Groups(b, p + 1, left - 1, strict).value.0);
    }
  }

  lemma Regroup(scale: nat, g: nat, rest: nat)
    ensures (g + 128 * rest) * scale == g * scale + rest * (scale * 128)
  {
    assert (g + 128 * rest) * scale == g * scale + 128 * rest * scale;
  }

  /** The shared reading loop: `v |= (b & 0x7f) << shift`, with `count` bytes at most. */
  method ReadGroups(b: seq<byte>, from: nat, count: nat, strict: bool) returns (r: Option<(nat, nat)>)
    requires count > 0
    ensures r == Groups(b, from, count, strict)
  {
    hide Groups;
    var p: nat, v: nat, i: nat, scale: nat := from, 0, 0, 1;
    ghost var all := Groups(b, from, count, strict);
    while true
      invariant i < count && p == from + i && all == Join(v, scale, Groups(b, p, count - i, strict))
      decreases count - i
    {
      JoinStep(b, p, count - i, strict, v, scale);
      if p >= |b| { return None; }
      var byte := b[p];
      v := v + byte % 128 * scale;
      p, i, scale := p + 1, i + 1, scale * 128;
      if byte < 128 { return Some((v, p)); }
      if i == count { return if strict then None else Some((v, p)); }
    }
  }
}
