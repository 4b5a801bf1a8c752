/** Reading at a position: fixed-width fields, counted lists, and how they extend and skip. */
module Parsing {
  import opened Bytes
  import Varuint

  /** The next `n` bytes. */
  function Raw(b: seq<byte>, p: nat, n: nat): (r: Option<(seq<byte>, nat)>)
    ensures r.Some? ==> |r.value.0| == n && r.value.1 == p + n <= |b|
  {
    if p + n <= |b| then Some((b[p..p + n], p + n)) else None
  }

  lemma TakeRaw(b: seq<byte>, p: nat, s: seq<byte>, rest: seq<byte>)
    requires At(b, p, s + rest)
    ensures Raw(b, p, |s|) == Some((s, p + |s|)) && At(b, p + |s|, rest)
  {
    AtSplit(b, p, s, rest);
  }

  /** The next byte. */
  function U8(b: seq<byte>, p: nat): (r: Option<(byte, nat)>)
    ensures r.Some? ==> r.value.1 == p + 1 <= |b|
  {
    if p < |b| then Some((b[p], p + 1)) else None
  }

  /** A little-endian integer of `n` bytes. */
  function Int(b: seq<byte>, p: nat, n: nat): (r: Option<(nat, nat)>)
    ensures r.Some? ==> r.value.0 < Pow256(n) && r.value.1 == p + n <= |b|
  {
    if p + n <= |b| then Some((FromLe(b[p..p + n]), p + n)) else None
  }

  lemma IntOfLe(b: seq<byte>, p: nat, n: nat, v: nat)
    requires v < Pow256(n) && At(b, p, Le(n, v))
    ensures Int(b, p, n) == Some((v, p + n))
  {
    LeRoundTrip(n, v);
  }

  /** `n` items, one after another. */
  function Many<T>(item: nat -> Option<(T, nat)>, p: nat, n: nat): (r: Option<(seq<T>, nat)>)
    ensures r.Some? ==> |r.value.0| == n
    decreases n
  {
    if n == 0 then Some(([], p)) else
    var x :- item(p);
    var rest :- Many(item, x.1, n - 1);
    Some(([x.0] + rest.0, rest.1))
  }

  function SkipMany(item: nat -> Option<nat>, p: nat, n: nat): Option<nat>
    decreases n
  {
    if n == 0 then Some(p) else
    var q :- item(p);
    SkipMany(item, q, n - 1)
  }

  /** A reader and a skipper stop at the same place, or both fail. */
  predicate SameEnd<T>(r: Option<(T, nat)>, s: Option<nat>) {
    if r.Some? then s == Some(r.value.1) else s == None
  }

  lemma {:induction false} ManySkips<T>(item: nat -> Option<(T, nat)>, skip: nat -> Option<nat>, p: nat, n: nat)
    requires forall q: nat :: SameEnd(item(q), skip(q))
    ensures SameEnd(Many(item, p, n), SkipMany(skip, p, n))
    decreases n
  {
    if n > 0 {
      assert SameEnd(item(p), skip(p));
      if item(p).Some? { ManySkips(item, skip, item(p).value.1, n - 1); }
    }
  }

  lemma {:induction false} ManyExtend<T>(item: nat -> Option<(T, nat)>, wider: nat -> Option<(T, nat)>, p: nat, n: nat)
    requires forall q: nat :: item(q).Some? ==> wider(q) == item(q)
    requires Many(item, p, n).Some?
    ensures Many(wider, p, n) == Many(item, p, n)
    decreases n
  {
    if n > 0 { ManyExtend(item, wider, item(p).value.1, n - 1); }
  }

  lemma {:induction false} SkipManyExtend(item: nat -> Option<nat>, wider: nat -> Option<nat>, p: nat, n: nat)
    requires forall q: nat :: item(q).Some? ==> wider(q) == item(q)
    requires SkipMany(item, p, n).Some?
    ensures SkipMany(wider, p, n) == SkipMany(item, p, n)
    decreases n
  {
    if n > 0 { SkipManyExtend(item, wider, item(p).value, n - 1); }
  }

  lemma {:induction false} SkipManyWithin(item: nat -> Option<nat>, p: nat, n: nat, end: nat)
    requires p <= end && forall q: nat :: item(q).Some? ==> item(q).value <= end
    ensures SkipMany(item, p, n).Some? ==> SkipMany(item, p, n).value <= end
    decreases n
  {
    if n > 0 && item(p).Some? { SkipManyWithin(item, item(p).value, n - 1, end); }
  }

  /** The encodings of `xs`, one after another. */
  function Flat<X>(xs: seq<X>, enc: X -> seq<byte>): seq<byte> {
    if xs == [] then [] else enc(xs[0]) + Flat(xs[1..], enc)
  }

  /** A varuint32. */
  function N(v: nat): seq<byte> {
    Varuint.Encode(v)
  }

  /** A count and the items. */
  function ListBytes<X>(xs: seq<X>, enc: X -> seq<byte>): seq<byte> {
    N(|xs|) + Flat(xs, enc)
  }

  /** A length and the bytes. */
  function Str(s: seq<byte>): seq<byte> {
    N(|s|) + s
  }

  /** A tag and its data. */
  function ExtensionBytes(x: (seq<byte>, seq<byte>)): seq<byte> {
    x.0 + Str(x.1)
  }

  lemma {:induction false} FlatSnoc<X>(xs: seq<X>, x: X, enc: X -> seq<byte>)
    ensures Flat(xs + [x], enc) == Flat(xs, enc) + enc(x)
    decreases |xs|
  {
    if xs == [] {
      assert (xs + [x])[1..] == [];
    } else {
      FlatSnoc(xs[1..], x, enc);
      assert (xs + [x])[1..] == xs[1..] + [x];
    }
  }

  /** What is read back: each value with the offset it stood at. */
  function ReadBack<X, T>(xs: seq<X>, enc: X -> seq<byte>, out: (X, nat) -> T, p: nat): (r: seq<T>)
    ensures |r| == |xs|
  {
    if xs == [] then [] else [out(xs[0], p)] + ReadBack(xs[1..], enc, out, p + |enc(xs[0])|)
  }

  /** Wherever `x`'s encoding stands, the reader gives `x` back and stops after it. */
  ghost predicate Inverts<X, T>(b: seq<byte>, item: nat -> Option<(T, nat)>, x: X, enc: X -> seq<byte>,
                                out: (X, nat) -> T) {
    forall q: nat :: At(b, q, enc(x)) ==> item(q) == Some((out(x, q), q + |enc(x)|))
  }

  lemma {:induction false} ManyOfFlat<X, T>(b: seq<byte>, p: nat, item: nat -> Option<(T, nat)>, xs: seq<X>,
                                            enc: X -> seq<byte>, out: (X, nat) -> T)
    requires forall i :: 0 <= i < |xs| ==> Inverts(b, item, xs[i], enc, out)
    requires At(b, p, Flat(xs, enc))
    ensures Many(item, p, |xs|) == Some((ReadBack(xs, enc, out, p), p + |Flat(xs, enc)|))
    decreases |xs|
  {
    hide At;
    if xs != [] {
      AtSplit(b, p, enc(xs[0]), Flat(xs[1..], enc));
      assert item(p) == Some((out(xs[0], p), p + |enc(xs[0])|)) by {
        assert Inverts(b, item, xs[0], enc, out);
      }
      hide Inverts;
      assert forall i :: 0 <= i < |xs[1..]| ==> xs[1..][i] == xs[i + 1];
      ManyOfFlat(b, p + |enc(xs[0])|, item, xs[1..], enc, out);
    }
  }

  /** Item `i` read back stood where its encoding stands. */
  lemma {:induction false} ReadBackAt<X, T>(b: seq<byte>, xs: seq<X>, enc: X -> seq<byte>, out: (X, nat) -> T,
                                            p: nat, i: nat)
      returns (q: nat)
    requires i < |xs| && At(b, p, Flat(xs, enc))
    ensures ReadBack(xs, enc, out, p)[i] == out(xs[i], q) && At(b, q, enc(xs[i]))
    decreases i
  {
    hide At;
    AtSplit(b, p, enc(xs[0]), Flat(xs[1..], enc));
    if i == 0 {
      q := p;
    } else {
      q := ReadBackAt(b, xs[1..], enc, out, p + |enc(xs[0])|, i - 1);
    }
  }

  ghost predicate SkipsOver<X>(b: seq<byte>, skip: nat -> Option<nat>, x: X, enc: X -> seq<byte>) {
    forall q: nat :: At(b, q, enc(x)) ==> skip(q) == Some(q + |enc(x)|)
  }

  lemma {:induction false} SkipManyOfFlat<X>(b: seq<byte>, p: nat, skip: nat -> Option<nat>, xs: seq<X>,
                                             enc: X -> seq<byte>)
    requires forall i :: 0 <= i < |xs| ==> SkipsOver(b, skip, xs[i], enc)
    requires At(b, p, Flat(xs, enc))
    ensures SkipMany(skip, p, |xs|) == Some(p + |Flat(xs, enc)|)
    decreases |xs|
  {
    hide At;
    if xs != [] {
      AtSplit(b, p, enc(xs[0]), Flat(xs[1..], enc));
      assert skip(p) == Some(p + |enc(xs[0])|) by {
        assert SkipsOver(b, skip, xs[0], enc);
      }
      hide SkipsOver;
      assert forall i :: 0 <= i < |xs[1..]| ==> xs[1..][i] == xs[i + 1];
      SkipManyOfFlat(b, p + |enc(xs[0])|, skip, xs[1..], enc);
    }
  }

  /** Values read back where offsets do not matter are the values themselves. */
  lemma {:induction false} ReadBackIsSame<X>(xs: seq<X>, enc: X -> seq<byte>, out: (X, nat) -> X, p: nat)
    requires forall i, q: nat :: 0 <= i < |xs| ==> out(xs[i], q) == xs[i]
    ensures ReadBack(xs, enc, out, p) == xs
    decreases |xs|
  {
    if xs != [] {
      forall i, q: nat | 0 <= i < |xs[1..]|
        ensures out(xs[1..][i], q) == xs[1..][i]
      {
        assert xs[1..][i] == xs[i + 1];
      }
      ReadBackIsSame(xs[1..], enc, out, p + |enc(xs[0])|);
    }
  }

  /** What a loop that has `acc` and has `n` items to go will return. */
  function Onto<T>(acc: seq<T>, r: Option<(seq<T>, nat)>): Option<(seq<T>, nat)> {
    if r.Some? then Some((acc + r.value.0, r.value.1)) else None
  }

  lemma OntoStep<T>(item: nat -> Option<(T, nat)>, acc: seq<T>, p: nat, n: nat)
    requires n > 0
    ensures Onto(acc, Many(item, p, n)) ==
      match item(p)
      case None => None
      case Some((x, q)) => Onto(acc + [x], Many(item, q, n - 1))
  {
    if item(p).Some? && Many(item, item(p).value.1, n - 1).Some? {
      var x, rest := item(p).value.0, Many(item, item(p).value.1, n - 1).value.0;
      assert acc + ([x] + rest) == acc + [x] + rest;
    }
  }

  lemma OntoEnds<T>(item: nat -> Option<(T, nat)>, acc: seq<T>, p: nat, n: nat)
    ensures Onto(acc, Many(item, p, 0)) == Some((acc, p))
    ensures Onto([], Many(item, p, n)) == Many(item, p, n)
  {
    assert acc + [] == acc;
    if Many(item, p, n).Some? {
      assert [] + Many(item, p, n).value.0 == Many(item, p, n).value.0;
    }
  }

  /** The outcome of a reading method: the value, with the cursor past it, or a failure. */
  predicate Did<T(==)>(spec: Option<(T, nat)>, r: Option<T>, pos: nat) {
    match spec
    case None => r == None
    case Some((x, p)) => r == Some(x) && pos == p
  }

  /** The outcome of a skipping method. */
  predicate Stopped(spec: Option<nat>, ok: bool, pos: nat) {
    match spec
    case None => !ok
    case Some(p) => ok && pos == p
  }
}
