/** Readers for the serialized primitives, as functions of an offset and as an object with a cursor. */
module FcReaders {
  import opened Bytes
  import opened Parsing
  import Varuint

  /** Every byte above 1 is refused. */
  function Bool(b: seq<byte>, p: nat): (r: Option<(bool, nat)>)
    ensures r.Some? ==> r.value.1 == p + 1 <= |b|
  {
    if p < |b| && b[p] <= 1 then Some((b[p] == 1, p + 1)) else None
  }

  lemma BoolExactly(b: seq<byte>, p: nat, v: bool)
    ensures Bool(b, p) == Some((v, p + 1)) <==> At(b, p, [if v then 1 else 0])
  {
    if p < |b| { assert b[p..p + 1] == [b[p]]; }
  }

  class FcReader {
    const b: seq<byte>
    var pos: nat

    constructor (b: seq<byte>)
      ensures this.b == b && pos == 0
    {
      this.b, pos := b, 0;
    }

    /** On error the cursor stays. */
    method Bytes(n: nat) returns (r: Option<seq<byte>>)
      modifies this
      ensures Did(Raw(b, old(pos), n), r, pos)
      ensures r.None? ==> pos == old(pos)
    {
      if pos + n > |b| { return None; }
      r := Some(b[pos..pos + n]);
      pos := pos + n;
    }

    method ReadU8() returns (r: Option<byte>)
      modifies this
      ensures Did(U8(b, old(pos)), r, pos)
    {
      var s := Bytes(1);
      if s.None? { return None; }
      return Some(s.value[0]);
    }

    method ReadInt(n: nat) returns (r: Option<nat>)
      modifies this
      ensures Did(Int(b, old(pos), n), r, pos)
    {
      var s := Bytes(n);
      if s.None? { return None; }
      return Some(FromLe(s.value));
    }

    method ReadVaruint32() returns (r: Option<nat>)
      modifies this
      ensures Did(Varuint.Fc(b, old(pos)), r, pos)
    {
      var g := Varuint.ReadGroups(b, pos, 5, false);
      if g.None? { return None; }
      pos := g.value.1;
      return Some(g.value.0 % U32);
    }

    method ReadBool() returns (r: Option<bool>)
      modifies this
      ensures Did(Bool(b, old(pos)), r, pos)
    {
      var s := ReadU8();
      if s.None? || s.value > 1 { return None; }
      return Some(s.value == 1);
    }
  }
}
