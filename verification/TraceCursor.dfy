/** The cursor that walks a trace payload, step by step as the walkers do, against their specification. */
module TraceCursor {
  import opened Bytes
  import opened Parsing
  import opened Trace
  import opened TraceBounds
  import opened TraceLayout
  import Varuint

  class Cur {
    const b: seq<byte>
    var p: nat

    constructor (b: seq<byte>)
      ensures this.b == b && p == 0
    {
      this.b, p := b, 0;
    }

    method Take(n: nat) returns (r: Option<seq<byte>>)
      modifies this
      ensures Did(Raw(b, old(p), n), r, p)
    {
      if p + n > |b| { return None; }
      r := Some(b[p..p + n]);
      p := p + n;
    }

    method ReadU8() returns (r: Option<byte>)
      modifies this
      ensures Did(U8(b, old(p)), r, p)
    {
      var s := Take(1);
      if s.None? { return None; }
      return Some(s.value[0]);
    }

    method ReadInt(n: nat) returns (r: Option<nat>)
      modifies this
      ensures Did(Int(b, old(p), n), r, p)
    {
      var s := Take(n);
      if s.None? { return None; }
      return Some(FromLe(s.value));
    }

    method ReadVaruint() returns (r: Option<nat>)
      modifies this
      ensures Did(V(b, old(p)), r, p)
    {
      var g := Varuint.ReadGroups(b, p, 6, true);
      if g.None? { return None; }
      p := g.value.1;
      return Some(g.value.0 % U32);
    }

    method Advance(n: nat) returns (ok: bool)
      modifies this
      ensures Stopped(Skip(b, old(p), n), ok, p)
    {
      var s := Take(n);
      return s.Some?;
    }

    method AdvanceVaruint() returns (ok: bool)
      modifies this
      ensures Stopped(SkipV(b, old(p)), ok, p)
    {
      hide V;
      var v := ReadVaruint();
      return v.Some?;
    }

    method ReadRange() returns (r: Option<(nat, nat)>)
      modifies this
      ensures Did(BytesRange(b, old(p)), r, p)
    {
      hide V;
      var len := ReadVaruint();
      if len.None? { return None; }
      var start := p;
      var s := Take(len.value);
      if s.None? { return None; }
      return Some((start, len.value));
    }

    method AdvanceBytes() returns (ok: bool)
      modifies this
      ensures Stopped(SkipBytes(b, old(p)), ok, p)
    {
      hide V;
      var len := ReadVaruint();
      if len.None? { return false; }
      ok := Advance(len.value);
    }

    method ReadPresent() returns (r: Option<bool>)
      modifies this
      ensures Did(Present(b, old(p)), r, p)
    {
      var x := ReadU8();
      if x.None? { return None; }
      return Some(x.value == 1);
    }

    method AdvanceOpt(n: nat) returns (ok: bool)
      modifies this
      ensures Stopped(SkipOpt(b, old(p), n), ok, p)
    {
      var x := ReadPresent();
      if x.None? { return false; }
      if x.value { ok := Advance(n); } else { ok := true; }
    }

    method AdvanceOptBytes() returns (ok: bool)
      modifies this
      ensures Stopped(SkipOptBytes(b, old(p)), ok, p)
    {
      hide SkipBytes;
      var x := ReadPresent();
      if x.None? { return false; }
      if x.value { ok := AdvanceBytes(); } else { ok := true; }
    }
  }

  // The parsing walkers.

  method ParsePairs(c: Cur) returns (r: Option<seq<(nat, nat)>>)
    modifies c
    ensures Did(Pairs(c.b, old(c.p)), r, c.p)
  {
    hide Many; hide V; hide FromLe;
    var n := c.ReadVaruint();
    if n.None? { return None; }
    var acc := [];
    ghost var all := Many(PairReader(c.b), c.p, n.value);
    OntoEnds(PairReader(c.b), acc, c.p, n.value);
    for i := 0 to n.value
      invariant all == Onto(acc, Many(PairReader(c.b), c.p, n.value - i))
    {
      OntoStep(PairReader(c.b), acc, c.p, n.value - i);
      var x := c.ReadInt(8);
      if x.None? { return None; }
      var y := c.ReadInt(8);
      if y.None? { return None; }
      acc := acc + [(x.value, y.value)];
    }
    OntoEnds(PairReader(c.b), acc, c.p, n.value);
    return Some(acc);
  }

  method ParseDeltas(c: Cur) returns (r: Option<seq<(nat, int)>>)
    modifies c
    ensures Did(Deltas(c.b, old(c.p)), r, c.p)
  {
    hide Many; hide V; hide FromLe;
    var n := c.ReadVaruint();
    if n.None? { return None; }
    var acc := [];
    ghost var all := Many(DeltaReader(c.b), c.p, n.value);
    OntoEnds(DeltaReader(c.b), acc, c.p, n.value);
    for i := 0 to n.value
      invariant all == Onto(acc, Many(DeltaReader(c.b), c.p, n.value - i))
    {
      OntoStep(DeltaReader(c.b), acc, c.p, n.value - i);
      var x := c.ReadInt(8);
      if x.None? { return None; }
      var y := c.ReadInt(8);
      if y.None? { return None; }
      acc := acc + [(x.value, Signed(y.value))];
    }
    OntoEnds(DeltaReader(c.b), acc, c.p, n.value);
    return Some(acc);
  }

  method ParseReceipt(c: Cur) returns (r: Option<Option<Receipt>>)
    modifies c
    ensures Did(OptReceiptAt(c.b, old(c.p)), r, c.p)
  {
    hide V; hide FromLe; hide Pairs;
    var present := c.ReadPresent();
    if present.None? { return None; }
    if !present.value { return Some(None); }
    var variant := c.ReadVaruint();
    if variant.None? { return None; }
    var receiver := c.ReadInt(8);
    if receiver.None? { return None; }
    var digest := c.Take(32);
    if digest.None? { return None; }
    var global := c.ReadInt(8);
    if global.None? { return None; }
    var recv := c.ReadInt(8);
    if recv.None? { return None; }
    var auth := ParsePairs(c);
    if auth.None? { return None; }
    var code := c.ReadVaruint();
    if code.None? { return None; }
    var abi := c.ReadVaruint();
    if abi.None? { return None; }
    return Some(Some(Receipt(receiver.value, digest.value, global.value, recv.value, auth.value, code.value,
                             abi.value)));
  }

  method ParseTail(c: Cur, v1: bool) returns (r: Option<ActTail>)
    modifies c
    ensures Did(TailAt(c.b, old(c.p), v1), r, c.p)
  {
    hide V; hide FromLe; hide Deltas; hide SkipBytes; hide SkipOpt; hide BytesRange;
    var contextFree := c.ReadU8();
    if contextFree.None? { return None; }
    var elapsed := c.ReadInt(8);
    if elapsed.None? { return None; }
    var console := c.AdvanceBytes();
    if !console { return None; }
    var ram := ParseDeltas(c);
    if ram.None? { return None; }
    var except := c.ReadPresent();
    if except.None? { return None; }
    if except.value {
      var message := c.AdvanceBytes();
      if !message { return None; }
    }
    var error := c.AdvanceOpt(8);
    if !error { return None; }
    if !v1 { return Some(ActTail(contextFree.value != 0, Signed(elapsed.value), ram.value, except.value, None)); }
    var ret := c.ReadRange();
    if ret.None? { return None; }
    return Some(ActTail(contextFree.value != 0, Signed(elapsed.value), ram.value, except.value, Some(ret.value)));
  }

  method ParseAction(c: Cur, v1: bool) returns (r: Option<Act>)
    modifies c
    ensures Did(ActAt(c.b, old(c.p), v1), r, c.p)
  {
    hide V; hide FromLe; hide Pairs; hide OptReceiptAt; hide TailAt; hide BytesRange;
    var ordinal := c.ReadVaruint();
    if ordinal.None? { return None; }
    var creator := c.ReadVaruint();
    if creator.None? { return None; }
    var receipt := ParseReceipt(c);
    if receipt.None? { return None; }
    var receiver := c.ReadInt(8);
    if receiver.None? { return None; }
    var account := c.ReadInt(8);
    if account.None? { return None; }
    var name := c.ReadInt(8);
    if name.None? { return None; }
    var auth := ParsePairs(c);
    if auth.None? { return None; }
    var data := c.ReadRange();
    if data.None? { return None; }
    var tail := ParseTail(c, v1);
    if tail.None? { return None; }
    return Some(Act(ordinal.value, creator.value, receipt.value, receiver.value, account.value, name.value, auth.value,
                    data.value, tail.value));
  }

  method ParseActions(c: Cur) returns (r: Option<seq<Act>>)
    modifies c
    ensures Did(Acts(c.b, old(c.p)), r, c.p)
  {
    hide Many; hide V; hide ActAt;
    var n := c.ReadVaruint();
    if n.None? { return None; }
    var acc := [];
    ghost var all := Many(ActReader(c.b), c.p, n.value);
    OntoEnds(ActReader(c.b), acc, c.p, n.value);
    for i := 0 to n.value
      invariant all == Onto(acc, Many(ActReader(c.b), c.p, n.value - i))
    {
      OntoStep(ActReader(c.b), acc, c.p, n.value - i);
      var variant := c.ReadVaruint();
      if variant.None? { return None; }
      var a := ParseAction(c, variant.value == 1);
      if a.None? { return None; }
      acc := acc + [a.value];
    }
    OntoEnds(ActReader(c.b), acc, c.p, n.value);
    return Some(acc);
  }

  method ParseBody(c: Cur) returns (r: Option<seq<Act>>)
    modifies c
    ensures Did(BodyAt(c.b, old(c.p)), r, c.p)
  {
    hide Acts; hide SkipOpt; hide SkipOptBytes;
    var actions := ParseActions(c);
    if actions.None? { return None; }
    var ok := c.AdvanceOpt(16);
    if !ok { return None; }
    ok := c.AdvanceOptBytes();
    if !ok { return None; }
    ok := c.AdvanceOpt(8);
    if !ok { return None; }
    return actions;
  }

  method ParseTx(c: Cur) returns (r: Option<Tx>)
    modifies c
    ensures Did(TxAt(c.b, old(c.p)), r, c.p)
  {
    hide V; hide FromLe; hide BodyAt; hide SkipRest;
    var id := c.Take(32);
    if id.None? { return None; }
    var ok := c.Advance(1);
    if !ok { return None; }
    var cpu := c.ReadInt(4);
    if cpu.None? { return None; }
    var net := c.ReadVaruint();
    if net.None? { return None; }
    ok := c.Advance(8);
    if !ok { return None; }
    ok := c.Advance(8);
    if !ok { return None; }
    ok := c.Advance(1);
    if !ok { return None; }
    var body := ParseBody(c);
    if body.None? { return None; }
    ok := AdvanceRest(c);
    if !ok { return None; }
    return Some(Tx(id.value, cpu.value, net.value, body.value));
  }

  /**
   parse_block. On every payload no range of the result leaves it; on a payload that starts with the
   layout of some transactions, the result is those transactions, every range over the bytes it names.
   */
  method Parse(payload: seq<byte>) returns (r: Option<seq<Tx>>)
    ensures r == ParseBlock(payload)
    ensures r.Some? ==> forall i :: 0 <= i < |r.value| ==> TxInside(|payload|, r.value[i])
    ensures forall txs: seq<TxX>, trailing: seq<byte> :: AllWf(txs) && payload == BlockBytes(txs) + trailing ==>
              r.Some? && IsBlock(payload, txs, r.value)
  {
    hide BlockBytes; hide TxWf; hide IsBlock; hide TxInside; hide ParseBlock;
    ParseIsInside(payload);
    forall txs: seq<TxX>, trailing: seq<byte> | AllWf(txs) && payload == BlockBytes(txs) + trailing
      ensures ParseBlock(payload).Some? && IsBlock(payload, txs, ParseBlock(payload).value)
    {
      LayoutIsBlock(txs, trailing);
    }
    r := Walk(payload);
  }

  method Walk(payload: seq<byte>) returns (r: Option<seq<Tx>>)
    ensures r == ParseBlock(payload)
  {
    hide Many; hide V; hide TxAt;
    var c := new Cur(payload);
    var n := c.ReadVaruint();
    if n.None? { return None; }
    var acc := [];
    ghost var all := Many(TxReader(c.b), c.p, n.value);
    OntoEnds(TxReader(c.b), acc, c.p, n.value);
    for i := 0 to n.value
      invariant all == Onto(acc, Many(TxReader(c.b), c.p, n.value - i))
    {
      OntoStep(TxReader(c.b), acc, c.p, n.value - i);
      var variant := c.ReadVaruint();
      if variant.None? { return None; }
      var t := ParseTx(c);
      if t.None? { return None; }
      acc := acc + [t.value];
    }
    OntoEnds(TxReader(c.b), acc, c.p, n.value);
    return Some(acc);
  }

  // The skip-only walkers.

  method Advance16s(c: Cur) returns (ok: bool)
    modifies c
    ensures Stopped(SkipPairs(c.b, old(c.p)), ok, c.p)
  {
    hide V;
    var n := c.ReadVaruint();
    if n.None? { return false; }
    ghost var all := SkipMany(Skipper16(c.b), c.p, n.value);
    for i := 0 to n.value
      invariant all == SkipMany(Skipper16(c.b), c.p, n.value - i)
    {
      ok := c.Advance(16);
      if !ok { return; }
    }
    return true;
  }

  method AdvanceReceipt(c: Cur) returns (ok: bool)
    modifies c
    ensures Stopped(SkipOptReceipt(c.b, old(c.p)), ok, c.p)
  {
    hide SkipV; hide SkipPairs;
    var present := c.ReadPresent();
    if present.None? { return false; }
    if !present.value { return true; }
    ok := c.AdvanceVaruint();
    if !ok { return; }
    ok := c.Advance(56);
    if !ok { return; }
    ok := Advance16s(c);
    if !ok { return; }
    ok := c.AdvanceVaruint();
    if !ok { return; }
    ok := c.AdvanceVaruint();
  }

  method AdvanceTail(c: Cur, v1: bool) returns (ok: bool)
    modifies c
    ensures Stopped(SkipTail(c.b, old(c.p), v1), ok, c.p)
  {
    hide SkipBytes; hide SkipPairs; hide SkipOpt; hide SkipOptBytes;
    ok := c.Advance(9);
    if !ok { return; }
    ok := c.AdvanceBytes();
    if !ok { return; }
    ok := Advance16s(c);
    if !ok { return; }
    ok := c.AdvanceOptBytes();
    if !ok { return; }
    ok := c.AdvanceOpt(8);
    if !ok { return; }
    if v1 { ok := c.AdvanceBytes(); }
  }

  method AdvanceAction(c: Cur, v1: bool) returns (ok: bool)
    modifies c
    ensures Stopped(SkipAct(c.b, old(c.p), v1), ok, c.p)
  {
    hide SkipV; hide SkipPairs; hide SkipOptReceipt; hide SkipBytes; hide SkipTail;
    ok := c.AdvanceVaruint();
    if !ok { return; }
    ok := c.AdvanceVaruint();
    if !ok { return; }
    ok := AdvanceReceipt(c);
    if !ok { return; }
    ok := c.Advance(24);
    if !ok { return; }
    ok := Advance16s(c);
    if !ok { return; }
    ok := c.AdvanceBytes();
    if !ok { return; }
    ok := AdvanceTail(c, v1);
  }

  method AdvanceActions(c: Cur) returns (ok: bool)
    modifies c
    ensures Stopped(SkipActs(c.b, old(c.p)), ok, c.p)
  {
    hide V; hide SkipAct;
    var n := c.ReadVaruint();
    if n.None? { return false; }
    ghost var all := SkipMany(ActSkipper(c.b), c.p, n.value);
    for i := 0 to n.value
      invariant all == SkipMany(ActSkipper(c.b), c.p, n.value - i)
    {
      var variant := c.ReadVaruint();
      if variant.None? { return false; }
      ok := AdvanceAction(c, variant.value == 1);
      if !ok { return; }
    }
    return true;
  }

  method AdvanceSignature(c: Cur) returns (ok: bool)
    modifies c
    ensures Stopped(SkipSignature(c.b, old(c.p)), ok, c.p)
  {
    hide SkipBytes;
    var tag := c.ReadU8();
    if tag.None? { return false; }
    match tag.value {
      case 0 => ok := c.Advance(65);
      case 1 => ok := c.Advance(65);
      case 2 =>
        ok := c.Advance(65);
        if !ok { return; }
        ok := c.AdvanceBytes();
        if !ok { return; }
        ok := c.AdvanceBytes();
      case 3 => ok := c.Advance(65);
      case 4 => ok := c.Advance(96);
      case 5 =>
        var shared := c.ReadU8();
        if shared.None? || shared.value != 1 { return false; }
        ok := c.Advance(192);
      case _ => ok := false;
    }
  }

  method AdvanceLists(c: Cur) returns (ok: bool)
    modifies c
    ensures Stopped(SkipLists(c.b, old(c.p)), ok, c.p)
  {
    hide SkipList;
    ok := AdvanceExtensions(c);
    if !ok { return; }
    ok := AdvanceSignatures(c);
    if !ok { return; }
    ok := AdvanceContextFreeData(c);
  }

  method AdvanceExtensions(c: Cur) returns (ok: bool)
    modifies c
    ensures Stopped(SkipList(c.b, old(c.p), ExtensionSkipper(c.b)), ok, c.p)
  {
    hide V; hide SkipBytes;
    var n := c.ReadVaruint();
    if n.None? { return false; }
    ghost var all := SkipMany(ExtensionSkipper(c.b), c.p, n.value);
    for i := 0 to n.value
      invariant all == SkipMany(ExtensionSkipper(c.b), c.p, n.value - i)
    {
      ok := c.Advance(2);
      if !ok { return; }
      ok := c.AdvanceBytes();
      if !ok { return; }
    }
    return true;
  }

  method AdvanceSignatures(c: Cur) returns (ok: bool)
    modifies c
    ensures Stopped(SkipList(c.b, old(c.p), SignatureSkipper(c.b)), ok, c.p)
  {
    hide V; hide SkipSignature;
    var n := c.ReadVaruint();
    if n.None? { return false; }
    ghost var all := SkipMany(SignatureSkipper(c.b), c.p, n.value);
    for i := 0 to n.value
      invariant all == SkipMany(SignatureSkipper(c.b), c.p, n.value - i)
    {
      ok := AdvanceSignature(c);
      if !ok { return; }
    }
    return true;
  }

  method AdvanceContextFreeData(c: Cur) returns (ok: bool)
    modifies c
    ensures Stopped(SkipList(c.b, old(c.p), BytesSkipper(c.b)), ok, c.p)
  {
    hide V; hide SkipBytes;
    var n := c.ReadVaruint();
    if n.None? { return false; }
    ghost var all := SkipMany(BytesSkipper(c.b), c.p, n.value);
    for i := 0 to n.value
      invariant all == SkipMany(BytesSkipper(c.b), c.p, n.value - i)
    {
      ok := c.AdvanceBytes();
      if !ok { return; }
    }
    return true;
  }

  method AdvancePartial(c: Cur) returns (ok: bool)
    modifies c
    ensures Stopped(SkipPartial(c.b, old(c.p)), ok, c.p)
  {
    hide SkipV; hide SkipLists;
    ok := c.Advance(10);
    if !ok { return; }
    ok := c.AdvanceVaruint();
    if !ok { return; }
    ok := c.Advance(1);
    if !ok { return; }
    ok := c.AdvanceVaruint();
    if !ok { return; }
    ok := AdvanceLists(c);
  }

  method AdvanceHead(c: Cur) returns (ok: bool)
    modifies c
    ensures Stopped(SkipHead(c.b, old(c.p)), ok, c.p)
  {
    hide SkipV; hide SkipActs; hide SkipOpt; hide SkipOptBytes;
    ok := c.Advance(37);
    if !ok { return; }
    ok := c.AdvanceVaruint();
    if !ok { return; }
    ok := c.Advance(17);
    if !ok { return; }
    ok := AdvanceActions(c);
    if !ok { return; }
    ok := c.AdvanceOpt(16);
    if !ok { return; }
    ok := c.AdvanceOptBytes();
    if !ok { return; }
    ok := c.AdvanceOpt(8);
  }

  /** The optional failed trace and the optional partial transaction. */
  method AdvanceRest(c: Cur) returns (ok: bool)
    modifies c
    ensures Stopped(SkipRest(c.b, old(c.p)), ok, c.p)
    decreases |c.b| - c.p, 0
  {
    hide SkipV; hide SkipPartial; hide SkipTx;
    var failed := c.ReadPresent();
    if failed.None? { return false; }
    if failed.value {
      ok := c.AdvanceVaruint();
      if !ok { return; }
      ok := AdvanceTx(c);
      if !ok { return; }
    }
    var partial := c.ReadPresent();
    if partial.None? { return false; }
    if !partial.value { return true; }
    ok := c.AdvanceVaruint();
    if !ok { return; }
    ok := AdvancePartial(c);
  }

  method AdvanceTx(c: Cur) returns (ok: bool)
    modifies c
    ensures Stopped(SkipTx(c.b, old(c.p)), ok, c.p)
    decreases |c.b| - c.p, 1
  {
    hide SkipHead; hide SkipRest;
    ok := AdvanceHead(c);
    if !ok { return; }
    ok := AdvanceRest(c);
  }
}
