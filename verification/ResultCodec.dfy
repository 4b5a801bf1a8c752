/** `get_blocks_result_v0`: the server's message and the client's zero-copy envelope parser. */
module ResultCodec {
  import opened Bytes
  import opened Protocol
  import Varuint

  /** The longest length the client's reader accepts is below this. */
  const WIDE_LIMIT: nat := 0x400_0000_0000

  // The server side.

  function EncodeOptPos(p: Option<BlockPos>): seq<byte> {
    if p.Some? then [1] + EncodePos(p.value) else [0]
  }

  function EncodeOptLen(len: Option<nat>): seq<byte> {
    if len.Some? then [1] + Varuint.Encode(len.value) else [0]
  }

  /** An optional byte string: its presence, its length and its bytes. */
  function EncodeOptBytes(s: Option<seq<byte>>): seq<byte> {
    if s.Some? then EncodeOptLen(Some(|s.value|)) + s.value else EncodeOptLen(None)
  }

  function EncodeResultBase(head: BlockPos, lib: BlockPos, this_: Option<BlockPos>, prev: Option<BlockPos>,
                            block: Option<seq<byte>>): seq<byte> {
    EncodePos(head) + (EncodePos(lib) + (EncodeOptPos(this_) + (EncodeOptPos(prev) + EncodeOptBytes(block))))
  }

  datatype Result = Result(head: BlockPos, lib: BlockPos, this_: Option<BlockPos>, prev: Option<BlockPos>,
                           block: Option<seq<byte>>, traces: Option<seq<byte>>, deltas: Option<seq<byte>>)
  {
    /** As the server can hold it; a block longer than a u32 has no encoding at all. */
    predicate Wf() {
      && head.Wf() && lib.Wf() && (this_.Some? ==> this_.value.Wf()) && (prev.Some? ==> prev.value.Wf())
      && (block.Some? ==> |block.value| < U32)
    }

    function Message(): seq<byte> {
      [1] + (EncodeResultBase(head, lib, this_, prev, block) + (EncodeOptBytes(traces) + EncodeOptBytes(deltas)))
    }

    /** Both payload lengths fit the client's reader. */
    predicate Readable() {
      && (traces.Some? ==> |traces.value| < WIDE_LIMIT)
      && (deltas.Some? ==> |deltas.value| < WIDE_LIMIT)
    }
  }

  // The client side.

  /** Skip an optional byte string; only the presence byte and the length are looked at. */
  function SkipOptBytes(bin: seq<byte>, off: nat): Option<nat> {
    if off >= |bin| then None else
    if bin[off] != 1 then Some(off + 1) else
    var len :- Varuint.Wide(bin, off + 1);
    Some(len.1 + len.0)
  }

  function DeltasAt(bin: seq<byte>, off: nat): Option<seq<byte>> {
    if off >= |bin| then None else
    if bin[off] != 1 then Some([]) else
    var len :- Varuint.Wide(bin, off + 1);
    if len.1 + len.0 > |bin| then None else Some(bin[len.1..len.1 + len.0])
  }

  /** The number of this block and the deltas, straight out of the envelope. */
  function ParseResult(bin: seq<byte>): Option<(nat, seq<byte>)> {
    if |bin| == 0 || bin[0] != 1 || |bin| <= 73 || bin[73] != 1 || |bin| < 78 then None else
    var num := FromLe(bin[74..78]);
    var off := 110;
    if off >= |bin| then None else
    var afterPrev := if bin[off] == 1 then off + 37 else off + 1;
    var afterBlock :- SkipOptBytes(bin, afterPrev);
    var afterTraces :- SkipOptBytes(bin, afterBlock);
    var deltas :- DeltasAt(bin, afterTraces);
    Some((num, deltas))
  }

  // The two together.

  lemma SkipOfEncoded(bin: seq<byte>, off: nat, s: Option<seq<byte>>)
    requires At(bin, off, EncodeOptBytes(s))
    ensures SkipOptBytes(bin, off) ==
      if s.Some? && |s.value| >= WIDE_LIMIT then None else Some(off + |EncodeOptBytes(s)|)
  {
    hide Varuint.Encode; hide Varuint.Wide;
    AtIndex(bin, off, EncodeOptBytes(s), 0);
    if s.Some? {
      var n := Varuint.Encode(|s.value|);
      assert EncodeOptBytes(s) == [1] + (n + s.value);
      AtSplit(bin, off, [1], n + s.value);
      AtSplit(bin, off + 1, n, s.value);
      Varuint.WideOfEncode(bin, off + 1, |s.value|);
    }
  }

  lemma DeltasOfEncoded(bin: seq<byte>, off: nat, s: Option<seq<byte>>)
    requires At(bin, off, EncodeOptBytes(s))
    ensures DeltasAt(bin, off) ==
      if s.None? then Some([]) else if |s.value| < WIDE_LIMIT then Some(s.value) else None
  {
    hide Varuint.Encode; hide Varuint.Wide;
    AtIndex(bin, off, EncodeOptBytes(s), 0);
    if s.Some? {
      var n := Varuint.Encode(|s.value|);
      assert EncodeOptBytes(s) == [1] + (n + s.value);
      AtSplit(bin, off, [1], n + s.value);
      AtSplit(bin, off + 1, n, s.value);
      Varuint.WideOfEncode(bin, off + 1, |s.value|);
    }
  }

  lemma EnvelopeStands(bin: seq<byte>, r: Result)
    requires r.Wf() && r.this_.Some? && At(bin, 0, r.Message())
    ensures
      var prev, block, traces, deltas :=
        EncodeOptPos(r.prev), EncodeOptBytes(r.block), EncodeOptBytes(r.traces), EncodeOptBytes(r.deltas);
      var p := 110 + |prev|;
      At(bin, 0, [1]) && At(bin, 73, [1]) && At(bin, 74, Le(4, r.this_.value.num)) && At(bin, 110, prev)
      && At(bin, p, block) && At(bin, p + |block|, traces) && At(bin, p + |block| + |traces|, deltas)
  {
    hide Le; hide EncodeOptBytes; hide At; hide EncodeOptPos;
    var t := r.this_.value;
    var this_, prev, block, traces, deltas :=
      EncodeOptPos(r.this_), EncodeOptPos(r.prev), EncodeOptBytes(r.block), EncodeOptBytes(r.traces),
      EncodeOptBytes(r.deltas);
    var base := EncodeResultBase(r.head, r.lib, r.this_, r.prev, r.block);
    AtSplit(bin, 0, [1], base + (traces + deltas));
    AtSplit(bin, 1, base, traces + deltas);
    AtSplit(bin, 1 + |base|, traces, deltas);
    AtSplit(bin, 1, EncodePos(r.head), EncodePos(r.lib) + (this_ + (prev + block)));
    AtSplit(bin, 37, EncodePos(r.lib), this_ + (prev + block));
    AtSplit(bin, 73, this_, prev + block);
    ThisStands(bin, t);
    AtSplit(bin, 110, prev, block);
  }

  lemma ThisStands(bin: seq<byte>, t: BlockPos)
    requires t.Wf() && At(bin, 73, EncodeOptPos(Some(t)))
    ensures |EncodeOptPos(Some(t))| == 37 && At(bin, 73, [1]) && At(bin, 74, Le(4, t.num))
  {
    hide Le; hide At;
    AtSplit(bin, 73, [1], EncodePos(t));
    AtSplit(bin, 74, Le(4, t.num), t.id);
  }

  /**
   On the server's message, whatever follows it, the client gets exactly this block's number and
   the deltas, unless a payload is 2^42 bytes or longer: then it gets nothing.
   */
  lemma ParseInvertsResult(r: Result, trailing: seq<byte>)
    requires r.Wf() && r.this_.Some?
    ensures ParseResult(r.Message() + trailing) ==
      if r.Readable() then Some((r.this_.value.num, if r.deltas.Some? then r.deltas.value else [])) else None
  {
    hide Le; hide FromLe; hide EncodeOptBytes; hide SkipOptBytes; hide DeltasAt; hide Result.Message;
    var bin := r.Message() + trailing;
    assert bin[0..|r.Message()|] == r.Message();
    EnvelopeStands(bin, r);
    var prev, block, traces :=
      EncodeOptPos(r.prev), EncodeOptBytes(r.block), EncodeOptBytes(r.traces);
    AtIndex(bin, 0, [1], 0);
    AtIndex(bin, 73, [1], 0);
    AtIndex(bin, 110, prev, 0);
    Pow256Facts();
    LeRoundTrip(4, r.this_.value.num);
    SkipOfEncoded(bin, 110 + |prev|, r.block);
    SkipOfEncoded(bin, 110 + |prev| + |block|, r.traces);
    if r.traces.None? || |r.traces.value| < WIDE_LIMIT {
      DeltasOfEncoded(bin, 110 + |prev| + |block| + |traces|, r.deltas);
    }
  }

  /** A message without a block gives nothing. */
  lemma IdleMessageGivesNothing(r: Result, trailing: seq<byte>)
    requires r.Wf() && r.this_.None?
    ensures ParseResult(r.Message() + trailing) == None
  {
    hide Le; hide EncodeOptBytes; hide SkipOptBytes; hide DeltasAt;
    assert (r.Message() + trailing)[73] == 0;
  }

  /** The parser itself, moving one offset through the envelope. */
  method Parse(bin: seq<byte>) returns (r: Option<(nat, seq<byte>)>)
    ensures r == ParseResult(bin)
  {
    hide FromLe; hide SkipOptBytes; hide DeltasAt;
    if |bin| == 0 || bin[0] != 1 { return None; }
    var off: nat := 73;
    if off >= |bin| { return None; }
    var present := bin[off];
    off := off + 1;
    if present != 1 || off + 4 > |bin| { return None; }
    var num := FromLe(bin[off..off + 4]);
    off := off + 36;
    if off >= |bin| { return None; }
    present := bin[off];
    off := off + 1;
    if present == 1 { off := off + 36; }
    ghost var after := off;
    for i := 0 to 2
      invariant i == 0 ==> off == after
      invariant i == 1 ==> SkipOptBytes(bin, after) == Some(off)
      invariant i == 2 ==>
        SkipOptBytes(bin, after).Some? && SkipOptBytes(bin, SkipOptBytes(bin, after).value) == Some(off)
    {
      var next := SkipField(bin, off);
      if next.None? { return None; }
      off := next.value;
    }
    var deltas := ReadDeltas(bin, off);
    if deltas.None? { return None; }
    return Some((num, deltas.value));
  }

  method SkipField(bin: seq<byte>, from: nat) returns (r: Option<nat>)
    ensures r == SkipOptBytes(bin, from)
  {
    hide Varuint.Groups;
    if from >= |bin| { return None; }
    if bin[from] != 1 { return Some(from + 1); }
    var len := Varuint.ReadGroups(bin, from + 1, 6, true);
    if len.None? { return None; }
    return Some(len.value.1 + len.value.0);
  }

  method ReadDeltas(bin: seq<byte>, from: nat) returns (r: Option<seq<byte>>)
    ensures r == DeltasAt(bin, from)
  {
    hide Varuint.Groups;
    if from >= |bin| { return None; }
    if bin[from] != 1 { return Some([]); }
    var len := Varuint.ReadGroups(bin, from + 1, 6, true);
    if len.None? { return None; }
    var off := len.value.1;
    if off + len.value.0 > |bin| { return None; }
    return Some(bin[off..off + len.value.0]);
  }
}
