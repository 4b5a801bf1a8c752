/** SHiP requests: what a client sends, and how the server decodes it. */
module Protocol {
  import opened Bytes
  import opened Parsing
  import opened FcReaders
  import Varuint

  const MAX_HAVE_POSITIONS: nat := 0x10_0000

  datatype BlockPos = BlockPos(num: nat, id: seq<byte>) {
    predicate Wf() { num < U32 && |id| == 32 }
    function Encode(): seq<byte> {
      Le(4, num) + id
    }
  }

  datatype BlocksReq = BlocksReq(
    v1: bool, start: nat, end: nat, maxInFlight: nat, havePositions: seq<BlockPos>, irreversibleOnly: bool,
    fetchBlock: bool, fetchTraces: bool, fetchDeltas: bool, fetchFinalityData: bool)

  datatype Request = Status(v1: bool) | Blocks(req: BlocksReq) | Ack(n: nat)

  /** A request as a program holds it: u32 fields, 32-byte ids, fewer than 2^32 positions. */
  predicate Wf(r: Request) {
    match r
    case Status(_) => true
    case Ack(n) => n < U32
    case Blocks(q) =>
      && q.start < U32 && q.end < U32 && q.maxInFlight < U32 && |q.havePositions| < U32
      && forall i :: 0 <= i < |q.havePositions| ==> q.havePositions[i].Wf()
  }

  // Encoding.

  function EncodeBool(v: bool): seq<byte> {
    [if v then 1 else 0]
  }

  function EncodePos(p: BlockPos): seq<byte> {
    p.Encode()
  }

  function EncodeFlags(q: BlocksReq): seq<byte> {
    EncodeBool(q.irreversibleOnly) + (EncodeBool(q.fetchBlock) + (EncodeBool(q.fetchTraces)
    + (EncodeBool(q.fetchDeltas) + if q.v1 then EncodeBool(q.fetchFinalityData) else [])))
  }

  function EncodeBlocks(q: BlocksReq): seq<byte> {
    Le(4, q.start) + (Le(4, q.end) + (Le(4, q.maxInFlight)
    + (Varuint.Encode(|q.havePositions|) + (Flat(q.havePositions, EncodePos) + EncodeFlags(q)))))
  }

  function EncodeRequest(r: Request): seq<byte> {
    match r
    case Status(v1) => [if v1 then 4 else 0]
    case Ack(n) => [2] + Le(4, n)
    case Blocks(q) => [if q.v1 then 3 else 1] + EncodeBlocks(q)
  }

  // The unpacking.

  function PosAt(b: seq<byte>, p: nat): (r: Option<(BlockPos, nat)>) {
    var num :- Int(b, p, 4);
    var id :- Raw(b, num.1, 32);
    Some((BlockPos(num.0, id.0), id.1))
  }

  function PosReader(b: seq<byte>): nat -> Option<(BlockPos, nat)> {
    (q: nat) => PosAt(b, q)
  }

  /** The five flags; a v0 request has no finality flag on the wire. */
  function FlagsAt(b: seq<byte>, p: nat, v1: bool): Option<((bool, bool, bool, bool, bool), nat)> {
    var i :- Bool(b, p);
    var k :- Bool(b, i.1);
    var t :- Bool(b, k.1);
    var d :- Bool(b, t.1);
    if !v1 then Some(((i.0, k.0, t.0, d.0, false), d.1)) else
    var f :- Bool(b, d.1);
    Some(((i.0, k.0, t.0, d.0, f.0), f.1))
  }

  function BlocksAt(b: seq<byte>, p: nat, v1: bool): Option<(BlocksReq, nat)> {
    var start :- Int(b, p, 4);
    var end :- Int(b, start.1, 4);
    var inFlight :- Int(b, end.1, 4);
    var count :- Varuint.Fc(b, inFlight.1);
    if count.0 > MAX_HAVE_POSITIONS then None else
    var have :- Many(PosReader(b), count.1, count.0);
    var f :- FlagsAt(b, have.1, v1);
    Some((BlocksReq(v1, start.0, end.0, inFlight.0, have.0, f.0.0, f.0.1, f.0.2, f.0.3, f.0.4), f.1))
  }

  /** The request at the start of a message, and where it ends. What follows is ignored. */
  function RequestAt(b: seq<byte>): Option<(Request, nat)> {
    var idx :- Varuint.Fc(b, 0);
    match idx.0
    case 0 => Some((Status(false), idx.1))
    case 4 => Some((Status(true), idx.1))
    case 1 => var q :- BlocksAt(b, idx.1, false); Some((Blocks(q.0), q.1))
    case 3 => var q :- BlocksAt(b, idx.1, true); Some((Blocks(q.0), q.1))
    case 2 => var n :- Int(b, idx.1, 4); Some((Ack(n.0), n.1))
    case _ => None
  }

  function DecodeRequest(b: seq<byte>): Option<Request> {
    var r :- RequestAt(b);
    Some(r.0)
  }

  // Round trip.

  /** What the wire keeps of a request: a v0 request loses its finality flag. */
  function OnTheWire(r: Request): Request {
    if r.Blocks? && !r.req.v1 then Blocks(r.req.(fetchFinalityData := false)) else r
  }

  predicate Decodable(r: Request) {
    r.Blocks? ==> |r.req.havePositions| <= MAX_HAVE_POSITIONS
  }

  lemma PosOfEncoded(b: seq<byte>, p: nat, x: BlockPos)
    requires x.Wf() && At(b, p, EncodePos(x))
    ensures PosAt(b, p) == Some((x, p + |EncodePos(x)|))
  {
    hide Le; hide FromLe;
    Pow256Facts();
    AtSplit(b, p, Le(4, x.num), x.id);
    IntOfLe(b, p, 4, x.num);
  }

  lemma PositionsOfEncoded(b: seq<byte>, p: nat, xs: seq<BlockPos>)
    requires (forall i :: 0 <= i < |xs| ==> xs[i].Wf()) && At(b, p, Flat(xs, EncodePos))
    ensures Many(PosReader(b), p, |xs|) == Some((xs, p + |Flat(xs, EncodePos)|))
  {
    var out := (x: BlockPos, q: nat) => x;
    forall i | 0 <= i < |xs|
      ensures Inverts(b, PosReader(b), xs[i], EncodePos, out)
    {
      forall q: nat | At(b, q, EncodePos(xs[i]))
        ensures PosReader(b)(q) == Some((out(xs[i], q), q + |EncodePos(xs[i])|))
      {
        PosOfEncoded(b, q, xs[i]);
      }
    }
    ManyOfFlat(b, p, PosReader(b), xs, EncodePos, out);
    ReadBackIsSame(xs, EncodePos, out, p);
  }

  lemma FlagsOfEncoded(b: seq<byte>, p: nat, q: BlocksReq)
    requires At(b, p, EncodeFlags(q))
    ensures FlagsAt(b, p, q.v1) ==
      Some(((q.irreversibleOnly, q.fetchBlock, q.fetchTraces, q.fetchDeltas, q.v1 && q.fetchFinalityData),
            p + |EncodeFlags(q)|))
  {
    var e := EncodeFlags(q);
    AtIndex(b, p, e, 0);
    AtIndex(b, p, e, 1);
    AtIndex(b, p, e, 2);
    AtIndex(b, p, e, 3);
    if q.v1 { AtIndex(b, p, e, 4); }
  }

  /** Where the parts of an encoded request stand. */
  lemma BlocksStand(b: seq<byte>, p: nat, q: BlocksReq)
    requires Wf(Blocks(q)) && At(b, p, EncodeBlocks(q))
    ensures
      var count, have := Varuint.Encode(|q.havePositions|), Flat(q.havePositions, EncodePos);
      At(b, p, Le(4, q.start)) && At(b, p + 4, Le(4, q.end)) && At(b, p + 8, Le(4, q.maxInFlight))
      && At(b, p + 12, count) && At(b, p + 12 + |count|, have)
      && At(b, p + 12 + |count| + |have|, EncodeFlags(q))
      && |EncodeBlocks(q)| == 12 + |count| + |have| + |EncodeFlags(q)|
  {
    hide Le; hide At; hide Flat; hide Varuint.Encode; hide EncodeFlags;
    var count, have, flags := Varuint.Encode(|q.havePositions|), Flat(q.havePositions, EncodePos), EncodeFlags(q);
    AtSplit(b, p, Le(4, q.start), Le(4, q.end) + (Le(4, q.maxInFlight) + (count + (have + flags))));
    AtSplit(b, p + 4, Le(4, q.end), Le(4, q.maxInFlight) + (count + (have + flags)));
    AtSplit(b, p + 8, Le(4, q.maxInFlight), count + (have + flags));
    AtSplit(b, p + 12, count, have + flags);
    AtSplit(b, p + 12 + |count|, have, flags);
  }

  lemma BlocksOfEncoded(b: seq<byte>, p: nat, q: BlocksReq)
    requires Wf(Blocks(q)) && At(b, p, EncodeBlocks(q))
    ensures BlocksAt(b, p, q.v1) ==
      if Decodable(Blocks(q)) then Some((OnTheWire(Blocks(q)).req, p + |EncodeBlocks(q)|)) else None
  {
    hide Le; hide FromLe; hide Many; hide Flat; hide Varuint.Encode; hide Varuint.Groups; hide EncodeFlags;
    hide FlagsAt; hide At; hide EncodeBlocks;
    Pow256Facts();
    var have, count := Flat(q.havePositions, EncodePos), Varuint.Encode(|q.havePositions|);
    BlocksStand(b, p, q);
    IntOfLe(b, p, 4, q.start);
    IntOfLe(b, p + 4, 4, q.end);
    IntOfLe(b, p + 8, 4, q.maxInFlight);
    Varuint.FcOfEncode(b, p + 12, |q.havePositions|);
    PositionsOfEncoded(b, p + 12 + |count|, q.havePositions);
    FlagsOfEncoded(b, p + 12 + |count| + |have|, q);
  }

  lemma TagOfEncoded(b: seq<byte>, tag: byte)
    requires tag < 128 && At(b, 0, [tag])
    ensures Varuint.Fc(b, 0) == Some((tag, 1))
  {
    assert b[0..1][0] == b[0];
  }

  lemma RequestAtOfEncoded(r: Request, b: seq<byte>)
    requires Wf(r) && At(b, 0, EncodeRequest(r))
    ensures RequestAt(b) == if Decodable(r) then Some((OnTheWire(r), |EncodeRequest(r)|)) else None
  {
    hide Le; hide FromLe; hide EncodeBlocks; hide BlocksAt; hide Varuint.Fc;
    match r
    case Status(v1) =>
      TagOfEncoded(b, if v1 then 4 else 0);
    case Ack(n) =>
      Pow256Facts();
      AtSplit(b, 0, [2], Le(4, n));
      TagOfEncoded(b, 2);
      IntOfLe(b, 1, 4, n);
    case Blocks(q) =>
      AtSplit(b, 0, [if q.v1 then 3 else 1], EncodeBlocks(q));
      TagOfEncoded(b, if q.v1 then 3 else 1);
      BlocksOfEncoded(b, 1, q);
  }

  /**
   Decoding inverts encoding, whatever follows the request: exactly the requests within fc's limit
   of positions come back, and all they can lose is the finality flag of a v0 request.
   */
  lemma RequestRoundTrip(r: Request, trailing: seq<byte>)
    requires Wf(r)
    ensures DecodeRequest(EncodeRequest(r) + trailing) == if Decodable(r) then Some(OnTheWire(r)) else None
  {
    var b := EncodeRequest(r) + trailing;
    assert b[0..|EncodeRequest(r)|] == EncodeRequest(r);
    RequestAtOfEncoded(r, b);
  }

  // Prefixes.

  lemma PosExtends(b: seq<byte>, c: seq<byte>, p: nat)
    requires b <= c && PosAt(b, p).Some?
    ensures PosAt(c, p) == PosAt(b, p)
  {
    assert c[p..p + 4] == b[p..p + 4] && c[p + 4..p + 36] == b[p + 4..p + 36];
  }

  lemma BlocksExtend(b: seq<byte>, c: seq<byte>, p: nat, v1: bool)
    requires b <= c && BlocksAt(b, p, v1).Some?
    ensures BlocksAt(c, p, v1) == BlocksAt(b, p, v1)
  {
    hide FromLe; hide Varuint.Groups; hide PosAt; hide Many;
    assert c[p..p + 4] == b[p..p + 4] && c[p + 4..p + 8] == b[p + 4..p + 8] && c[p + 8..p + 12] == b[p + 8..p + 12];
    Varuint.GroupsExtend(b, c, p + 12, 5, false);
    var count := Varuint.Fc(b, p + 12).value;
    forall q: nat | PosReader(b)(q).Some?
      ensures PosReader(c)(q) == PosReader(b)(q)
    {
      PosExtends(b, c, q);
    }
    ManyExtend(PosReader(b), PosReader(c), count.1, count.0);
  }

  /** A request read from a prefix of a message is the one read from all of it. */
  lemma RequestExtends(b: seq<byte>, c: seq<byte>)
    requires b <= c && RequestAt(b).Some?
    ensures RequestAt(c) == RequestAt(b)
  {
    hide FromLe; hide Varuint.Groups; hide BlocksAt;
    Varuint.GroupsExtend(b, c, 0, 5, false);
    var idx := Varuint.Fc(b, 0).value;
    if idx.0 == 1 || idx.0 == 3 {
      BlocksExtend(b, c, idx.1, idx.0 == 3);
    } else if idx.0 == 2 {
      assert c[idx.1..idx.1 + 4] == b[idx.1..idx.1 + 4];
    }
  }

  lemma RequestEnd(b: seq<byte>)
    requires RequestAt(b).Some?
    ensures RequestAt(b).value.1 <= |b|
  {
    hide FromLe; hide Varuint.Groups; hide Many;
  }

  /** Every proper prefix of a request is refused. */
  lemma PrefixIsRefused(r: Request, k: nat)
    requires Wf(r) && k < |EncodeRequest(r)|
    ensures DecodeRequest(EncodeRequest(r)[..k]) == None
  {
    hide RequestAt; hide EncodeRequest;
    var b := EncodeRequest(r);
    assert b[0..|b|] == b;
    RequestAtOfEncoded(r, b);
    if RequestAt(b[..k]).Some? {
      RequestExtends(b[..k], b);
      RequestEnd(b[..k]);
    }
  }

  // The client's own encoders.

  /** The scanner's request for blocks `start..=end`, deltas only. */
  function BuildGetBlocks(start: nat, end: nat, inFlight: nat, irreversible: bool): seq<byte> {
    [1] + Le(4, start) + Le(4, Min(end + 1, U32 - 1)) + Le(4, inFlight) + [0]
    + [if irreversible then 1 else 0] + [0, 0, 1]
  }

  function BuildAck(n: nat): seq<byte> {
    [2] + Le(4, n)
  }

  /** The request the scanner means: blocks `start..=end`, whose exclusive end is `end + 1`. */
  function Meant(start: nat, end: nat, inFlight: nat, irreversible: bool): Request {
    Blocks(BlocksReq(false, start, end + 1, inFlight, [], irreversible, false, false, true, false))
  }

  /** The server decodes what the client meant, except when the last block is the last block number:
      its exclusive end does not fit and the request stops one block short. */
  lemma ClientRequestIsUnderstood(start: nat, end: nat, inFlight: nat, irreversible: bool)
    requires start < U32 && end < U32 && inFlight < U32
    ensures end < U32 - 1 <==>
      DecodeRequest(BuildGetBlocks(start, end, inFlight, irreversible)) ==
        Some(Meant(start, end, inFlight, irreversible))
    ensures end == U32 - 1 ==>
      DecodeRequest(BuildGetBlocks(start, end, inFlight, irreversible)) ==
        Some(Meant(start, end - 1, inFlight, irreversible))
  {
    hide Le; hide RequestAt; hide Varuint.Encode;
    var to: nat := Min(end + 1, U32 - 1);
    var r := Meant(start, to - 1, inFlight, irreversible);
    assert Varuint.Encode(0) == [0] by { EncodeZero(); }
    assert EncodeRequest(r) == BuildGetBlocks(start, end, inFlight, irreversible);
    RequestRoundTrip(r, []);
    assert EncodeRequest(r) + [] == EncodeRequest(r);
  }

  lemma EncodeZero()
    ensures Varuint.Encode(0) == [0]
  {
  }

  lemma ClientAckIsUnderstood(n: nat)
    requires n < U32
    ensures DecodeRequest(BuildAck(n)) == Some(Ack(n))
  {
    hide Le; hide RequestAt;
    RequestRoundTrip(Ack(n), []);
    assert BuildAck(n) == EncodeRequest(Ack(n)) + [];
  }

  // The programs.

  lemma Append(out: seq<byte>, x: seq<byte>, rest: seq<byte>)
    ensures out + (x + rest) == out + x + rest
  {
  }

  method PutPositions(out0: seq<byte>, xs: seq<BlockPos>) returns (out: seq<byte>)
    ensures out == out0 + Flat(xs, EncodePos)
  {
    hide Le;
    out := out0;
    for i := 0 to |xs|
      invariant out == out0 + Flat(xs[..i], EncodePos)
    {
      assert xs[..i + 1] == xs[..i] + [xs[i]];
      FlatSnoc(xs[..i], xs[i], EncodePos);
      Append(out0, Flat(xs[..i], EncodePos), EncodePos(xs[i]));
      out := out + Le(4, xs[i].num);
      out := out + xs[i].id;
    }
    assert xs[..|xs|] == xs;
  }

  method PutFlags(out0: seq<byte>, q: BlocksReq) returns (out: seq<byte>)
    ensures out == out0 + EncodeFlags(q)
  {
    out := out0 + EncodeBool(q.irreversibleOnly) + EncodeBool(q.fetchBlock) + EncodeBool(q.fetchTraces)
           + EncodeBool(q.fetchDeltas);
    if q.v1 { out := out + EncodeBool(q.fetchFinalityData); }
  }

  /** The encoder: fields are appended to an output vector. */
  method Encode(r: Request) returns (out: seq<byte>)
    ensures out == EncodeRequest(r)
  {
    hide Le; hide Varuint.Encode; hide EncodeFlags; hide Flat;
    match r {
      case Status(v1) => out := [if v1 then 4 else 0];
      case Ack(n) => out := [2] + Le(4, n);
      case Blocks(q) =>
        ghost var tail := Varuint.Encode(|q.havePositions|) + (Flat(q.havePositions, EncodePos) + EncodeFlags(q));
        out := [if q.v1 then 3 else 1];
        Append(out, Le(4, q.start), Le(4, q.end) + (Le(4, q.maxInFlight) + tail));
        out := out + Le(4, q.start);
        Append(out, Le(4, q.end), Le(4, q.maxInFlight) + tail);
        out := out + Le(4, q.end);
        Append(out, Le(4, q.maxInFlight), tail);
        out := out + Le(4, q.maxInFlight);
        Append(out, Varuint.Encode(|q.havePositions|), Flat(q.havePositions, EncodePos) + EncodeFlags(q));
        out := Varuint.Put(out, |q.havePositions|);
        Append(out, Flat(q.havePositions, EncodePos), EncodeFlags(q));
        out := PutPositions(out, q.havePositions);
        out := PutFlags(out, q);
    }
  }

  method DecodePositions(r: FcReader, count: nat) returns (have: Option<seq<BlockPos>>)
    modifies r
    ensures Did(Many(PosReader(r.b), old(r.pos), count), have, r.pos)
  {
    hide Many;
    var acc := [];
    ghost var all := Many(PosReader(r.b), r.pos, count);
    OntoEnds(PosReader(r.b), acc, r.pos, count);
    for i := 0 to count
      invariant all == Onto(acc, Many(PosReader(r.b), r.pos, count - i))
    {
      OntoStep(PosReader(r.b), acc, r.pos, count - i);
      var num := r.ReadInt(4);
      if num.None? { return None; }
      var id := r.Bytes(32);
      if id.None? { return None; }
      acc := acc + [BlockPos(num.value, id.value)];
    }
    OntoEnds(PosReader(r.b), acc, r.pos, count);
    return Some(acc);
  }

  method DecodeFlags(r: FcReader, v1: bool) returns (f: Option<(bool, bool, bool, bool, bool)>)
    modifies r
    ensures Did(FlagsAt(r.b, old(r.pos), v1), f, r.pos)
  {
    var irreversibleOnly := r.ReadBool();
    if irreversibleOnly.None? { return None; }
    var fetchBlock := r.ReadBool();
    if fetchBlock.None? { return None; }
    var fetchTraces := r.ReadBool();
    if fetchTraces.None? { return None; }
    var fetchDeltas := r.ReadBool();
    if fetchDeltas.None? { return None; }
    var finality := Some(false);
    if v1 { finality := r.ReadBool(); }
    if finality.None? { return None; }
    return Some((irreversibleOnly.value, fetchBlock.value, fetchTraces.value, fetchDeltas.value, finality.value));
  }

  method DecodeBlocks(r: FcReader, v1: bool) returns (q: Option<BlocksReq>)
    modifies r
    ensures Did(BlocksAt(r.b, old(r.pos), v1), q, r.pos)
  {
    hide FlagsAt; hide FromLe; hide Varuint.Fc; hide Many;
    var start := r.ReadInt(4);
    if start.None? { return None; }
    var end := r.ReadInt(4);
    if end.None? { return None; }
    var inFlight := r.ReadInt(4);
    if inFlight.None? { return None; }
    var count := r.ReadVaruint32();
    if count.None? || count.value > MAX_HAVE_POSITIONS { return None; }
    var have := DecodePositions(r, count.value);
    if have.None? { return None; }
    var f := DecodeFlags(r, v1);
    if f.None? { return None; }
    return Some(BlocksReq(v1, start.value, end.value, inFlight.value, have.value,
                          f.value.0, f.value.1, f.value.2, f.value.3, f.value.4));
  }

  method Decode(b: seq<byte>) returns (r: Option<Request>)
    ensures r == DecodeRequest(b)
  {
    hide BlocksAt; hide FromLe; hide Varuint.Fc;
    var reader := new FcReader(b);
    var idx := reader.ReadVaruint32();
    if idx.None? { return None; }
    match idx.value {
      case 0 => return Some(Status(false));
      case 4 => return Some(Status(true));
      case 1 =>
        var q := DecodeBlocks(reader, false);
        return if q.Some? then Some(Blocks(q.value)) else None;
      case 3 =>
        var q := DecodeBlocks(reader, true);
        return if q.Some? then Some(Blocks(q.value)) else None;
      case 2 =>
        var n := reader.ReadInt(4);
        return if n.Some? then Some(Ack(n.value)) else None;
      case _ => return None;
    }
  }
}
