/** The documented block-log layout, and the reader as its inverse. */
module BlockLogWriter {
  import opened Bytes
  import opened Parsing
  import opened BlockHeaders
  import opened BlockLog
  import ShipLog
  import Varuint

  /** A packed genesis state: timestamp, initial key, chain configuration. */
  datatype Genesis = Genesis(timestamp: seq<byte>, key: Key, config: seq<byte>)

  /** The preambles of the three versions. */
  datatype Lead = V1(genesis: Genesis) | V2(first: nat, genesis: Genesis) | V3Start(genesis: Genesis)
                | V3Later(first: nat, chainId: Digest)

  predicate GenesisWf(g: Genesis) {
    |g.timestamp| == 8 && KeyWf(g.key) && |g.config| == CHAIN_CONFIG_BYTES
  }

  predicate LeadWf(l: Lead) {
    match l
    case V1(g) => GenesisWf(g)
    case V2(first, g) => 0 < first < U32 && GenesisWf(g)
    case V3Start(g) => GenesisWf(g)
    case V3Later(first, _) => 1 < first < U32
  }

  function First(l: Lead): nat {
    match l
    case V2(first, _) => first
    case V3Later(first, _) => first
    case _ => 1
  }

  function Version(l: Lead): nat {
    match l
    case V1(_) => 1
    case V2(_, _) => 2
    case _ => 3
  }

  function GenesisBytes(g: Genesis): seq<byte> {
    g.timestamp + (KeyBytes(g.key) + g.config)
  }

  function ChainId(sha256: seq<byte> -> Digest, l: Lead): Digest {
    if l.V3Later? then l.chainId else sha256(GenesisBytes(l.genesis))
  }

  function ChainBytes(l: Lead): seq<byte> {
    if l.V3Later? then l.chainId else GenesisBytes(l.genesis)
  }

  function LeadBytes(l: Lead): seq<byte> {
    if l.V1? then Le(4, 1) + ChainBytes(l)
    else Le(4, Version(l)) + (Le(4, First(l)) + (ChainBytes(l) + Le(8, TOTEM)))
  }

  /** Blocks written from offset `pos` on, each followed by its own position. */
  function BlocksBytes(bodies: seq<seq<byte>>, pos: nat): seq<byte> {
    if bodies == [] then [] else
    (bodies[0] + Le(8, pos)) + BlocksBytes(bodies[1..], pos + |bodies[0]| + 8)
  }

  function IndexBytes(bodies: seq<seq<byte>>, pos: nat): (r: seq<byte>)
    ensures |r| == 8 * |bodies|
  {
    if bodies == [] then [] else Le(8, pos) + IndexBytes(bodies[1..], pos + |bodies[0]| + 8)
  }

  /** Where block `i` is written. */
  function PosOf(bodies: seq<seq<byte>>, pos: nat, i: nat): (r: nat)
    requires i <= |bodies|
    ensures r >= pos
  {
    if i == 0 then pos else PosOf(bodies[1..], pos + |bodies[0]| + 8, i - 1)
  }

  function LogBytes(l: Lead, bodies: seq<seq<byte>>): seq<byte> {
    LeadBytes(l) + BlocksBytes(bodies, |LeadBytes(l)|)
  }

  /** Blocks a node writes: each long enough for a header and linked to the one before it. */
  predicate Chained(l: Lead, bodies: seq<seq<byte>>) {
    forall i :: 0 <= i < |bodies| ==>
      |bodies[i]| >= MIN_HEADER_BYTES && ShipLog.NumFromId(bodies[i][PREVIOUS_AT..PREVIOUS_AT + 32]) == First(l) + i - 1
  }

  // Where things stand.

  lemma {:induction false} PosStep(bodies: seq<seq<byte>>, pos: nat, i: nat)
    requires i < |bodies|
    ensures PosOf(bodies, pos, i + 1) == PosOf(bodies, pos, i) + |bodies[i]| + 8
    decreases i
  {
    if i > 0 { PosStep(bodies[1..], pos + |bodies[0]| + 8, i - 1); }
  }

  lemma {:induction false} PosEnd(bodies: seq<seq<byte>>, pos: nat)
    ensures PosOf(bodies, pos, |bodies|) == pos + |BlocksBytes(bodies, pos)|
    decreases |bodies|
  {
    if bodies != [] { PosEnd(bodies[1..], pos + |bodies[0]| + 8); }
  }

  lemma {:induction false} BlockStands(log: seq<byte>, bodies: seq<seq<byte>>, pos: nat, i: nat)
    requires i < |bodies| && At(log, pos, BlocksBytes(bodies, pos))
    ensures At(log, PosOf(bodies, pos, i), bodies[i])
    ensures At(log, PosOf(bodies, pos, i) + |bodies[i]|, Le(8, PosOf(bodies, pos, i)))
    decreases i
  {
    hide At; hide Le;
    AtSplit(log, pos, bodies[0] + Le(8, pos), BlocksBytes(bodies[1..], pos + |bodies[0]| + 8));
    if i == 0 {
      AtSplit(log, pos, bodies[0], Le(8, pos));
    } else {
      BlockStands(log, bodies[1..], pos + |bodies[0]| + 8, i - 1);
    }
  }

  lemma {:induction false} SlotStands(idx: seq<byte>, at: nat, bodies: seq<seq<byte>>, pos: nat, i: nat)
    requires i < |bodies| && At(idx, at, IndexBytes(bodies, pos))
    ensures At(idx, at + 8 * i, Le(8, PosOf(bodies, pos, i)))
    decreases i
  {
    hide At; hide Le;
    AtSplit(idx, at, Le(8, pos), IndexBytes(bodies[1..], pos + |bodies[0]| + 8));
    if i > 0 { SlotStands(idx, at + 8, bodies[1..], pos + |bodies[0]| + 8, i - 1); }
  }

  lemma FromLeAt(b: seq<byte>, p: nat, v: nat)
    requires v < U64 && At(b, p, Le(8, v))
    ensures p + 8 <= |b| && FromLe(b[p..p + 8]) == v && IntAt(b, 8, p) == Some(v)
  {
    hide FromLe; hide Le;
    Pow256Facts();
    LeRoundTrip(8, v);
  }

  // The genesis probe always reaches the key's variable part.

  lemma FcShrinks(b: seq<byte>, c: seq<byte>, p: nat)
    requires b <= c && Varuint.Fc(c, p).Some? && Varuint.Fc(c, p).value.1 <= |b|
    ensures Varuint.Fc(b, p) == Varuint.Fc(c, p)
  {
    hide Varuint.Groups;
    Varuint.GroupsShrink(b, c, p, 5, false);
  }

  lemma FcIsShort(b: seq<byte>, p: nat)
    requires Varuint.Fc(b, p).Some?
    ensures Varuint.Fc(b, p).value.1 <= p + 5
  {
    hide Varuint.Groups;
  }

  lemma KeyShrinks(b: seq<byte>, c: seq<byte>, p: nat)
    requires b <= c && KeyRest(c, p).Some? && KeyRest(c, p).value.1 <= |b|
    ensures KeyRest(b, p) == KeyRest(c, p)
  {
    hide Varuint.Fc;
    FcShrinks(b, c, p);
    var kind := Varuint.Fc(c, p).value;
    if kind.0 == 2 { FcShrinks(b, c, kind.1 + 34); }
  }

  lemma KeyIsShort(b: seq<byte>, p: nat)
    requires KeyRest(b, p).Some?
    ensures KeyRest(b, p).value.1 <= p + 44
  {
    hide Varuint.Fc;
    FcIsShort(b, p);
    var kind := Varuint.Fc(b, p).value;
    if kind.0 == 2 { FcIsShort(b, kind.1 + 34); }
  }

  /** Sizing a genesis state from its probe is sizing it from everything after it, on all bytes. */
  lemma GenesisProbeSuffices(rest: seq<byte>)
    ensures GenesisLen(rest[..Min(|rest|, GENESIS_PROBE)]) == GenesisLen(rest)
  {
    hide KeyRest;
    var probe := rest[..Min(|rest|, GENESIS_PROBE)];
    if KeyRest(probe, 8).Some? { KeyExtends(probe, rest, 8); }
    if KeyRest(rest, 8).Some? {
      KeyIsShort(rest, 8);
      if |rest| > GENESIS_PROBE { KeyShrinks(probe, rest, 8); } else { assert probe == rest; }
    }
  }

  lemma GenesisLenOfBytes(rest: seq<byte>, g: Genesis)
    requires GenesisWf(g) && At(rest, 0, GenesisBytes(g))
    ensures GenesisLen(rest) == Some(|GenesisBytes(g)|)
  {
    hide KeyRest; hide KeyBytes; hide At;
    TakeRaw(rest, 0, g.timestamp, KeyBytes(g.key) + g.config);
    AtSplit(rest, 8, KeyBytes(g.key), g.config);
    KeyOfBytes(rest, 8, g.key);
  }

  lemma GenesisIsReadBack(log: seq<byte>, at: nat, g: Genesis)
    requires GenesisWf(g) && At(log, at, GenesisBytes(g))
    ensures ReadGenesis(log, at) == Some(GenesisBytes(g))
  {
    hide GenesisBytes; hide GenesisLen; hide GenesisWf;
    var rest := log[at..];
    assert rest[0..|GenesisBytes(g)|] == log[at..at + |GenesisBytes(g)|];
    GenesisLenOfBytes(rest, g);
    GenesisProbeSuffices(rest);
    assert log[at..at + Min(|rest|, GENESIS_PROBE)] == rest[..Min(|rest|, GENESIS_PROBE)];
  }

  lemma ChainIsReadBack(sha256: seq<byte> -> Digest, log: seq<byte>, l: Lead, at: nat)
    requires LeadWf(l) && At(log, at, ChainBytes(l))
    ensures ReadChainId(sha256, log, Version(l), First(l), at) == Some((ChainId(sha256, l), at + |ChainBytes(l)|))
  {
    hide GenesisBytes; hide ReadGenesis; hide GenesisWf;
    if !l.V3Later? { GenesisIsReadBack(log, at, l.genesis); }
  }

  lemma IntStands(b: seq<byte>, n: nat, p: nat, v: nat, rest: seq<byte>)
    requires v < Pow256(n) && At(b, p, Le(n, v) + rest)
    ensures IntAt(b, n, p) == Some(v) && At(b, p + n, rest)
  {
    hide Le; hide FromLe;
    AtSplit(b, p, Le(n, v), rest);
    IntAtLe(b, n, p, v);
  }

  lemma PreambleIsReadBack(sha256: seq<byte> -> Digest, log: seq<byte>, l: Lead)
    requires LeadWf(l) && At(log, 0, LeadBytes(l))
    ensures Preamble(sha256, log) == Some((Version(l), First(l), ChainId(sha256, l), |LeadBytes(l)|))
  {
    hide Le; hide FromLe; hide At; hide ChainBytes; hide ReadChainId; hide ChainId; hide IntAt; hide Pow256;
    hide GenesisWf;
    Pow256Facts();
    if l.V1? {
      IntStands(log, 4, 0, 1, ChainBytes(l));
      ChainIsReadBack(sha256, log, l, 4);
    } else {
      IntStands(log, 4, 0, Version(l), Le(4, First(l)) + (ChainBytes(l) + Le(8, TOTEM)));
      IntStands(log, 4, 4, First(l), ChainBytes(l) + Le(8, TOTEM));
      AtSplit(log, 8, ChainBytes(l), Le(8, TOTEM));
      ChainIsReadBack(sha256, log, l, 8);
      assert Le(8, TOTEM) + [] == Le(8, TOTEM);
      IntStands(log, 8, 8 + |ChainBytes(l)|, TOTEM, []);
    }
  }

  // The whole log is read back.

  lemma LogStands(l: Lead, bodies: seq<seq<byte>>)
    ensures At(LogBytes(l, bodies), 0, LeadBytes(l))
    ensures At(LogBytes(l, bodies), |LeadBytes(l)|, BlocksBytes(bodies, |LeadBytes(l)|))
    ensures |LogBytes(l, bodies)| == PosOf(bodies, |LeadBytes(l)|, |bodies|)
  {
    hide LeadBytes; hide BlocksBytes;
    PosEnd(bodies, |LeadBytes(l)|);
  }

  /** The last trailer and the last link of a written log. */
  lemma LastIsReadBack(l: Lead, bodies: seq<seq<byte>>)
    requires LeadWf(l) && bodies != [] && Chained(l, bodies)
    requires |LogBytes(l, bodies)| < U64 && First(l) + |bodies| <= U32
    ensures LastBlock(LogBytes(l, bodies), First(l), |LeadBytes(l)|) ==
            Some((PosOf(bodies, |LeadBytes(l)|, |bodies| - 1), First(l) + |bodies| - 1))
  {
    hide LogBytes; hide LeadBytes; hide FromLe; hide PosOf; hide ShipLog.NumFromId; hide Le; hide At; hide LeadWf;
    var log, base, k := LogBytes(l, bodies), |LeadBytes(l)|, |bodies| - 1;
    LogStands(l, bodies);
    PosStep(bodies, base, k);
    BlockStands(log, bodies, base, k);
    var p := PosOf(bodies, base, k);
    FromLeAt(log, p + |bodies[k]|, p);
    PreviousStands(log, p, bodies[k]);
    assert log[|log| - 8..] == log[p + |bodies[k]|..p + |bodies[k]| + 8];
  }

  lemma PreviousStands(log: seq<byte>, p: nat, body: seq<byte>)
    requires |body| >= 46 && At(log, p, body)
    ensures p + |body| <= |log| && log[p + 14..p + 46] == body[14..46] && log[p..p + |body|] == body
  {
    assert body == body[..14] + (body[14..46] + body[46..]);
    AtSplit(log, p, body[..14], body[14..46] + body[46..]);
    AtSplit(log, p + 14, body[14..46], body[46..]);
  }

  /** A written log opens with exactly what was written. */
  lemma OpensWhatIsWritten(sha256: seq<byte> -> Digest, l: Lead, bodies: seq<seq<byte>>)
    requires LeadWf(l) && bodies != [] && Chained(l, bodies)
    requires |LogBytes(l, bodies)| < U64 && First(l) + |bodies| <= U32
    ensures Open(sha256, LogBytes(l, bodies), Some(IndexBytes(bodies, |LeadBytes(l)|))) ==
            Some(Some(WrittenAs(sha256, l, bodies)))
  {
    hide LogBytes; hide LeadBytes; hide FromLe; hide IndexBytes; hide LastBlock; hide Preamble; hide Le;
    hide At; hide Chained; hide LeadWf; hide PosOf; hide IntAt;
    var log, base := LogBytes(l, bodies), |LeadBytes(l)|;
    var idx := IndexBytes(bodies, base);
    LogStands(l, bodies);
    PreambleIsReadBack(sha256, log, l);
    LastIsReadBack(l, bodies);
    LogIsLonger(l, bodies);
    assert At(idx, 0, idx) by { AtWhole(idx); }
    SlotReads(idx, bodies, base, 0);
    SlotReads(idx, bodies, base, |bodies| - 1);
    assert PosOf(bodies, base, 0) == base by { PosZero(bodies, base); }
  }

  lemma PosZero(bodies: seq<seq<byte>>, pos: nat)
    ensures PosOf(bodies, pos, 0) == pos
  {
  }

  lemma LogIsLonger(l: Lead, bodies: seq<seq<byte>>)
    requires bodies != []
    ensures |LogBytes(l, bodies)| > |LeadBytes(l)|
  {
    hide LeadBytes;
  }

  lemma {:induction false} PosBelow(bodies: seq<seq<byte>>, pos: nat, i: nat)
    requires i <= |bodies|
    ensures PosOf(bodies, pos, i) <= PosOf(bodies, pos, |bodies|)
    decreases |bodies| - i
  {
    if i < |bodies| {
      PosStep(bodies, pos, i);
      PosBelow(bodies, pos, i + 1);
    }
  }

  lemma SlotReads(idx: seq<byte>, bodies: seq<seq<byte>>, pos: nat, i: nat)
    requires i < |bodies| && PosOf(bodies, pos, |bodies|) < U64 && idx == IndexBytes(bodies, pos)
    ensures 8 * i + 8 <= |idx| && FromLe(idx[8 * i..8 * i + 8]) == PosOf(bodies, pos, i)
    ensures IntAt(idx, 8, 8 * i) == Some(PosOf(bodies, pos, i))
  {
    hide FromLe; hide PosOf; hide Le; hide IndexBytes; hide At;
    AtWhole(idx);
    SlotStands(idx, 0, bodies, pos, i);
    PosBelow(bodies, pos, i);
    FromLeAt(idx, 8 * i, PosOf(bodies, pos, i));
  }

  /** What a written log opens as. */
  function WrittenAs(sha256: seq<byte> -> Digest, l: Lead, bodies: seq<seq<byte>>): Opened
    requires bodies != []
  {
    Opened(Version(l), First(l), First(l) + |bodies| - 1, ChainId(sha256, l), |LeadBytes(l)|, |LogBytes(l, bodies)|)
  }

  /** A log that holds only its preamble opens as empty, whatever its index. */
  lemma PreambleOnlyIsEmpty(sha256: seq<byte> -> Digest, l: Lead, index: Option<seq<byte>>)
    requires LeadWf(l)
    ensures Open(sha256, LeadBytes(l), index) == Some(None)
  {
    hide LeadBytes; hide Preamble; hide LastBlock; hide LeadWf;
    AtWhole(LeadBytes(l));
    PreambleIsReadBack(sha256, LeadBytes(l), l);
  }

  lemma EntryFrom(o: Opened, log: seq<byte>, idx: seq<byte>, i: nat, pos: nat, end: nat)
    requires o.first + i <= o.last && |idx| == (o.last - o.first + 1) * 8 && |log| == o.size
    requires FromLe(idx[8 * i..8 * i + 8]) == pos && o.firstPos <= pos && pos + MIN_HEADER_BYTES + 8 <= end <= o.size
    requires end == if o.first + i < o.last then FromLe(idx[8 * i + 8..8 * i + 16]) else o.size
    requires FromLe(log[end - 8..end]) == pos
    ensures Entry(o, log, idx, o.first + i) == Some((pos, end - 8 - pos))
  {
    hide FromLe;
  }

  lemma EntryIsReadBack(sha256: seq<byte> -> Digest, l: Lead, bodies: seq<seq<byte>>, i: nat)
    requires LeadWf(l) && i < |bodies| && Chained(l, bodies)
    requires |LogBytes(l, bodies)| < U64 && First(l) + |bodies| <= U32
    ensures
      Entry(WrittenAs(sha256, l, bodies), LogBytes(l, bodies), IndexBytes(bodies, |LeadBytes(l)|), First(l) + i) ==
            Some((PosOf(bodies, |LeadBytes(l)|, i), |bodies[i]|))
  {
    hide LogBytes; hide LeadBytes; hide FromLe; hide IndexBytes; hide Le; hide At; hide LeadWf; hide PosOf;
    hide ShipLog.NumFromId; hide ChainId; hide Entry; hide Version;
    assert |bodies[i]| >= MIN_HEADER_BYTES;
    hide Chained;
    var log, base := LogBytes(l, bodies), |LeadBytes(l)|;
    var idx := IndexBytes(bodies, base);
    LogStands(l, bodies);
    PosStep(bodies, base, i);
    PosBelow(bodies, base, i + 1);
    SlotReads(idx, bodies, base, i);
    if i + 1 < |bodies| { SlotReads(idx, bodies, base, i + 1); }
    BlockStands(log, bodies, base, i);
    var p := PosOf(bodies, base, i);
    FromLeAt(log, p + |bodies[i]|, p);
    EntryFrom(WrittenAs(sha256, l, bodies), log, idx, i, p, p + |bodies[i]| + 8);
  }

  /** Every written block comes back, byte for byte, and its header is the one its bytes decode to. */
  lemma BlocksAreReadBack(sha256: seq<byte> -> Digest, l: Lead, bodies: seq<seq<byte>>, i: nat)
    requires LeadWf(l) && i < |bodies| && Chained(l, bodies)
    requires |LogBytes(l, bodies)| < U64 && First(l) + |bodies| <= U32
    ensures var o, log, idx := WrittenAs(sha256, l, bodies), LogBytes(l, bodies), IndexBytes(bodies, |LeadBytes(l)|);
            && Body(o, log, idx, First(l) + i) == Some(bodies[i])
            && Header(sha256, o, log, idx, First(l) + i) == Decode(sha256, bodies[i])
  {
    hide LogBytes; hide LeadBytes; hide IndexBytes; hide Entry; hide LeadWf; hide ShipLog.NumFromId; hide At;
    hide Header; hide Decode; hide PosOf;
    var log := LogBytes(l, bodies);
    EntryIsReadBack(sha256, l, bodies, i);
    LogStands(l, bodies);
    BlockStands(log, bodies, |LeadBytes(l)|, i);
    PreviousStands(log, PosOf(bodies, |LeadBytes(l)|, i), bodies[i]);
    HeaderAgreesWithBody(sha256, WrittenAs(sha256, l, bodies), log, IndexBytes(bodies, |LeadBytes(l)|), First(l) + i);
  }
}
