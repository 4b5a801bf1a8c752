/** Headers of signed blocks: the bytes a header occupies, and the number, id and parent it yields. */
module BlockHeaders {
  import opened Bytes
  import opened Parsing
  import opened FcReaders
  import opened ShipLog
  import Varuint

  type Digest = s: seq<byte> | |s| == 32 witness seq(32, _ => 0)

  datatype BlockHeader = BlockHeader(number: nat, id: Digest, previous: Digest)

  /** The length of a public key's trailing part, and where that part starts. */
  function KeyRest(b: seq<byte>, p: nat): (r: Option<(nat, nat)>)
    ensures r.Some? ==> p < r.value.1 <= |b|
  {
    var kind :- Varuint.Fc(b, p);
    if kind.0 <= 1 then Some((33, kind.1)) else
    if kind.0 != 2 then None else
    var point :- Raw(b, kind.1, 33);
    var presence :- U8(b, point.1);
    Varuint.Fc(b, presence.1)
  }

  function SkipProducer(b: seq<byte>, p: nat): (r: Option<nat>)
    ensures r.Some? ==> r.value <= |b|
  {
    var name :- Raw(b, p, 8);
    var rest :- KeyRest(b, name.1);
    var key :- Raw(b, rest.1, rest.0);
    Some(key.1)
  }

  function SkipExtension(b: seq<byte>, p: nat): (r: Option<nat>)
    ensures r.Some? ==> r.value <= |b|
  {
    var kind :- Raw(b, p, 2);
    var len :- Varuint.Fc(b, kind.1);
    var data :- Raw(b, len.1, len.0);
    Some(data.1)
  }

  function ProducerSkipper(b: seq<byte>): nat -> Option<nat> { (q: nat) => SkipProducer(b, q) }
  function ExtensionSkipper(b: seq<byte>): nat -> Option<nat> { (q: nat) => SkipExtension(b, q) }

  /** A count and that many items. */
  function SkipCounted(b: seq<byte>, p: nat, item: nat -> Option<nat>): (r: Option<nat>)
    requires forall q: nat :: item(q).Some? ==> item(q).value <= |b|
    ensures r.Some? ==> r.value <= |b|
  {
    var n :- Varuint.Fc(b, p);
    SkipManyWithin(item, n.1, n.0, |b|);
    SkipMany(item, n.1, n.0)
  }

  /** The optional producer schedule. */
  function SkipSchedule(b: seq<byte>, p: nat): (r: Option<nat>)
    ensures r.Some? ==> r.value <= |b|
  {
    var present :- Bool(b, p);
    if !present.0 then Some(present.1) else
    var version :- Raw(b, present.1, 4);
    SkipCounted(b, version.1, ProducerSkipper(b))
  }

  /** The parent id, and where the header stops. */
  function HeaderAt(b: seq<byte>): (r: Option<(Digest, nat)>)
    ensures r.Some? ==> r.value.1 <= |b|
  {
    var lead :- Raw(b, 0, 14);
    var previous :- Raw(b, lead.1, 32);
    var roots :- Raw(b, previous.1, 68);
    var schedule :- SkipSchedule(b, roots.1);
    var end :- SkipCounted(b, schedule, ExtensionSkipper(b));
    Some((previous.0, end))
  }

  /** The number over the first four bytes of a digest, most significant byte first. */
  function WithNumber(n: nat, d: Digest): (r: Digest)
    requires n < U32
  {
    Be(4, n) + d[4..]
  }

  /** The header a body starts with; `sha256` is the digest function. */
  function Decode(sha256: seq<byte> -> Digest, body: seq<byte>): Option<BlockHeader> {
    var h :- HeaderAt(body);
    var number := NumFromId(h.0) + 1;
    if number >= U32 then None else
    Some(BlockHeader(number, WithNumber(number, sha256(body[..h.1])), h.0))
  }

  // What a prefix of a body gives, the whole body gives.

  lemma FcExtends(b: seq<byte>, c: seq<byte>, p: nat)
    requires b <= c && Varuint.Fc(b, p).Some?
    ensures Varuint.Fc(c, p) == Varuint.Fc(b, p)
  {
    hide Varuint.Groups;
    Varuint.GroupsExtend(b, c, p, 5, false);
  }

  lemma RawExtends(b: seq<byte>, c: seq<byte>, p: nat, n: nat)
    requires b <= c && Raw(b, p, n).Some?
    ensures Raw(c, p, n) == Raw(b, p, n)
  {
    assert c[p..p + n] == b[p..p + n];
  }

  lemma KeyExtends(b: seq<byte>, c: seq<byte>, p: nat)
    requires b <= c && KeyRest(b, p).Some?
    ensures KeyRest(c, p) == KeyRest(b, p)
  {
    hide Varuint.Fc; hide Raw;
    FcExtends(b, c, p);
    var kind := Varuint.Fc(b, p).value;
    if kind.0 == 2 {
      RawExtends(b, c, kind.1, 33);
      FcExtends(b, c, kind.1 + 34);
    }
  }

  lemma ProducerExtends(b: seq<byte>, c: seq<byte>, p: nat)
    requires b <= c && SkipProducer(b, p).Some?
    ensures SkipProducer(c, p) == SkipProducer(b, p)
  {
    hide KeyRest; hide Raw;
    RawExtends(b, c, p, 8);
    KeyExtends(b, c, p + 8);
    var rest := KeyRest(b, p + 8).value;
    RawExtends(b, c, rest.1, rest.0);
  }

  lemma ExtensionExtends(b: seq<byte>, c: seq<byte>, p: nat)
    requires b <= c && SkipExtension(b, p).Some?
    ensures SkipExtension(c, p) == SkipExtension(b, p)
  {
    hide Varuint.Fc; hide Raw;
    RawExtends(b, c, p, 2);
    FcExtends(b, c, p + 2);
    var len := Varuint.Fc(b, p + 2).value;
    RawExtends(b, c, len.1, len.0);
  }

  lemma ScheduleExtends(b: seq<byte>, c: seq<byte>, p: nat)
    requires b <= c && SkipSchedule(b, p).Some?
    ensures SkipSchedule(c, p) == SkipSchedule(b, p)
  {
    hide Varuint.Fc; hide SkipMany; hide SkipProducer; hide Raw;
    if Bool(b, p).value.0 {
      RawExtends(b, c, p + 1, 4);
      FcExtends(b, c, p + 5);
      var n := Varuint.Fc(b, p + 5).value;
      forall q: nat | ProducerSkipper(b)(q).Some?
        ensures ProducerSkipper(c)(q) == ProducerSkipper(b)(q)
      {
        ProducerExtends(b, c, q);
      }
      SkipManyExtend(ProducerSkipper(b), ProducerSkipper(c), n.1, n.0);
    }
  }

  lemma HeaderExtends(b: seq<byte>, c: seq<byte>)
    requires b <= c && HeaderAt(b).Some?
    ensures HeaderAt(c) == HeaderAt(b)
  {
    hide Varuint.Fc; hide SkipMany; hide SkipExtension; hide Raw; hide SkipSchedule;
    RawExtends(b, c, 0, 14);
    RawExtends(b, c, 14, 32);
    RawExtends(b, c, 46, 68);
    ScheduleExtends(b, c, 114);
    var p := SkipSchedule(b, 114).value;
    FcExtends(b, c, p);
    var n := Varuint.Fc(b, p).value;
    forall q: nat | ExtensionSkipper(b)(q).Some?
      ensures ExtensionSkipper(c)(q) == ExtensionSkipper(b)(q)
    {
      ExtensionExtends(b, c, q);
    }
    SkipManyExtend(ExtensionSkipper(b), ExtensionSkipper(c), n.1, n.0);
  }

  /** A header decoded from a prefix is the header of the whole body, id included. */
  lemma DecodeExtends(sha256: seq<byte> -> Digest, b: seq<byte>, c: seq<byte>)
    requires b <= c && HeaderAt(b).Some?
    ensures Decode(sha256, c) == Decode(sha256, b)
  {
    hide HeaderAt; hide NumFromId; hide WithNumber;
    HeaderExtends(b, c);
    assert b[..HeaderAt(b).value.1] == c[..HeaderAt(b).value.1];
  }

  /** The id carries the block's number, so a block that names it as `previous` is numbered one more. */
  lemma IdCarriesNumber(sha256: seq<byte> -> Digest, body: seq<byte>, next: seq<byte>)
    requires Decode(sha256, body).Some? && Decode(sha256, next).Some?
    requires Decode(sha256, next).value.previous == Decode(sha256, body).value.id
    ensures NumFromId(Decode(sha256, body).value.id) == Decode(sha256, body).value.number
    ensures Decode(sha256, next).value.number == Decode(sha256, body).value.number + 1
  {
    hide HeaderAt; hide FromBe; hide Be;
    var h := Decode(sha256, body).value;
    Pow256Facts();
    BeRoundTrip(4, h.number);
    assert h.id[..4] == Be(4, h.number);
  }

  // The stored layout, and the header it gives back.

  datatype Key = Point(kind: nat, point: seq<byte>) | WebAuthn(point: seq<byte>, presence: byte, rpid: seq<byte>)

  datatype Producer = Producer(name: seq<byte>, key: Key)

  datatype HeaderX = HeaderX(lead: seq<byte>, previous: Digest, roots: seq<byte>, version: seq<byte>,
                             producers: Option<seq<Producer>>, extensions: seq<(seq<byte>, seq<byte>)>)

  predicate KeyWf(k: Key) {
    |k.point| == 33 && if k.Point? then k.kind <= 1 else |k.rpid| < U32
  }

  predicate ProducerWf(x: Producer) {
    |x.name| == 8 && KeyWf(x.key)
  }

  predicate ExtensionWf(x: (seq<byte>, seq<byte>)) {
    |x.0| == 2 && |x.1| < U32
  }

  predicate HeaderWf(h: HeaderX) {
    && |h.lead| == 14 && |h.roots| == 68 && |h.version| == 4 && |h.extensions| < U32
    && (h.producers.Some? ==>
          |h.producers.value| < U32 && forall i :: 0 <= i < |h.producers.value| ==> ProducerWf(h.producers.value[i]))
    && forall i :: 0 <= i < |h.extensions| ==> ExtensionWf(h.extensions[i])
  }

  function KeyBytes(k: Key): seq<byte> {
    match k
    case Point(kind, point) => Varuint.Encode(kind) + point
    case WebAuthn(point, presence, rpid) => Varuint.Encode(2) + (point + ([presence] + Str(rpid)))
  }

  function ProducerBytes(x: Producer): seq<byte> {
    x.name + KeyBytes(x.key)
  }

  function ScheduleBytes(h: HeaderX): seq<byte> {
    if h.producers.None? then [0] else [1] + (h.version + ListBytes(h.producers.value, ProducerBytes))
  }

  function HeaderBytes(h: HeaderX): seq<byte> {
    h.lead + (h.previous + (h.roots + (ScheduleBytes(h) + ListBytes(h.extensions, ExtensionBytes))))
  }

  lemma TakeFc(b: seq<byte>, p: nat, v: nat, rest: seq<byte>)
    requires v < U32 && At(b, p, Varuint.Encode(v) + rest)
    ensures Varuint.Fc(b, p) == Some((v, p + |Varuint.Encode(v)|)) && At(b, p + |Varuint.Encode(v)|, rest)
  {
    hide Varuint.Encode; hide Varuint.Groups;
    AtSplit(b, p, Varuint.Encode(v), rest);
    Varuint.FcOfEncode(b, p, v);
  }

  lemma KeyOfBytes(b: seq<byte>, p: nat, k: Key)
    requires KeyWf(k) && At(b, p, KeyBytes(k))
    ensures KeyRest(b, p).Some? && KeyRest(b, p).value.0 + KeyRest(b, p).value.1 == p + |KeyBytes(k)|
  {
    hide Varuint.Encode; hide Varuint.Fc; hide At; hide Raw;
    match k {
      case Point(kind, point) => TakeFc(b, p, kind, point);
      case WebAuthn(point, presence, rpid) =>
        TakeFc(b, p, 2, point + ([presence] + Str(rpid)));
        var q := p + |Varuint.Encode(2)|;
        TakeRaw(b, q, point, [presence] + Str(rpid));
        TakeRaw(b, q + 33, [presence], Str(rpid));
        TakeFc(b, q + 34, |rpid|, rpid);
    }
  }

  lemma SkipProducerBytes(b: seq<byte>, p: nat, x: Producer)
    requires ProducerWf(x) && At(b, p, ProducerBytes(x))
    ensures SkipProducer(b, p) == Some(p + |ProducerBytes(x)|)
  {
    hide KeyBytes; hide KeyRest; hide KeyWf;
    TakeRaw(b, p, x.name, KeyBytes(x.key));
    KeyOfBytes(b, p + 8, x.key);
  }

  lemma SkipExtensionBytes(b: seq<byte>, p: nat, x: (seq<byte>, seq<byte>))
    requires ExtensionWf(x) && At(b, p, ExtensionBytes(x))
    ensures SkipExtension(b, p) == Some(p + |ExtensionBytes(x)|)
  {
    hide Varuint.Encode; hide Varuint.Fc; hide At;
    TakeRaw(b, p, x.0, Str(x.1));
    TakeFc(b, p + 2, |x.1|, x.1);
    assert x.1 + [] == x.1;
    TakeRaw(b, p + 2 + |Varuint.Encode(|x.1|)|, x.1, []);
  }

  lemma TakeCounted<X>(b: seq<byte>, p: nat, skip: nat -> Option<nat>, xs: seq<X>, enc: X -> seq<byte>, rest: seq<byte>)
    requires |xs| < U32 && forall i :: 0 <= i < |xs| ==> SkipsOver(b, skip, xs[i], enc)
    requires At(b, p, ListBytes(xs, enc) + rest)
    requires forall q: nat :: skip(q).Some? ==> skip(q).value <= |b|
    ensures SkipCounted(b, p, skip) == Some(p + |ListBytes(xs, enc)|)
    ensures At(b, p + |ListBytes(xs, enc)|, rest)
  {
    hide Varuint.Encode; hide Varuint.Fc; hide SkipMany; hide Flat; hide SkipsOver; hide At;
    AtSplit(b, p, ListBytes(xs, enc), rest);
    TakeFc(b, p, |xs|, Flat(xs, enc));
    SkipManyOfFlat(b, p + |Varuint.Encode(|xs|)|, skip, xs, enc);
  }

  lemma TakeProducers(b: seq<byte>, p: nat, xs: seq<Producer>)
    requires |xs| < U32 && forall i :: 0 <= i < |xs| ==> ProducerWf(xs[i])
    requires At(b, p, ListBytes(xs, ProducerBytes))
    ensures SkipCounted(b, p, ProducerSkipper(b)) == Some(p + |ListBytes(xs, ProducerBytes)|)
  {
    hide ListBytes; hide SkipCounted; hide SkipProducer; hide ProducerBytes; hide ProducerWf; hide At;
    forall i | 0 <= i < |xs|
      ensures SkipsOver(b, ProducerSkipper(b), xs[i], ProducerBytes)
    {
      forall q: nat | At(b, q, ProducerBytes(xs[i]))
        ensures ProducerSkipper(b)(q) == Some(q + |ProducerBytes(xs[i])|)
      {
        SkipProducerBytes(b, q, xs[i]);
      }
    }
    assert ListBytes(xs, ProducerBytes) + [] == ListBytes(xs, ProducerBytes);
    TakeCounted(b, p, ProducerSkipper(b), xs, ProducerBytes, []);
  }

  lemma TakeExtensions(b: seq<byte>, p: nat, xs: seq<(seq<byte>, seq<byte>)>)
    requires |xs| < U32 && forall i :: 0 <= i < |xs| ==> ExtensionWf(xs[i])
    requires At(b, p, ListBytes(xs, ExtensionBytes))
    ensures SkipCounted(b, p, ExtensionSkipper(b)) == Some(p + |ListBytes(xs, ExtensionBytes)|)
  {
    hide ListBytes; hide SkipCounted; hide SkipExtension; hide ExtensionBytes; hide ExtensionWf; hide At;
    forall i | 0 <= i < |xs|
      ensures SkipsOver(b, ExtensionSkipper(b), xs[i], ExtensionBytes)
    {
      forall q: nat | At(b, q, ExtensionBytes(xs[i]))
        ensures ExtensionSkipper(b)(q) == Some(q + |ExtensionBytes(xs[i])|)
      {
        SkipExtensionBytes(b, q, xs[i]);
      }
    }
    assert ListBytes(xs, ExtensionBytes) + [] == ListBytes(xs, ExtensionBytes);
    TakeCounted(b, p, ExtensionSkipper(b), xs, ExtensionBytes, []);
  }

  lemma SkipScheduleBytes(b: seq<byte>, p: nat, h: HeaderX)
    requires HeaderWf(h) && At(b, p, ScheduleBytes(h))
    ensures SkipSchedule(b, p) == Some(p + |ScheduleBytes(h)|)
  {
    hide ListBytes; hide SkipCounted; hide At; hide ProducerSkipper;
    if h.producers.None? {
      assert [0] + [] == ScheduleBytes(h);
      TakeRaw(b, p, [0], []);
    } else {
      var counted := ListBytes(h.producers.value, ProducerBytes);
      TakeRaw(b, p, [1], h.version + counted);
      TakeRaw(b, p + 1, h.version, counted);
      TakeProducers(b, p + 5, h.producers.value);
    }
  }

  lemma HeaderOfBytes(b: seq<byte>, h: HeaderX)
    requires HeaderWf(h) && At(b, 0, HeaderBytes(h))
    ensures HeaderAt(b) == Some((h.previous, |HeaderBytes(h)|))
  {
    hide ListBytes; hide SkipCounted; hide At; hide ExtensionSkipper; hide ScheduleBytes; hide SkipSchedule;
    var tail := ScheduleBytes(h) + ListBytes(h.extensions, ExtensionBytes);
    TakeRaw(b, 0, h.lead, h.previous + (h.roots + tail));
    TakeRaw(b, 14, h.previous, h.roots + tail);
    TakeRaw(b, 46, h.roots, tail);
    AtSplit(b, 114, ScheduleBytes(h), ListBytes(h.extensions, ExtensionBytes));
    SkipScheduleBytes(b, 114, h);
    TakeExtensions(b, 114 + |ScheduleBytes(h)|, h.extensions);
  }

  /**
   Decoding inverts the layout: the id is the digest of exactly the stored header, with the number
   written over it, whatever signature and transactions follow.
   */
  lemma DecodeInvertsLayout(sha256: seq<byte> -> Digest, h: HeaderX, rest: seq<byte>)
    requires HeaderWf(h)
    ensures Decode(sha256, HeaderBytes(h) + rest) ==
      if NumFromId(h.previous) + 1 < U32
      then Some(BlockHeader(NumFromId(h.previous) + 1,
                            Be(4, NumFromId(h.previous) + 1) + sha256(HeaderBytes(h))[4..], h.previous))
      else None
  {
    hide HeaderBytes; hide HeaderAt; hide NumFromId; hide HeaderWf; hide Be;
    var b := HeaderBytes(h) + rest;
    assert At(b, 0, HeaderBytes(h)) && b[..|HeaderBytes(h)|] == HeaderBytes(h);
    HeaderOfBytes(b, h);
  }

  // The reader, step by step.

  method ReadKeyRest(r: FcReader) returns (rest: Option<nat>)
    modifies r
    ensures Did(KeyRest(r.b, old(r.pos)), rest, r.pos)
  {
    hide Varuint.Fc;
    var kind := r.ReadVaruint32();
    if kind.None? { return None; }
    if kind.value <= 1 { return Some(33); }
    if kind.value != 2 { return None; }
    var point := r.Bytes(33);
    if point.None? { return None; }
    var presence := r.ReadU8();
    if presence.None? { return None; }
    rest := r.ReadVaruint32();
  }

  method ReadProducer(r: FcReader) returns (ok: bool)
    modifies r
    ensures Stopped(SkipProducer(r.b, old(r.pos)), ok, r.pos)
  {
    hide KeyRest;
    var name := r.Bytes(8);
    if name.None? { return false; }
    var rest := ReadKeyRest(r);
    if rest.None? { return false; }
    var key := r.Bytes(rest.value);
    return key.Some?;
  }

  method ReadSchedule(r: FcReader) returns (ok: bool)
    modifies r
    ensures Stopped(SkipSchedule(r.b, old(r.pos)), ok, r.pos)
  {
    hide Varuint.Fc; hide SkipProducer;
    var present := r.ReadBool();
    if present.None? { return false; }
    if !present.value { return true; }
    var version := r.Bytes(4);
    if version.None? { return false; }
    var n := r.ReadVaruint32();
    if n.None? { return false; }
    ghost var all := SkipMany(ProducerSkipper(r.b), r.pos, n.value);
    for i := 0 to n.value
      invariant all == SkipMany(ProducerSkipper(r.b), r.pos, n.value - i)
    {
      ok := ReadProducer(r);
      if !ok { return; }
    }
    return true;
  }

  method ReadExtensions(r: FcReader) returns (ok: bool)
    modifies r
    ensures Stopped(SkipCounted(r.b, old(r.pos), ExtensionSkipper(r.b)), ok, r.pos)
  {
    hide Varuint.Fc;
    var n := r.ReadVaruint32();
    if n.None? { return false; }
    ghost var all := SkipMany(ExtensionSkipper(r.b), r.pos, n.value);
    for i := 0 to n.value
      invariant all == SkipMany(ExtensionSkipper(r.b), r.pos, n.value - i)
    {
      var kind := r.Bytes(2);
      if kind.None? { return false; }
      var len := r.ReadVaruint32();
      if len.None? { return false; }
      var data := r.Bytes(len.value);
      if data.None? { return false; }
    }
    return true;
  }

  /** `block_header`, read field by field. */
  method Read(sha256: seq<byte> -> Digest, body: seq<byte>) returns (h: Option<BlockHeader>)
    ensures h == Decode(sha256, body)
  {
    hide SkipSchedule; hide SkipCounted; hide ExtensionSkipper; hide NumFromId;
    var r := new FcReader(body);
    var lead := r.Bytes(14);
    if lead.None? { return None; }
    var previous := r.Bytes(32);
    if previous.None? { return None; }
    var roots := r.Bytes(68);
    if roots.None? { return None; }
    var ok := ReadSchedule(r);
    if !ok { return None; }
    ok := ReadExtensions(r);
    if !ok { return None; }
    var number := NumFromId(previous.value) + 1;
    if number >= U32 { return None; }
    return Some(BlockHeader(number, WithNumber(number, sha256(body[..r.pos])), previous.value));
  }
}
