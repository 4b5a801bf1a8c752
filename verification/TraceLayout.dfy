/** The documented layout of `transaction_trace[]`, written out, and the parser as its inverse. */
module TraceLayout {
  import opened Bytes
  import opened Parsing
  import opened Trace
  import Varuint

  // The values a node serializes.

  datatype ReceiptX = ReceiptX(receiver: nat, digest: seq<byte>, globalSequence: nat, recvSequence: nat,
                               authSequence: seq<(nat, nat)>, codeSequence: nat, abiSequence: nat)

  datatype TailX = TailX(contextFree: bool, elapsed: int, console: seq<byte>, ramDeltas: seq<(nat, int)>,
                         except: Option<seq<byte>>, errorCode: Option<nat>, returnValue: Option<seq<byte>>)

  /** An action trace; version 1 carries a return value. */
  datatype ActX = ActX(ordinal: nat, creator: nat, receipt: Option<ReceiptX>, receiver: nat, account: nat, name: nat,
                       authorization: seq<(nat, nat)>, data: seq<byte>, tail: TailX)

  datatype Signature = Plain(tag: byte, bytes: seq<byte>) | WebAuthn(bytes: seq<byte>, auth: seq<byte>, json: seq<byte>)
                     | Edwards(bytes: seq<byte>) | Bls(bytes: seq<byte>)

  datatype PartialX = PartialX(header: seq<byte>, maxNet: nat, maxCpu: byte, delay: nat,
                               extensions: seq<(seq<byte>, seq<byte>)>, signatures: seq<Signature>,
                               contextFreeData: seq<seq<byte>>)

  datatype TxX = TxX(id: seq<byte>, status: byte, cpu: nat, net: nat, elapsed: nat, netUsage: nat, scheduled: bool,
                     actions: seq<ActX>, ramDelta: Option<seq<byte>>, except: Option<seq<byte>>, errorCode: Option<nat>,
                     failed: Option<TxX>, partial: Option<PartialX>)

  // Well-formed values: every number and length fits its field.

  predicate PairsWf(xs: seq<(nat, nat)>) {
    |xs| < U32 && forall i :: 0 <= i < |xs| ==> xs[i].0 < U64 && xs[i].1 < U64
  }

  predicate DeltasWf(xs: seq<(nat, int)>) {
    |xs| < U32 && forall i :: 0 <= i < |xs| ==> xs[i].0 < U64 && -I64_LIMIT <= xs[i].1 < I64_LIMIT
  }

  predicate OptWf(s: Option<seq<byte>>) {
    s.Some? ==> |s.value| < U32
  }

  predicate OptIntWf(v: Option<nat>) {
    v.Some? ==> v.value < U64
  }

  predicate ReceiptWf(r: ReceiptX) {
    && r.receiver < U64 && |r.digest| == 32 && r.globalSequence < U64 && r.recvSequence < U64
    && PairsWf(r.authSequence) && r.codeSequence < U32 && r.abiSequence < U32
  }

  predicate TailWf(t: TailX) {
    && -I64_LIMIT <= t.elapsed < I64_LIMIT && |t.console| < U32 && DeltasWf(t.ramDeltas)
    && OptWf(t.except) && OptIntWf(t.errorCode) && OptWf(t.returnValue)
  }

  predicate ActWf(a: ActX) {
    && a.ordinal < U32 && a.creator < U32 && (a.receipt.Some? ==> ReceiptWf(a.receipt.value))
    && a.receiver < U64 && a.account < U64 && a.name < U64 && PairsWf(a.authorization) && |a.data| < U32
    && TailWf(a.tail)
  }

  predicate SignatureWf(s: Signature) {
    match s
    case Plain(tag, bytes) => (tag == 0 || tag == 1 || tag == 3) && |bytes| == 65
    case WebAuthn(bytes, auth, json) => |bytes| == 65 && |auth| < U32 && |json| < U32
    case Edwards(bytes) => |bytes| == 96
    case Bls(bytes) => |bytes| == 192
  }

  predicate PartialWf(p: PartialX) {
    && |p.header| == 10 && p.maxNet < U32 && p.delay < U32
    && |p.extensions| < U32 && |p.signatures| < U32 && |p.contextFreeData| < U32
    && (forall i :: 0 <= i < |p.extensions| ==> |p.extensions[i].0| == 2 && |p.extensions[i].1| < U32)
    && (forall i :: 0 <= i < |p.signatures| ==> SignatureWf(p.signatures[i]))
    && (forall i :: 0 <= i < |p.contextFreeData| ==> |p.contextFreeData[i]| < U32)
  }

  predicate HeadWf(t: TxX) {
    && |t.id| == 32 && t.cpu < U32 && t.net < U32 && t.elapsed < U64 && t.netUsage < U64
    && |t.actions| < U32 && (forall i :: 0 <= i < |t.actions| ==> ActWf(t.actions[i]))
    && (t.ramDelta.Some? ==> |t.ramDelta.value| == 16) && OptWf(t.except) && OptIntWf(t.errorCode)
  }

  predicate TxWf(t: TxX) {
    && HeadWf(t) && (t.partial.Some? ==> PartialWf(t.partial.value))
    && (t.failed.Some? ==> TxWf(t.failed.value))
  }

  // The layout.

  function I64(v: int): seq<byte> {
    Le(8, v % U64)
  }

  function Opt(s: Option<seq<byte>>): seq<byte> {
    if s.Some? then [1] + s.value else [0]
  }

  function OptStr(s: Option<seq<byte>>): seq<byte> {
    if s.Some? then [1] + Str(s.value) else [0]
  }

  function OptLe8(v: Option<nat>): seq<byte> {
    if v.Some? then [1] + Le(8, v.value) else [0]
  }

  function PairBytes(x: (nat, nat)): seq<byte> {
    Le(8, x.0) + Le(8, x.1)
  }

  function DeltaBytes(x: (nat, int)): seq<byte> {
    Le(8, x.0) + I64(x.1)
  }

  function PairsBytes(xs: seq<(nat, nat)>): seq<byte> {
    N(|xs|) + Flat(xs, PairBytes)
  }

  function DeltasBytes(xs: seq<(nat, int)>): seq<byte> {
    N(|xs|) + Flat(xs, DeltaBytes)
  }

  function ReceiptBytes(r: ReceiptX): seq<byte> {
    N(0) + (Le(8, r.receiver) + (r.digest + (Le(8, r.globalSequence) + (Le(8, r.recvSequence)
    + (PairsBytes(r.authSequence) + (N(r.codeSequence) + N(r.abiSequence)))))))
  }

  function OptReceiptBytes(r: Option<ReceiptX>): seq<byte> {
    if r.Some? then [1] + ReceiptBytes(r.value) else [0]
  }

  function ReturnBytes(r: Option<seq<byte>>): seq<byte> {
    if r.Some? then Str(r.value) else []
  }

  function TailBytes(t: TailX): seq<byte> {
    [if t.contextFree then 1 else 0] + (I64(t.elapsed) + (Str(t.console) + (DeltasBytes(t.ramDeltas)
    + (OptStr(t.except) + (OptLe8(t.errorCode) + ReturnBytes(t.returnValue))))))
  }

  /** Everything before the action's data. */
  function FrontBytes(a: ActX): seq<byte> {
    N(a.ordinal) + (N(a.creator) + (OptReceiptBytes(a.receipt) + (Le(8, a.receiver) + (Le(8, a.account)
    + (Le(8, a.name) + PairsBytes(a.authorization))))))
  }

  function ActBytes(a: ActX): seq<byte> {
    FrontBytes(a) + (Str(a.data) + TailBytes(a.tail))
  }

  function VariantActBytes(a: ActX): seq<byte> {
    N(if a.tail.returnValue.Some? then 1 else 0) + ActBytes(a)
  }

  function SignatureBytes(s: Signature): seq<byte> {
    match s
    case Plain(tag, bytes) => [tag] + bytes
    case WebAuthn(bytes, auth, json) => [2] + (bytes + (Str(auth) + Str(json)))
    case Edwards(bytes) => [4] + bytes
    case Bls(bytes) => [5] + ([1] + bytes)
  }

  function ListsBytes(x: PartialX): seq<byte> {
    ListBytes(x.extensions, ExtensionBytes)
    + (ListBytes(x.signatures, SignatureBytes) + ListBytes(x.contextFreeData, Str))
  }

  function PartialBytes(x: PartialX): seq<byte> {
    x.header + (N(x.maxNet) + ([x.maxCpu] + (N(x.delay) + ListsBytes(x))))
  }

  /** The actions and the options after them. */
  function BodyBytes(t: TxX): seq<byte> {
    (N(|t.actions|) + Flat(t.actions, VariantActBytes)) + (Opt(t.ramDelta) + (OptStr(t.except) + OptLe8(t.errorCode)))
  }

  function HeadBytes(t: TxX): seq<byte> {
    t.id + ([t.status] + (Le(4, t.cpu) + (N(t.net) + (Le(8, t.elapsed) + (Le(8, t.netUsage)
    + ([if t.scheduled then 1 else 0] + BodyBytes(t)))))))
  }

  function PartialPart(p: Option<PartialX>): seq<byte> {
    if p.Some? then [1] + (N(0) + PartialBytes(p.value)) else [0]
  }

  function FailedPart(t: TxX): seq<byte>
    decreases t, 0
  {
    if t.failed.Some? then [1] + (N(0) + TxBytes(t.failed.value)) else [0]
  }

  function RestBytes(t: TxX): seq<byte>
    decreases t, 1
  {
    FailedPart(t) + PartialPart(t.partial)
  }

  function TxBytes(t: TxX): seq<byte>
    decreases t, 2
  {
    HeadBytes(t) + RestBytes(t)
  }

  function VariantTxBytes(t: TxX): seq<byte> {
    N(0) + TxBytes(t)
  }

  function BlockBytes(txs: seq<TxX>): seq<byte> {
    N(|txs|) + Flat(txs, VariantTxBytes)
  }

  // What the parser is to give back; `q` is where the value stands.

  function ReceiptOf(r: ReceiptX): Receipt {
    Receipt(r.receiver, r.digest, r.globalSequence, r.recvSequence, r.authSequence, r.codeSequence, r.abiSequence)
  }

  /** The range of `s` in `Str(s)` standing at `q`. */
  function RangeOf(s: seq<byte>, q: nat): (nat, nat) {
    (q + |N(|s|)|, |s|)
  }

  function TailOf(t: TailX, q: nat): ActTail {
    ActTail(t.contextFree, t.elapsed, t.ramDeltas, t.except.Some?,
            if t.returnValue.None? then None
            else Some(RangeOf(t.returnValue.value, q + |TailBytes(t)| - |ReturnBytes(t.returnValue)|)))
  }

  function ActOf(a: ActX, q: nat): Act {
    var d := q + |FrontBytes(a)|;
    Act(a.ordinal, a.creator, if a.receipt.Some? then Some(ReceiptOf(a.receipt.value)) else None,
        a.receiver, a.account, a.name, a.authorization, RangeOf(a.data, d), TailOf(a.tail, d + |Str(a.data)|))
  }

  // Reading one field off the front of a layout.

  lemma TakeV(b: seq<byte>, p: nat, v: nat, rest: seq<byte>)
    requires v < U32 && At(b, p, N(v) + rest)
    ensures V(b, p) == Some((v, p + |N(v)|)) && At(b, p + |N(v)|, rest)
  {
    hide Varuint.Encode; hide Varuint.Groups;
    AtSplit(b, p, N(v), rest);
    Varuint.NarrowOfEncode(b, p, v);
  }

  lemma TakeInt(b: seq<byte>, p: nat, n: nat, v: nat, rest: seq<byte>)
    requires v < Pow256(n) && At(b, p, Le(n, v) + rest)
    ensures Int(b, p, n) == Some((v, p + n)) && At(b, p + n, rest)
  {
    hide Le; hide FromLe;
    AtSplit(b, p, Le(n, v), rest);
    IntOfLe(b, p, n, v);
  }

  lemma TakeByte(b: seq<byte>, p: nat, x: byte, rest: seq<byte>)
    requires At(b, p, [x] + rest)
    ensures p < |b| && b[p] == x && At(b, p + 1, rest)
  {
    AtSplit(b, p, [x], rest);
    AtIndex(b, p, [x], 0);
  }

  lemma TakeStr(b: seq<byte>, p: nat, s: seq<byte>, rest: seq<byte>)
    requires |s| < U32 && At(b, p, Str(s) + rest)
    ensures BytesRange(b, p) == Some((RangeOf(s, p), p + |Str(s)|)) && SkipBytes(b, p) == Some(p + |Str(s)|)
    ensures At(b, RangeOf(s, p).0, s) && At(b, p + |Str(s)|, rest)
  {
    hide N; hide V;
    AtSplit(b, p, Str(s), rest);
    TakeV(b, p, |s|, s);
  }

  lemma TakeOptStr(b: seq<byte>, p: nat, s: Option<seq<byte>>, rest: seq<byte>)
    requires OptWf(s) && At(b, p, OptStr(s) + rest)
    ensures Present(b, p) == Some((s.Some?, p + 1)) && At(b, p + |OptStr(s)|, rest)
    ensures s.Some? ==> SkipBytes(b, p + 1) == Some(p + |OptStr(s)|)
    ensures SkipOptBytes(b, p) == Some(p + |OptStr(s)|)
  {
    hide Str; hide SkipBytes;
    AtSplit(b, p, OptStr(s), rest);
    AtIndex(b, p, OptStr(s), 0);
    if s.Some? {
      AtSplit(b, p, [1], Str(s.value));
      assert Str(s.value) + [] == Str(s.value);
      TakeStr(b, p + 1, s.value, []);
    }
  }

  lemma TakeOpt(b: seq<byte>, p: nat, s: Option<seq<byte>>, n: nat, rest: seq<byte>)
    requires (s.Some? ==> |s.value| == n) && At(b, p, Opt(s) + rest)
    ensures SkipOpt(b, p, n) == Some(p + |Opt(s)|) && At(b, p + |Opt(s)|, rest)
  {
    AtSplit(b, p, Opt(s), rest);
    AtIndex(b, p, Opt(s), 0);
  }

  lemma TakeOptLe8(b: seq<byte>, p: nat, v: Option<nat>, rest: seq<byte>)
    requires At(b, p, OptLe8(v) + rest)
    ensures SkipOpt(b, p, 8) == Some(p + |OptLe8(v)|) && At(b, p + |OptLe8(v)|, rest)
  {
    hide Le;
    AtSplit(b, p, OptLe8(v), rest);
    AtIndex(b, p, OptLe8(v), 0);
  }

  lemma TakeI64(b: seq<byte>, p: nat, v: int, rest: seq<byte>)
    requires -I64_LIMIT <= v < I64_LIMIT && At(b, p, I64(v) + rest)
    ensures Int(b, p, 8).Some? && Signed(Int(b, p, 8).value.0) == v && Int(b, p, 8).value.1 == p + 8
    ensures At(b, p + 8, rest)
  {
    hide Le; hide FromLe;
    Pow256Facts();
    TakeInt(b, p, 8, v % U64, rest);
  }

  lemma PairOfBytes(b: seq<byte>, p: nat, x: (nat, nat))
    requires x.0 < U64 && x.1 < U64 && At(b, p, PairBytes(x))
    ensures PairAt(b, p) == Some((x, p + |PairBytes(x)|))
  {
    hide Le; hide FromLe;
    Pow256Facts();
    TakeInt(b, p, 8, x.0, Le(8, x.1));
    IntOfLe(b, p + 8, 8, x.1);
  }

  lemma DeltaOfBytes(b: seq<byte>, p: nat, x: (nat, int))
    requires x.0 < U64 && -I64_LIMIT <= x.1 < I64_LIMIT && At(b, p, DeltaBytes(x))
    ensures DeltaAt(b, p) == Some((x, p + |DeltaBytes(x)|))
  {
    hide Le; hide FromLe; hide I64;
    Pow256Facts();
    TakeInt(b, p, 8, x.0, I64(x.1));
    assert I64(x.1) + [] == I64(x.1);
    TakeI64(b, p + 8, x.1, []);
    assert |I64(x.1)| == 8 by { I64Length(x.1); }
  }

  lemma I64Length(v: int)
    ensures |I64(v)| == 8
  {
    hide Le;
  }

  lemma TakePairs(b: seq<byte>, p: nat, xs: seq<(nat, nat)>, rest: seq<byte>)
    requires PairsWf(xs) && At(b, p, PairsBytes(xs) + rest)
    ensures Pairs(b, p) == Some((xs, p + |PairsBytes(xs)|)) && At(b, p + |PairsBytes(xs)|, rest)
  {
    hide N; hide V; hide PairBytes; hide PairAt; hide Many; hide Flat;
    AtSplit(b, p, PairsBytes(xs), rest);
    TakeV(b, p, |xs|, Flat(xs, PairBytes));
    var out := (x: (nat, nat), q: nat) => x;
    forall i | 0 <= i < |xs|
      ensures Inverts(b, PairReader(b), xs[i], PairBytes, out)
    {
      forall q: nat | At(b, q, PairBytes(xs[i]))
        ensures PairReader(b)(q) == Some((out(xs[i], q), q + |PairBytes(xs[i])|))
      {
        PairOfBytes(b, q, xs[i]);
      }
    }
    ManyOfFlat(b, p + |N(|xs|)|, PairReader(b), xs, PairBytes, out);
    ReadBackIsSame(xs, PairBytes, out, p + |N(|xs|)|);
  }

  lemma TakeDeltas(b: seq<byte>, p: nat, xs: seq<(nat, int)>, rest: seq<byte>)
    requires DeltasWf(xs) && At(b, p, DeltasBytes(xs) + rest)
    ensures Deltas(b, p) == Some((xs, p + |DeltasBytes(xs)|)) && At(b, p + |DeltasBytes(xs)|, rest)
  {
    hide N; hide V; hide DeltaBytes; hide DeltaAt; hide Many; hide Flat;
    AtSplit(b, p, DeltasBytes(xs), rest);
    TakeV(b, p, |xs|, Flat(xs, DeltaBytes));
    var out := (x: (nat, int), q: nat) => x;
    forall i | 0 <= i < |xs|
      ensures Inverts(b, DeltaReader(b), xs[i], DeltaBytes, out)
    {
      forall q: nat | At(b, q, DeltaBytes(xs[i]))
        ensures DeltaReader(b)(q) == Some((out(xs[i], q), q + |DeltaBytes(xs[i])|))
      {
        DeltaOfBytes(b, q, xs[i]);
      }
    }
    ManyOfFlat(b, p + |N(|xs|)|, DeltaReader(b), xs, DeltaBytes, out);
    ReadBackIsSame(xs, DeltaBytes, out, p + |N(|xs|)|);
  }

  ghost predicate ReturnStands(b: seq<byte>, t: TailX, r: ActTail) {
    match t.returnValue
    case None => r.returnValue == None
    case Some(v) => r.returnValue.Some? && r.returnValue.value.1 == |v| && At(b, r.returnValue.value.0, v)
  }

  /** The byte ranges of a parsed action hold the bytes that were serialized. */
  ghost predicate ActStands(b: seq<byte>, a: ActX, r: Act) {
    && r.data.1 == |a.data| && At(b, r.data.0, a.data)
    && ReturnStands(b, a.tail, r.tail)
  }

  ghost predicate TxStands(b: seq<byte>, t: TxX, r: Tx) {
    |r.actions| == |t.actions| && forall j :: 0 <= j < |t.actions| ==> ActStands(b, t.actions[j], r.actions[j])
  }

  // Whole structures.

  lemma ReceiptOfBytes(b: seq<byte>, p: nat, r: ReceiptX)
    requires ReceiptWf(r) && At(b, p, ReceiptBytes(r))
    ensures ReceiptAt(b, p) == Some((ReceiptOf(r), p + |ReceiptBytes(r)|))
  {
    hide N; hide V; hide Le; hide FromLe; hide PairsBytes; hide Pairs; hide At; hide PairsWf; hide Pow256;
    Pow256Facts();
    var codes := N(r.codeSequence) + N(r.abiSequence);
    var auth := PairsBytes(r.authSequence) + codes;
    var recv := Le(8, r.recvSequence) + auth;
    var global := Le(8, r.globalSequence) + recv;
    TakeV(b, p, 0, Le(8, r.receiver) + (r.digest + global));
    var q := p + |N(0)|;
    TakeInt(b, q, 8, r.receiver, r.digest + global);
    AtSplit(b, q + 8, r.digest, global);
    assert Raw(b, q + 8, 32) == Some((r.digest, q + 40)) by { RawOf(b, q + 8, r.digest); }
    TakeInt(b, q + 40, 8, r.globalSequence, recv);
    TakeInt(b, q + 48, 8, r.recvSequence, auth);
    TakePairs(b, q + 56, r.authSequence, codes);
    var c := q + 56 + |PairsBytes(r.authSequence)|;
    TakeV(b, c, r.codeSequence, N(r.abiSequence));
    assert N(r.abiSequence) + [] == N(r.abiSequence);
    TakeV(b, c + |N(r.codeSequence)|, r.abiSequence, []);
  }

  lemma RawOf(b: seq<byte>, p: nat, s: seq<byte>)
    requires At(b, p, s)
    ensures Raw(b, p, |s|) == Some((s, p + |s|))
  {
  }

  lemma TakeOptReceipt(b: seq<byte>, p: nat, r: Option<ReceiptX>, rest: seq<byte>)
    requires (r.Some? ==> ReceiptWf(r.value)) && At(b, p, OptReceiptBytes(r) + rest)
    ensures OptReceiptAt(b, p) ==
      Some((if r.Some? then Some(ReceiptOf(r.value)) else None, p + |OptReceiptBytes(r)|))
    ensures At(b, p + |OptReceiptBytes(r)|, rest)
  {
    hide ReceiptBytes; hide ReceiptAt; hide ReceiptWf; hide ReceiptOf;
    AtSplit(b, p, OptReceiptBytes(r), rest);
    AtIndex(b, p, OptReceiptBytes(r), 0);
    if r.Some? {
      AtSplit(b, p, [1], ReceiptBytes(r.value));
      ReceiptOfBytes(b, p + 1, r.value);
    }
  }

  lemma TailOfBytes(b: seq<byte>, p: nat, t: TailX)
    requires TailWf(t) && At(b, p, TailBytes(t))
    ensures TailAt(b, p, t.returnValue.Some?) == Some((TailOf(t, p), p + |TailBytes(t)|))
    ensures ReturnStands(b, t, TailOf(t, p))
  {
    hide V; hide FromLe; hide Deltas; hide At; hide DeltasBytes; hide DeltasWf; hide Str; hide OptStr;
    hide OptLe8; hide SkipBytes; hide SkipOpt; hide Present; hide BytesRange; hide I64; hide Int; hide N;
    var ret := ReturnBytes(t.returnValue);
    var error := OptLe8(t.errorCode) + ret;
    var except := OptStr(t.except) + error;
    var ram := DeltasBytes(t.ramDeltas) + except;
    var console := Str(t.console) + ram;
    TakeByte(b, p, if t.contextFree then 1 else 0, I64(t.elapsed) + console);
    TakeI64(b, p + 1, t.elapsed, console);
    I64Length(t.elapsed);
    TakeStr(b, p + 9, t.console, ram);
    var p3 := p + 9 + |Str(t.console)|;
    TakeDeltas(b, p3, t.ramDeltas, except);
    var p4 := p3 + |DeltasBytes(t.ramDeltas)|;
    TakeOptStr(b, p4, t.except, error);
    var p5 := p4 + |OptStr(t.except)|;
    OptStrNone(t.except);
    TakeOptLe8(b, p5, t.errorCode, ret);
    var p6 := p5 + |OptLe8(t.errorCode)|;
    if t.returnValue.Some? {
      assert ret + [] == ret;
      TakeStr(b, p6, t.returnValue.value, []);
    }
  }

  lemma OptStrNone(s: Option<seq<byte>>)
    ensures s.None? ==> |OptStr(s)| == 1
  {
  }

  lemma ActOfBytes(b: seq<byte>, p: nat, a: ActX)
    requires ActWf(a) && At(b, p, ActBytes(a))
    ensures ActAt(b, p, a.tail.returnValue.Some?) == Some((ActOf(a, p), p + |ActBytes(a)|))
    ensures ActStands(b, a, ActOf(a, p))
  {
    hide N; hide V; hide Le; hide FromLe; hide PairsBytes; hide Pairs; hide At; hide PairsWf; hide Pow256;
    hide OptReceiptBytes; hide OptReceiptAt; hide Str; hide BytesRange; hide TailBytes; hide TailAt;
    hide TailOf; hide ReceiptWf; hide ReceiptOf; hide ReturnStands;
    Pow256Facts();
    var behind := Str(a.data) + TailBytes(a.tail);
    AtSplit(b, p, FrontBytes(a), behind);
    var auth := PairsBytes(a.authorization);
    var names := Le(8, a.receiver) + (Le(8, a.account) + (Le(8, a.name) + auth));
    var receipt := OptReceiptBytes(a.receipt) + names;
    TakeV(b, p, a.ordinal, N(a.creator) + receipt);
    TakeV(b, p + |N(a.ordinal)|, a.creator, receipt);
    var q := p + |N(a.ordinal)| + |N(a.creator)|;
    TakeOptReceipt(b, q, a.receipt, names);
    var r := q + |OptReceiptBytes(a.receipt)|;
    TakeInt(b, r, 8, a.receiver, Le(8, a.account) + (Le(8, a.name) + auth));
    TakeInt(b, r + 8, 8, a.account, Le(8, a.name) + auth);
    TakeInt(b, r + 16, 8, a.name, auth);
    assert auth + [] == auth;
    TakePairs(b, r + 24, a.authorization, []);
    var d := p + |FrontBytes(a)|;
    TakeStr(b, d, a.data, TailBytes(a.tail));
    TailOfBytes(b, d + |Str(a.data)|, a.tail);
  }

  /** An action with its variant, read back where it stood. */
  function VariantActOf(a: ActX, q: nat): Act {
    ActOf(a, q + |N(if a.tail.returnValue.Some? then 1 else 0)|)
  }

  lemma VariantActOfBytes(b: seq<byte>, p: nat, a: ActX)
    requires ActWf(a) && At(b, p, VariantActBytes(a))
    ensures VariantActAt(b, p) == Some((VariantActOf(a, p), p + |VariantActBytes(a)|))
    ensures ActStands(b, a, VariantActOf(a, p))
  {
    hide N; hide V; hide ActBytes; hide ActAt; hide ActWf; hide ActOf; hide At; hide ActStands;
    var v: nat := if a.tail.returnValue.Some? then 1 else 0;
    TakeV(b, p, v, ActBytes(a));
    ActOfBytes(b, p + |N(v)|, a);
  }

  lemma TakeActs(b: seq<byte>, p: nat, xs: seq<ActX>, rest: seq<byte>)
    requires |xs| < U32 && forall i :: 0 <= i < |xs| ==> ActWf(xs[i])
    requires At(b, p, (N(|xs|) + Flat(xs, VariantActBytes)) + rest)
    ensures Acts(b, p) ==
      Some((ReadBack(xs, VariantActBytes, VariantActOf, p + |N(|xs|)|), p + |N(|xs|) + Flat(xs, VariantActBytes)|))
    ensures At(b, p + |N(|xs|) + Flat(xs, VariantActBytes)|, rest)
  {
    hide N; hide V; hide VariantActBytes; hide VariantActAt; hide VariantActOf; hide Many; hide Flat;
    hide ActWf; hide At;
    AtSplit(b, p, N(|xs|) + Flat(xs, VariantActBytes), rest);
    TakeV(b, p, |xs|, Flat(xs, VariantActBytes));
    forall i | 0 <= i < |xs|
      ensures Inverts(b, ActReader(b), xs[i], VariantActBytes, VariantActOf)
    {
      forall q: nat | At(b, q, VariantActBytes(xs[i]))
        ensures ActReader(b)(q) == Some((VariantActOf(xs[i], q), q + |VariantActBytes(xs[i])|))
      {
        VariantActOfBytes(b, q, xs[i]);
      }
    }
    ManyOfFlat(b, p + |N(|xs|)|, ActReader(b), xs, VariantActBytes, VariantActOf);
  }

  // Partial transactions are skipped, whatever signatures they carry.

  lemma SkipWebAuthnBytes(b: seq<byte>, p: nat, bytes: seq<byte>, auth: seq<byte>, json: seq<byte>)
    requires |bytes| == 65 && |auth| < U32 && |json| < U32 && At(b, p, SignatureBytes(WebAuthn(bytes, auth, json)))
    ensures SkipSignature(b, p) == Some(p + |SignatureBytes(WebAuthn(bytes, auth, json))|)
  {
    hide Str; hide SkipBytes; hide At; hide Raw;
    TakeByte(b, p, 2, bytes + (Str(auth) + Str(json)));
    TakeRaw(b, p + 1, bytes, Str(auth) + Str(json));
    TakeStr(b, p + 66, auth, Str(json));
    assert Str(json) + [] == Str(json);
    TakeStr(b, p + 66 + |Str(auth)|, json, []);
  }

  lemma SkipSignatureBytes(b: seq<byte>, p: nat, s: Signature)
    requires SignatureWf(s) && At(b, p, SignatureBytes(s))
    ensures SkipSignature(b, p) == Some(p + |SignatureBytes(s)|)
  {
    hide Str; hide SkipBytes; hide At; hide Raw;
    match s {
      case Plain(tag, bytes) =>
        TakeByte(b, p, tag, bytes);
        assert bytes + [] == bytes;
        TakeRaw(b, p + 1, bytes, []);
      case WebAuthn(bytes, auth, json) =>
        SkipWebAuthnBytes(b, p, bytes, auth, json);
      case Edwards(bytes) =>
        TakeByte(b, p, 4, bytes);
        assert bytes + [] == bytes;
        TakeRaw(b, p + 1, bytes, []);
      case Bls(bytes) =>
        TakeByte(b, p, 5, [1] + bytes);
        TakeByte(b, p + 1, 1, bytes);
        assert bytes + [] == bytes;
        TakeRaw(b, p + 2, bytes, []);
    }
  }

  ghost predicate EachSkips<X>(b: seq<byte>, skip: nat -> Option<nat>, xs: seq<X>, enc: X -> seq<byte>) {
    forall i :: 0 <= i < |xs| ==> SkipsOver(b, skip, xs[i], enc)
  }

  lemma TakeList<X>(b: seq<byte>, p: nat, skip: nat -> Option<nat>, xs: seq<X>, enc: X -> seq<byte>, rest: seq<byte>)
    requires |xs| < U32 && EachSkips(b, skip, xs, enc)
    requires At(b, p, ListBytes(xs, enc) + rest)
    ensures SkipList(b, p, skip) == Some(p + |ListBytes(xs, enc)|)
    ensures At(b, p + |ListBytes(xs, enc)|, rest)
  {
    hide N; hide V; hide SkipMany; hide Flat; hide SkipsOver; hide At;
    AtSplit(b, p, ListBytes(xs, enc), rest);
    TakeV(b, p, |xs|, Flat(xs, enc));
    SkipManyOfFlat(b, p + |N(|xs|)|, skip, xs, enc);
  }

  /** Each item of the three lists of a partial transaction is stepped over exactly. */
  lemma PartialItems(b: seq<byte>, x: PartialX)
    requires PartialWf(x)
    ensures EachSkips(b, ExtensionSkipper(b), x.extensions, ExtensionBytes)
    ensures EachSkips(b, SignatureSkipper(b), x.signatures, SignatureBytes)
    ensures EachSkips(b, BytesSkipper(b), x.contextFreeData, Str)
  {
    hide Str; hide SkipBytes; hide At; hide SignatureBytes; hide SkipSignature;
    forall i | 0 <= i < |x.extensions|
      ensures SkipsOver(b, ExtensionSkipper(b), x.extensions[i], ExtensionBytes)
    {
      var e := x.extensions[i];
      forall q: nat | At(b, q, ExtensionBytes(e))
        ensures ExtensionSkipper(b)(q) == Some(q + |ExtensionBytes(e)|)
      {
        TakeRaw(b, q, e.0, Str(e.1));
        assert Str(e.1) + [] == Str(e.1);
        TakeStr(b, q + 2, e.1, []);
      }
    }
    forall i | 0 <= i < |x.signatures|
      ensures SkipsOver(b, SignatureSkipper(b), x.signatures[i], SignatureBytes)
    {
      forall q: nat | At(b, q, SignatureBytes(x.signatures[i]))
        ensures SignatureSkipper(b)(q) == Some(q + |SignatureBytes(x.signatures[i])|)
      {
        SkipSignatureBytes(b, q, x.signatures[i]);
      }
    }
    forall i | 0 <= i < |x.contextFreeData|
      ensures SkipsOver(b, BytesSkipper(b), x.contextFreeData[i], Str)
    {
      forall q: nat | At(b, q, Str(x.contextFreeData[i]))
        ensures BytesSkipper(b)(q) == Some(q + |Str(x.contextFreeData[i])|)
      {
        assert Str(x.contextFreeData[i]) + [] == Str(x.contextFreeData[i]);
        TakeStr(b, q, x.contextFreeData[i], []);
      }
    }
  }

  lemma TakeExtensions(b: seq<byte>, p: nat, x: PartialX, rest: seq<byte>)
    requires PartialWf(x) && At(b, p, ListBytes(x.extensions, ExtensionBytes) + rest)
    ensures SkipList(b, p, ExtensionSkipper(b)) == Some(p + |ListBytes(x.extensions, ExtensionBytes)|)
    ensures At(b, p + |ListBytes(x.extensions, ExtensionBytes)|, rest)
  {
    hide ListBytes; hide At; hide EachSkips; hide SkipList; hide ExtensionBytes; hide ExtensionSkipper;
    PartialItems(b, x);
    TakeList(b, p, ExtensionSkipper(b), x.extensions, ExtensionBytes, rest);
  }

  lemma TakeSignatures(b: seq<byte>, p: nat, x: PartialX, rest: seq<byte>)
    requires PartialWf(x) && At(b, p, ListBytes(x.signatures, SignatureBytes) + rest)
    ensures SkipList(b, p, SignatureSkipper(b)) == Some(p + |ListBytes(x.signatures, SignatureBytes)|)
    ensures At(b, p + |ListBytes(x.signatures, SignatureBytes)|, rest)
  {
    hide ListBytes; hide At; hide EachSkips; hide SkipList; hide SignatureBytes; hide SignatureSkipper;
    PartialItems(b, x);
    TakeList(b, p, SignatureSkipper(b), x.signatures, SignatureBytes, rest);
  }

  lemma TakeContextFreeData(b: seq<byte>, p: nat, x: PartialX, rest: seq<byte>)
    requires PartialWf(x) && At(b, p, ListBytes(x.contextFreeData, Str) + rest)
    ensures SkipList(b, p, BytesSkipper(b)) == Some(p + |ListBytes(x.contextFreeData, Str)|)
    ensures At(b, p + |ListBytes(x.contextFreeData, Str)|, rest)
  {
    hide ListBytes; hide At; hide EachSkips; hide SkipList; hide Str; hide BytesSkipper;
    PartialItems(b, x);
    TakeList(b, p, BytesSkipper(b), x.contextFreeData, Str, rest);
  }

  lemma SkipListsBytes(b: seq<byte>, p: nat, x: PartialX)
    requires PartialWf(x) && At(b, p, ListsBytes(x))
    ensures SkipLists(b, p) == Some(p + |ListsBytes(x)|)
  {
    hide ListBytes; hide At; hide SkipList; hide PartialWf;
    var data := ListBytes(x.contextFreeData, Str);
    var sigs := ListBytes(x.signatures, SignatureBytes);
    var exts := ListBytes(x.extensions, ExtensionBytes);
    TakeExtensions(b, p, x, sigs + data);
    TakeSignatures(b, p + |exts|, x, data);
    assert data + [] == data;
    TakeContextFreeData(b, p + |exts| + |sigs|, x, []);
  }

  lemma SkipPartialBytes(b: seq<byte>, p: nat, x: PartialX)
    requires PartialWf(x) && At(b, p, PartialBytes(x))
    ensures SkipPartial(b, p) == Some(p + |PartialBytes(x)|)
  {
    hide N; hide V; hide At; hide SkipLists; hide ListsBytes;
    TakeRaw(b, p, x.header, N(x.maxNet) + ([x.maxCpu] + (N(x.delay) + ListsBytes(x))));
    TakeV(b, p + 10, x.maxNet, [x.maxCpu] + (N(x.delay) + ListsBytes(x)));
    var q := p + 10 + |N(x.maxNet)|;
    TakeRaw(b, q, [x.maxCpu], N(x.delay) + ListsBytes(x));
    TakeV(b, q + 1, x.delay, ListsBytes(x));
    SkipListsBytes(b, q + 1 + |N(x.delay)|, x);
  }

  lemma SkipPartialPart(b: seq<byte>, p: nat, x: Option<PartialX>)
    requires (x.Some? ==> PartialWf(x.value)) && At(b, p, PartialPart(x))
    ensures Present(b, p) == Some((x.Some?, p + 1))
    ensures x.Some? ==> SkipV(b, p + 1).Some? && SkipPartial(b, SkipV(b, p + 1).value) == Some(p + |PartialPart(x)|)
    ensures x.None? ==> |PartialPart(x)| == 1
  {
    hide N; hide V; hide At; hide PartialBytes; hide SkipPartial; hide PartialWf;
    if x.Some? {
      TakeByte(b, p, 1, N(0) + PartialBytes(x.value));
      TakeV(b, p + 1, 0, PartialBytes(x.value));
      SkipPartialBytes(b, p + 1 + |N(0)|, x.value);
    } else {
      assert [0] + [] == PartialPart(x);
      TakeByte(b, p, 0, []);
    }
  }

  // Transactions.

  /** What the parser gives for `t` standing at `q`. */
  function TxOf(t: TxX, q: nat): Tx {
    Tx(t.id, t.cpu, t.net,
       ReadBack(t.actions, VariantActBytes, VariantActOf, q + 54 + |N(t.net)| + |N(|t.actions|)|))
  }

  lemma BodyOfBytes(b: seq<byte>, p: nat, t: TxX)
    requires HeadWf(t) && At(b, p, BodyBytes(t))
    ensures BodyAt(b, p) ==
      Some((ReadBack(t.actions, VariantActBytes, VariantActOf, p + |N(|t.actions|)|), p + |BodyBytes(t)|))
    ensures At(b, p + |N(|t.actions|)|, Flat(t.actions, VariantActBytes))
  {
    hide N; hide At; hide Flat; hide Acts; hide ReadBack; hide ActWf; hide SkipOpt; hide SkipOptBytes;
    hide OptStr; hide OptLe8; hide Opt;
    var tail := Opt(t.ramDelta) + (OptStr(t.except) + OptLe8(t.errorCode));
    TakeActs(b, p, t.actions, tail);
    AtSplit(b, p, N(|t.actions|) + Flat(t.actions, VariantActBytes), tail);
    AtSplit(b, p, N(|t.actions|), Flat(t.actions, VariantActBytes));
    var r := p + |N(|t.actions|) + Flat(t.actions, VariantActBytes)|;
    TakeOpt(b, r, t.ramDelta, 16, OptStr(t.except) + OptLe8(t.errorCode));
    TakeOptStr(b, r + |Opt(t.ramDelta)|, t.except, OptLe8(t.errorCode));
    assert OptLe8(t.errorCode) + [] == OptLe8(t.errorCode);
    TakeOptLe8(b, r + |Opt(t.ramDelta)| + |OptStr(t.except)|, t.errorCode, []);
  }

  lemma HeadOfBytes(b: seq<byte>, p: nat, t: TxX)
    requires HeadWf(t) && At(b, p, HeadBytes(t))
    ensures HeadAt(b, p) == Some((TxOf(t, p), p + |HeadBytes(t)|))
    ensures At(b, p + 54 + |N(t.net)| + |N(|t.actions|)|, Flat(t.actions, VariantActBytes))
  {
    hide Flat; hide N; hide V; hide Le; hide FromLe; hide At; hide BodyBytes; hide BodyAt; hide ReadBack;
    hide ActWf; hide Pow256;
    Pow256Facts();
    var sched := [if t.scheduled then 1 else 0] + BodyBytes(t);
    var usage := Le(8, t.netUsage) + sched;
    var elapsed := Le(8, t.elapsed) + usage;
    TakeRaw(b, p, t.id, [t.status] + (Le(4, t.cpu) + (N(t.net) + elapsed)));
    TakeRaw(b, p + 32, [t.status], Le(4, t.cpu) + (N(t.net) + elapsed));
    TakeInt(b, p + 33, 4, t.cpu, N(t.net) + elapsed);
    TakeV(b, p + 37, t.net, elapsed);
    var q := p + 37 + |N(t.net)|;
    TakeRaw(b, q, Le(8, t.elapsed), usage);
    TakeRaw(b, q + 8, Le(8, t.netUsage), sched);
    TakeRaw(b, q + 16, [if t.scheduled then 1 else 0], BodyBytes(t));
    BodyOfBytes(b, q + 17, t);
  }

  lemma SkipRestBytes(b: seq<byte>, p: nat, t: TxX)
    requires (t.partial.Some? ==> PartialWf(t.partial.value)) && At(b, p, RestBytes(t))
    requires t.failed.Some? ==>
      forall q: nat :: At(b, q, TxBytes(t.failed.value)) ==> SkipTx(b, q) == Some(q + |TxBytes(t.failed.value)|)
    ensures SkipRest(b, p) == Some(p + |RestBytes(t)|)
  {
    hide N; hide V; hide At; hide PartialWf; hide PartialPart; hide SkipPartial; hide TxBytes; hide SkipTx;
    AtSplit(b, p, FailedPart(t), PartialPart(t.partial));
    SkipPartialPart(b, p + |FailedPart(t)|, t.partial);
    if t.failed.Some? {
      TakeByte(b, p, 1, N(0) + TxBytes(t.failed.value));
      TakeV(b, p + 1, 0, TxBytes(t.failed.value));
    } else {
      assert [0] + [] == FailedPart(t);
      TakeByte(b, p, 0, []);
    }
  }

  /** A transaction, with its chain of failed traces, is read back and stepped over exactly. */
  lemma {:induction false} TxOfBytes(b: seq<byte>, p: nat, t: TxX)
    requires TxWf(t) && At(b, p, TxBytes(t))
    ensures TxAt(b, p) == Some((TxOf(t, p), p + |TxBytes(t)|))
    decreases t
  {
    hide At; hide HeadBytes; hide HeadAt; hide TxOf; hide HeadWf; hide PartialWf; hide SkipRest;
    hide RestBytes; hide SkipTx;
    AtSplit(b, p, HeadBytes(t), RestBytes(t));
    HeadOfBytes(b, p, t);
    if t.failed.Some? {
      var f := t.failed.value;
      forall q: nat | At(b, q, TxBytes(f))
        ensures SkipTx(b, q) == Some(q + |TxBytes(f)|)
      {
        TxOfBytes(b, q, f);
        TxSkips(b, q);
      }
    }
    SkipRestBytes(b, p + |HeadBytes(t)|, t);
  }

  function VariantTxOf(t: TxX, q: nat): Tx {
    TxOf(t, q + |N(0)|)
  }

  /** parse_block inverts the layout, nested failed traces included; what follows the list is not looked at. */
  lemma ParseInvertsLayout(txs: seq<TxX>, trailing: seq<byte>)
    requires |txs| < U32 && forall i :: 0 <= i < |txs| ==> TxWf(txs[i])
    ensures ParseBlock(BlockBytes(txs) + trailing) == Some(ReadBack(txs, VariantTxBytes, VariantTxOf, |N(|txs|)|))
  {
    hide N; hide V; hide At; hide Flat; hide Many; hide TxBytes; hide TxAt; hide TxWf; hide TxOf;
    var b := BlockBytes(txs) + trailing;
    assert At(b, 0, BlockBytes(txs) + trailing) by { AtWhole(b); }
    AtSplit(b, 0, BlockBytes(txs), trailing);
    TakeV(b, 0, |txs|, Flat(txs, VariantTxBytes));
    forall i | 0 <= i < |txs|
      ensures Inverts(b, TxReader(b), txs[i], VariantTxBytes, VariantTxOf)
    {
      forall q: nat | At(b, q, VariantTxBytes(txs[i]))
        ensures TxReader(b)(q) == Some((VariantTxOf(txs[i], q), q + |VariantTxBytes(txs[i])|))
      {
        TakeV(b, q, 0, TxBytes(txs[i]));
        TxOfBytes(b, q + |N(0)|, txs[i]);
      }
    }
    ManyOfFlat(b, |N(|txs|)|, TxReader(b), txs, VariantTxBytes, VariantTxOf);
  }

  lemma ActionStands(b: seq<byte>, p: nat, xs: seq<ActX>, j: nat)
    requires j < |xs| && ActWf(xs[j]) && At(b, p, Flat(xs, VariantActBytes))
    ensures ActStands(b, xs[j], ReadBack(xs, VariantActBytes, VariantActOf, p)[j])
  {
    hide At; hide ActStands; hide ReadBack; hide ActWf; hide VariantActOf; hide VariantActBytes; hide Flat;
    var q := ReadBackAt(b, xs, VariantActBytes, VariantActOf, p, j);
    VariantActOfBytes(b, q, xs[j]);
  }

  lemma ActionsStand(b: seq<byte>, p: nat, t: TxX)
    requires HeadWf(t) && At(b, p, HeadBytes(t))
    ensures TxStands(b, t, TxOf(t, p))
  {
    hide At; hide HeadBytes; hide ActStands; hide ReadBack; hide ActWf; hide VariantActOf;
    hide VariantActBytes; hide Flat; hide N; hide HeadAt;
    HeadOfBytes(b, p, t);
    forall j | 0 <= j < |t.actions|
      ensures ActStands(b, t.actions[j], TxOf(t, p).actions[j])
    {
      ActionStands(b, p + 54 + |N(t.net)| + |N(|t.actions|)|, t.actions, j);
    }
  }

  lemma BlockTxStands(b: seq<byte>, p: nat, txs: seq<TxX>, i: nat)
    requires i < |txs| && TxWf(txs[i]) && At(b, p, Flat(txs, VariantTxBytes))
    ensures TxStands(b, txs[i], ReadBack(txs, VariantTxBytes, VariantTxOf, p)[i])
  {
    hide At; hide TxStands; hide ReadBack; hide HeadBytes; hide RestBytes; hide Flat; hide HeadWf;
    hide PartialWf; hide TxOf; hide N;
    var q := ReadBackAt(b, txs, VariantTxBytes, VariantTxOf, p, i);
    AtSplit(b, q, N(0), TxBytes(txs[i]));
    AtSplit(b, q + |N(0)|, HeadBytes(txs[i]), RestBytes(txs[i]));
    ActionsStand(b, q + |N(0)|, txs[i]);
  }

  /** Every range of the result lies in the payload, over exactly the bytes it names. */
  lemma RangesStand(txs: seq<TxX>, trailing: seq<byte>, i: nat)
    requires |txs| < U32 && i < |txs| && forall k :: 0 <= k < |txs| ==> TxWf(txs[k])
    ensures var r := ParseBlock(BlockBytes(txs) + trailing);
            r.Some? && |r.value| == |txs| && TxStands(BlockBytes(txs) + trailing, txs[i], r.value[i])
  {
    hide At; hide Flat; hide TxBytes; hide TxWf; hide TxOf; hide N; hide ReadBack; hide ParseBlock;
    hide TxStands; hide VariantTxBytes; hide VariantTxOf;
    ParseInvertsLayout(txs, trailing);
    var b := BlockBytes(txs) + trailing;
    assert At(b, 0, BlockBytes(txs) + trailing) by { AtWhole(b); }
    AtSplit(b, 0, BlockBytes(txs), trailing);
    AtSplit(b, 0, N(|txs|), Flat(txs, VariantTxBytes));
    BlockTxStands(b, |N(|txs|)|, txs, i);
  }

  predicate AllWf(txs: seq<TxX>) {
    |txs| < U32 && forall i :: 0 <= i < |txs| ==> TxWf(txs[i])
  }

  /** `r` is what a node serialized as `txs`, field by field and range by range. */
  ghost predicate IsBlock(b: seq<byte>, txs: seq<TxX>, r: seq<Tx>) {
    && r == ReadBack(txs, VariantTxBytes, VariantTxOf, |N(|txs|)|)
    && forall i :: 0 <= i < |txs| ==> TxStands(b, txs[i], r[i])
  }

  lemma LayoutIsBlock(txs: seq<TxX>, trailing: seq<byte>)
    requires AllWf(txs)
    ensures var b := BlockBytes(txs) + trailing; ParseBlock(b).Some? && IsBlock(b, txs, ParseBlock(b).value)
  {
    hide BlockBytes; hide TxWf; hide ParseBlock; hide TxStands; hide VariantTxBytes; hide VariantTxOf; hide N;
    ParseInvertsLayout(txs, trailing);
    forall i: nat | i < |txs|
      ensures TxStands(BlockBytes(txs) + trailing, txs[i], ParseBlock(BlockBytes(txs) + trailing).value[i])
    {
      RangesStand(txs, trailing, i);
    }
  }
}
