/**
 The hand-walk of a `transaction_trace[]` payload: the parsing walkers and the skip-only ones, as
 functions of the payload and a position.
 */
module Trace {
  import opened Bytes
  import opened Parsing
  import Varuint

  const I64_LIMIT: int := 0x8000_0000_0000_0000

  function V(b: seq<byte>, p: nat): (r: Option<(nat, nat)>)
    ensures r.Some? ==> p < r.value.1 <= |b| && r.value.0 < U32
  {
    Varuint.Narrow(b, p)
  }

  /** Two's complement of a 64-bit pattern. */
  function Signed(v: nat): int {
    if v < I64_LIMIT then v else v - U64
  }

  function Skip(b: seq<byte>, p: nat, n: nat): (r: Option<nat>)
    ensures r.Some? ==> r.value == p + n <= |b|
  {
    if p + n <= |b| then Some(p + n) else None
  }

  function SkipV(b: seq<byte>, p: nat): (r: Option<nat>)
    ensures r.Some? ==> p < r.value <= |b|
  {
    var v :- V(b, p);
    Some(v.1)
  }

  /** A length and that many bytes: where the bytes are. */
  function BytesRange(b: seq<byte>, p: nat): (r: Option<((nat, nat), nat)>)
    ensures r.Some? ==> r.value.0.0 + r.value.0.1 == r.value.1 && p < r.value.1 <= |b|
  {
    var len :- V(b, p);
    var end :- Skip(b, len.1, len.0);
    Some(((len.1, len.0), end))
  }

  function SkipBytes(b: seq<byte>, p: nat): (r: Option<nat>)
    ensures r.Some? ==> p < r.value <= |b|
  {
    var len :- V(b, p);
    Skip(b, len.1, len.0)
  }

  /** The presence byte of an optional: present exactly when it is 1. */
  function Present(b: seq<byte>, p: nat): (r: Option<(bool, nat)>)
    ensures r.Some? ==> r.value.1 == p + 1 <= |b|
  {
    var x :- U8(b, p);
    Some((x.0 == 1, x.1))
  }

  function SkipOpt(b: seq<byte>, p: nat, n: nat): (r: Option<nat>)
    ensures r.Some? ==> p < r.value <= |b|
  {
    var x :- Present(b, p);
    if x.0 then Skip(b, x.1, n) else Some(x.1)
  }

  function SkipOptBytes(b: seq<byte>, p: nat): (r: Option<nat>)
    ensures r.Some? ==> p < r.value <= |b|
  {
    var x :- Present(b, p);
    if x.0 then SkipBytes(b, x.1) else Some(x.1)
  }

  /** Two u64: a name and a sequence number, or a name and a permission. */
  function PairAt(b: seq<byte>, p: nat): (r: Option<((nat, nat), nat)>)
    ensures r.Some? ==> r.value.1 == p + 16 <= |b|
  {
    var x :- Int(b, p, 8);
    var y :- Int(b, x.1, 8);
    Some(((x.0, y.0), y.1))
  }

  function DeltaAt(b: seq<byte>, p: nat): (r: Option<((nat, int), nat)>)
    ensures r.Some? ==> r.value.1 == p + 16 <= |b|
  {
    var x :- Int(b, p, 8);
    var y :- Int(b, x.1, 8);
    Some(((x.0, Signed(y.0)), y.1))
  }

  function PairReader(b: seq<byte>): nat -> Option<((nat, nat), nat)> { (q: nat) => PairAt(b, q) }
  function DeltaReader(b: seq<byte>): nat -> Option<((nat, int), nat)> { (q: nat) => DeltaAt(b, q) }
  function Skipper16(b: seq<byte>): nat -> Option<nat> { (q: nat) => Skip(b, q, 16) }

  /** A counted list of 16-byte items. */
  function Pairs(b: seq<byte>, p: nat): Option<(seq<(nat, nat)>, nat)> {
    var n :- V(b, p);
    Many(PairReader(b), n.1, n.0)
  }

  function Deltas(b: seq<byte>, p: nat): Option<(seq<(nat, int)>, nat)> {
    var n :- V(b, p);
    Many(DeltaReader(b), n.1, n.0)
  }

  function SkipPairs(b: seq<byte>, p: nat): (r: Option<nat>)
    ensures r.Some? ==> p < r.value <= |b|
  {
    var n :- V(b, p);
    Skip16s(b, n.1, n.0);
    SkipMany(Skipper16(b), n.1, n.0)
  }

  /** Skipping `n` items of 16 bytes moves by 16 each. */
  lemma {:induction false} Skip16s(b: seq<byte>, p: nat, n: nat)
    requires p <= |b|
    ensures SkipMany(Skipper16(b), p, n) == Skip(b, p, 16 * n)
    decreases n
  {
    if n > 0 && p + 16 <= |b| {
      Skip16s(b, p + 16, n - 1);
    }
  }

  // Receipts and actions.

  datatype Receipt = Receipt(receiver: nat, digest: seq<byte>, globalSequence: nat, recvSequence: nat,
                             authSequence: seq<(nat, nat)>, codeSequence: nat, abiSequence: nat)

  /** An action; `data` and `returnValue` are ranges of the payload. */
  datatype Act = Act(ordinal: nat, creator: nat, receipt: Option<Receipt>, receiver: nat, account: nat, name: nat,
                     authorization: seq<(nat, nat)>, data: (nat, nat), tail: ActTail)

  datatype ActTail = ActTail(contextFree: bool, elapsed: int, ramDeltas: seq<(nat, int)>, except: bool,
                             returnValue: Option<(nat, nat)>)

  function ReceiptAt(b: seq<byte>, p: nat): Option<(Receipt, nat)> {
    var variant :- V(b, p);
    var receiver :- Int(b, variant.1, 8);
    var digest :- Raw(b, receiver.1, 32);
    var global :- Int(b, digest.1, 8);
    var recv :- Int(b, global.1, 8);
    var auth :- Pairs(b, recv.1);
    var code :- V(b, auth.1);
    var abi :- V(b, code.1);
    Some((Receipt(receiver.0, digest.0, global.0, recv.0, auth.0, code.0, abi.0), abi.1))
  }

  function SkipReceipt(b: seq<byte>, p: nat): (r: Option<nat>)
    ensures r.Some? ==> p < r.value <= |b|
  {
    var p1 :- SkipV(b, p);
    var p2 :- Skip(b, p1, 56);
    var p3 :- SkipPairs(b, p2);
    var p4 :- SkipV(b, p3);
    SkipV(b, p4)
  }

  function OptReceiptAt(b: seq<byte>, p: nat): Option<(Option<Receipt>, nat)> {
    var x :- Present(b, p);
    if !x.0 then Some((None, x.1)) else
    var r :- ReceiptAt(b, x.1);
    Some((Some(r.0), r.1))
  }

  function SkipOptReceipt(b: seq<byte>, p: nat): (r: Option<nat>)
    ensures r.Some? ==> p < r.value <= |b|
  {
    var x :- Present(b, p);
    if x.0 then SkipReceipt(b, x.1) else Some(x.1)
  }

  /** From `context_free` to the end of an action trace. */
  function TailAt(b: seq<byte>, p: nat, v1: bool): Option<(ActTail, nat)> {
    var cf :- U8(b, p);
    var elapsed :- Int(b, cf.1, 8);
    var console :- SkipBytes(b, elapsed.1);
    var ram :- Deltas(b, console);
    var except :- Present(b, ram.1);
    var p5 :- (if except.0 then SkipBytes(b, except.1) else Some(except.1));
    var p6 :- SkipOpt(b, p5, 8);
    if !v1 then Some((ActTail(cf.0 != 0, Signed(elapsed.0), ram.0, except.0, None), p6)) else
    var ret :- BytesRange(b, p6);
    Some((ActTail(cf.0 != 0, Signed(elapsed.0), ram.0, except.0, Some(ret.0)), ret.1))
  }

  function SkipTail(b: seq<byte>, p: nat, v1: bool): (r: Option<nat>)
    ensures r.Some? ==> p < r.value <= |b|
  {
    var p1 :- Skip(b, p, 9);
    var p2 :- SkipBytes(b, p1);
    var p3 :- SkipPairs(b, p2);
    var p4 :- SkipOptBytes(b, p3);
    var p5 :- SkipOpt(b, p4, 8);
    if v1 then SkipBytes(b, p5) else Some(p5)
  }

  function ActAt(b: seq<byte>, p: nat, v1: bool): Option<(Act, nat)> {
    var ordinal :- V(b, p);
    var creator :- V(b, ordinal.1);
    var receipt :- OptReceiptAt(b, creator.1);
    var receiver :- Int(b, receipt.1, 8);
    var account :- Int(b, receiver.1, 8);
    var name :- Int(b, account.1, 8);
    var auth :- Pairs(b, name.1);
    var data :- BytesRange(b, auth.1);
    var tail :- TailAt(b, data.1, v1);
    Some((Act(ordinal.0, creator.0, receipt.0, receiver.0, account.0, name.0, auth.0, data.0, tail.0), tail.1))
  }

  function SkipAct(b: seq<byte>, p: nat, v1: bool): (r: Option<nat>)
    ensures r.Some? ==> p < r.value <= |b|
  {
    var p1 :- SkipV(b, p);
    var p2 :- SkipV(b, p1);
    var p3 :- SkipOptReceipt(b, p2);
    var p4 :- Skip(b, p3, 24);
    var p5 :- SkipPairs(b, p4);
    var p6 :- SkipBytes(b, p5);
    SkipTail(b, p6, v1)
  }

  /** The variant of an action trace and the trace. */
  function VariantActAt(b: seq<byte>, p: nat): Option<(Act, nat)> {
    var variant :- V(b, p);
    ActAt(b, variant.1, variant.0 == 1)
  }

  function SkipVariantAct(b: seq<byte>, p: nat): (r: Option<nat>)
    ensures r.Some? ==> p < r.value <= |b|
  {
    var variant :- V(b, p);
    SkipAct(b, variant.1, variant.0 == 1)
  }

  function ActReader(b: seq<byte>): nat -> Option<(Act, nat)> { (q: nat) => VariantActAt(b, q) }
  function ActSkipper(b: seq<byte>): nat -> Option<nat> { (q: nat) => SkipVariantAct(b, q) }

  lemma {:induction false} SkipManyForward(b: seq<byte>, item: nat -> Option<nat>, p: nat, n: nat)
    requires p <= |b| && forall q: nat :: item(q).Some? ==> q < item(q).value <= |b|
    ensures SkipMany(item, p, n).Some? ==> p <= SkipMany(item, p, n).value <= |b|
    decreases n
  {
    if n > 0 && item(p).Some? { SkipManyForward(b, item, item(p).value, n - 1); }
  }

  function SkipActs(b: seq<byte>, p: nat): (r: Option<nat>)
    ensures r.Some? ==> p < r.value <= |b|
  {
    var n :- V(b, p);
    SkipManyForward(b, ActSkipper(b), n.1, n.0);
    SkipMany(ActSkipper(b), n.1, n.0)
  }

  function Acts(b: seq<byte>, p: nat): Option<(seq<Act>, nat)> {
    var n :- V(b, p);
    Many(ActReader(b), n.1, n.0)
  }

  // Partial transactions.

  function SkipSignature(b: seq<byte>, p: nat): (r: Option<nat>)
    ensures r.Some? ==> p < r.value <= |b|
  {
    var tag :- U8(b, p);
    match tag.0
    case 0 => Skip(b, tag.1, 65)
    case 1 => Skip(b, tag.1, 65)
    case 2 =>
      var p1 :- Skip(b, tag.1, 65);
      var p2 :- SkipBytes(b, p1);
      SkipBytes(b, p2)
    case 3 => Skip(b, tag.1, 65)
    case 4 => Skip(b, tag.1, 96)
    case 5 =>
      var shared :- U8(b, tag.1);
      if shared.0 != 1 then None else Skip(b, shared.1, 192)
    case _ => None
  }

  function SkipExtension(b: seq<byte>, p: nat): (r: Option<nat>)
    ensures r.Some? ==> p < r.value <= |b|
  {
    var p1 :- Skip(b, p, 2);
    SkipBytes(b, p1)
  }

  function ExtensionSkipper(b: seq<byte>): nat -> Option<nat> { (q: nat) => SkipExtension(b, q) }
  function SignatureSkipper(b: seq<byte>): nat -> Option<nat> { (q: nat) => SkipSignature(b, q) }
  function BytesSkipper(b: seq<byte>): nat -> Option<nat> { (q: nat) => SkipBytes(b, q) }

  function SkipList(b: seq<byte>, p: nat, item: nat -> Option<nat>): Option<nat> {
    var n :- V(b, p);
    SkipMany(item, n.1, n.0)
  }

  function SkipLists(b: seq<byte>, p: nat): Option<nat> {
    var p1 :- SkipList(b, p, ExtensionSkipper(b));
    var p2 :- SkipList(b, p1, SignatureSkipper(b));
    SkipList(b, p2, BytesSkipper(b))
  }

  function SkipPartial(b: seq<byte>, p: nat): Option<nat> {
    var p1 :- Skip(b, p, 10);
    var p2 :- SkipV(b, p1);
    var p3 :- Skip(b, p2, 1);
    var p4 :- SkipV(b, p3);
    SkipLists(b, p4)
  }

  // Transactions.

  datatype Tx = Tx(id: seq<byte>, cpu: nat, net: nat, actions: seq<Act>)

  /** The actions and the three options after them. */
  function BodyAt(b: seq<byte>, p: nat): Option<(seq<Act>, nat)> {
    var actions :- Acts(b, p);
    var p1 :- SkipOpt(b, actions.1, 16);
    var p2 :- SkipOptBytes(b, p1);
    var p3 :- SkipOpt(b, p2, 8);
    Some((actions.0, p3))
  }

  /** Everything up to the optional failed trace. */
  function HeadAt(b: seq<byte>, p: nat): Option<(Tx, nat)> {
    var id :- Raw(b, p, 32);
    var p1 :- Skip(b, id.1, 1);
    var cpu :- Int(b, p1, 4);
    var net :- V(b, cpu.1);
    var p2 :- Skip(b, net.1, 8);
    var p3 :- Skip(b, p2, 8);
    var p4 :- Skip(b, p3, 1);
    var body :- BodyAt(b, p4);
    Some((Tx(id.0, cpu.0, net.0, body.0), body.1))
  }

  function SkipHead(b: seq<byte>, p: nat): (r: Option<nat>)
    ensures r.Some? ==> p < r.value <= |b|
  {
    var p1 :- Skip(b, p, 37);
    var p2 :- SkipV(b, p1);
    var p3 :- Skip(b, p2, 17);
    var p4 :- SkipActs(b, p3);
    var p5 :- SkipOpt(b, p4, 16);
    var p6 :- SkipOptBytes(b, p5);
    SkipOpt(b, p6, 8)
  }

  /** The optional failed trace, itself a whole transaction trace, and the optional partial one. */
  function SkipRest(b: seq<byte>, p: nat): Option<nat>
    decreases |b| - p, 0
  {
    var failed :- Present(b, p);
    var p1 :- (if !failed.0 then Some(failed.1) else
               var v :- SkipV(b, failed.1);
               SkipTx(b, v));
    var partial :- Present(b, p1);
    if !partial.0 then Some(partial.1) else
    var v :- SkipV(b, partial.1);
    SkipPartial(b, v)
  }

  function SkipTx(b: seq<byte>, p: nat): Option<nat>
    decreases |b| - p, 1
  {
    var p1 :- SkipHead(b, p);
    SkipRest(b, p1)
  }

  function TxAt(b: seq<byte>, p: nat): Option<(Tx, nat)> {
    var tx :- HeadAt(b, p);
    var end :- SkipRest(b, tx.1);
    Some((tx.0, end))
  }

  function VariantTxAt(b: seq<byte>, p: nat): Option<(Tx, nat)> {
    var variant :- V(b, p);
    TxAt(b, variant.1)
  }

  function TxReader(b: seq<byte>): nat -> Option<(Tx, nat)> { (q: nat) => VariantTxAt(b, q) }

  /** A whole block; trailing bytes are not looked at. */
  function BlockAt(b: seq<byte>): Option<(seq<Tx>, nat)> {
    var n :- V(b, 0);
    Many(TxReader(b), n.1, n.0)
  }

  function ParseBlock(b: seq<byte>): Option<seq<Tx>> {
    var r :- BlockAt(b);
    Some(r.0)
  }

  // Each skip walker stops exactly where its parsing counterpart does, or fails with it.

  lemma PairsSkip(b: seq<byte>, p: nat)
    ensures SameEnd(Pairs(b, p), SkipPairs(b, p))
    ensures SameEnd(Deltas(b, p), SkipPairs(b, p))
  {
    hide Varuint.Groups; hide FromLe; hide Many; hide SkipMany;
    var n := V(b, p);
    if n.Some? {
      ManySkips(PairReader(b), Skipper16(b), n.value.1, n.value.0);
      ManySkips(DeltaReader(b), Skipper16(b), n.value.1, n.value.0);
    }
  }

  lemma ReceiptSkips(b: seq<byte>, p: nat)
    ensures SameEnd(OptReceiptAt(b, p), SkipOptReceipt(b, p))
  {
    hide Varuint.Groups; hide FromLe; hide Pairs; hide SkipPairs; hide V;
    if p < |b| {
      var v := V(b, p + 1);
      if v.Some? { PairsSkip(b, v.value.1 + 56); }
    }
  }

  lemma TailSkips(b: seq<byte>, p: nat, v1: bool)
    ensures SameEnd(TailAt(b, p, v1), SkipTail(b, p, v1))
  {
    hide Varuint.Groups; hide FromLe; hide Deltas; hide SkipPairs; hide V;
    var p2 := SkipBytes(b, p + 9);
    if p2.Some? { PairsSkip(b, p2.value); }
  }

  lemma ActSkips(b: seq<byte>, p: nat, v1: bool)
    ensures SameEnd(ActAt(b, p, v1), SkipAct(b, p, v1))
  {
    hide Varuint.Groups; hide FromLe; hide Pairs; hide SkipPairs; hide V; hide OptReceiptAt;
    hide SkipOptReceipt; hide TailAt; hide SkipTail;
    var ordinal := V(b, p);
    if ordinal.Some? {
      var creator := V(b, ordinal.value.1);
      if creator.Some? {
        ReceiptSkips(b, creator.value.1);
        var p3 := SkipOptReceipt(b, creator.value.1);
        if p3.Some? {
          PairsSkip(b, p3.value + 24);
          var p5 := SkipPairs(b, p3.value + 24);
          if p5.Some? && SkipBytes(b, p5.value).Some? {
            TailSkips(b, SkipBytes(b, p5.value).value, v1);
          }
        }
      }
    }
  }

  lemma ActsSkip(b: seq<byte>, p: nat)
    ensures SameEnd(Acts(b, p), SkipActs(b, p))
  {
    hide Varuint.Groups; hide ActAt; hide SkipAct; hide Many; hide SkipMany; hide V;
    var n := V(b, p);
    if n.Some? {
      forall q: nat
        ensures SameEnd(ActReader(b)(q), ActSkipper(b)(q))
      {
        var variant := V(b, q);
        if variant.Some? { ActSkips(b, variant.value.1, variant.value.0 == 1); }
      }
      ManySkips(ActReader(b), ActSkipper(b), n.value.1, n.value.0);
    }
  }

  /** On every input the skipping and the parsing walk of a transaction end together. */
  lemma TxSkips(b: seq<byte>, p: nat)
    ensures SameEnd(TxAt(b, p), SkipTx(b, p))
  {
    hide Varuint.Groups; hide FromLe; hide Acts; hide SkipActs; hide V; hide SkipRest;
    if p + 37 <= |b| {
      var net := V(b, p + 37);
      if net.Some? { ActsSkip(b, net.value.1 + 17); }
    }
  }
}
