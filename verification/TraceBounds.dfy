/** Every range a parse gives lies in the payload, whatever the payload. */
module TraceBounds {
  import opened Bytes
  import opened Parsing
  import opened Trace

  predicate ActInside(n: nat, a: Act) {
    && a.data.0 + a.data.1 <= n
    && (a.tail.returnValue.Some? ==> a.tail.returnValue.value.0 + a.tail.returnValue.value.1 <= n)
  }

  predicate TxInside(n: nat, t: Tx) {
    forall j :: 0 <= j < |t.actions| ==> ActInside(n, t.actions[j])
  }

  lemma ActAtInside(b: seq<byte>, p: nat, v1: bool)
    ensures ActAt(b, p, v1).Some? ==> ActInside(|b|, ActAt(b, p, v1).value.0)
  {
    hide V; hide FromLe; hide Pairs; hide OptReceiptAt; hide BytesRange; hide SkipBytes; hide Deltas; hide SkipOpt;
  }

  lemma {:induction false} ManyAll<T>(item: nat -> Option<(T, nat)>, p: nat, n: nat, ok: T -> bool)
    requires forall q: nat :: item(q).Some? ==> ok(item(q).value.0)
    ensures Many(item, p, n).Some? ==> forall i :: 0 <= i < n ==> ok(Many(item, p, n).value.0[i])
    decreases n
  {
    if n > 0 && item(p).Some? { ManyAll(item, item(p).value.1, n - 1, ok); }
  }

  function ActTest(n: nat): Act -> bool { (a: Act) => ActInside(n, a) }
  function TxTest(n: nat): Tx -> bool { (t: Tx) => TxInside(n, t) }

  lemma ActsInside(b: seq<byte>, p: nat)
    ensures Acts(b, p).Some? ==> forall i :: 0 <= i < |Acts(b, p).value.0| ==> ActInside(|b|, Acts(b, p).value.0[i])
  {
    hide V; hide ActAt; hide Many; hide ActInside;
    if V(b, p).Some? {
      var n := V(b, p).value;
      forall q: nat | ActReader(b)(q).Some?
        ensures ActTest(|b|)(ActReader(b)(q).value.0)
      {
        var variant := V(b, q).value;
        ActAtInside(b, variant.1, variant.0 == 1);
      }
      ManyAll(ActReader(b), n.1, n.0, ActTest(|b|));
      if Acts(b, p).Some? {
        forall i | 0 <= i < |Acts(b, p).value.0|
          ensures ActInside(|b|, Acts(b, p).value.0[i])
        {
          assert ActTest(|b|)(Acts(b, p).value.0[i]);
        }
      }
    }
  }

  lemma TxAtInside(b: seq<byte>, p: nat)
    ensures TxAt(b, p).Some? ==> TxInside(|b|, TxAt(b, p).value.0)
  {
    hide V; hide FromLe; hide Acts; hide ActInside; hide SkipRest; hide SkipOpt; hide SkipOptBytes;
    if TxAt(b, p).Some? {
      ActsInside(b, V(b, p + 37).value.1 + 17);
    }
  }

  /** No slice of a parsed block can go out of bounds. */
  lemma ParseIsInside(b: seq<byte>)
    ensures ParseBlock(b).Some? ==> forall i :: 0 <= i < |ParseBlock(b).value| ==> TxInside(|b|, ParseBlock(b).value[i])
  {
    hide V; hide TxAt; hide Many; hide TxInside;
    if ParseBlock(b).Some? {
      var n := V(b, 0).value;
      forall q: nat | TxReader(b)(q).Some?
        ensures TxTest(|b|)(TxReader(b)(q).value.0)
      {
        TxAtInside(b, V(b, q).value.1);
      }
      ManyAll(TxReader(b), n.1, n.0, TxTest(|b|));
      forall i | 0 <= i < |ParseBlock(b).value|
        ensures TxInside(|b|, ParseBlock(b).value[i])
      {
        assert TxTest(|b|)(ParseBlock(b).value[i]);
      }
    }
  }
}
