/** What the lookups answer, told from the transactions a node serialized. */
module WrittenLookup {
  import opened Bytes
  import opened Parsing
  import opened Trace
  import opened TraceLayout
  import opened Archive
  import opened ActionLookup
  import opened ActionBatch

  /** The log holds these transactions as block `n`, with anything after them. */
  predicate Written(log: Log, n: nat, txs: seq<TxX>, trailing: seq<byte>) {
    AllWf(txs) && log(n) == Some(BlockBytes(txs) + trailing)
  }

  /** An action that ran, without an exception, under the global sequence `gs`. */
  predicate RanAs(a: ActX, gs: nat) {
    a.tail.except == None && a.receipt.Some? && a.receipt.value.globalSequence == gs
  }

  /** Action `j` of transaction `t` comes before action `l` of transaction `s`. */
  predicate Earlier(t: nat, j: nat, s: nat, l: nat) {
    t < s || (t == s && j < l)
  }

  /** The first action that ran as `gs`. */
  predicate IsFirstWritten(txs: seq<TxX>, gs: nat, t: nat, j: nat) {
    && t < |txs| && j < |txs[t].actions| && RanAs(txs[t].actions[j], gs)
    && forall s: nat, l: nat :: s < |txs| && l < |txs[s].actions| && Earlier(s, l, t, j) ==>
         !RanAs(txs[s].actions[l], gs)
  }

  lemma {:induction false} ReadBackIs<X, T>(xs: seq<X>, enc: X -> seq<byte>, out: (X, nat) -> T, p: nat, i: nat)
      returns (q: nat)
    requires i < |xs|
    ensures ReadBack(xs, enc, out, p)[i] == out(xs[i], q)
    decreases i
  {
    if i == 0 { q := p; } else { q := ReadBackIs(xs[1..], enc, out, p + |enc(xs[0])|, i - 1); }
  }

  /** `r` is what parsing gives for the action `a`. */
  predicate Parsed(a: ActX, r: Act) {
    && r.account == a.account && r.name == a.name && r.tail.except == a.tail.except.Some?
    && r.receipt.Some? == a.receipt.Some?
    && (a.receipt.Some? ==> r.receipt.value.globalSequence == a.receipt.value.globalSequence)
  }

  lemma VariantIsParsed(a: ActX, q: nat)
    ensures Parsed(a, VariantActOf(a, q))
  {
  }

  lemma ParsedAnswers(a: ActX, r: Act, gs: nat)
    requires Parsed(a, r)
    ensures Matches(r, gs) <==> RanAs(a, gs)
  {
  }

  lemma TxIsParsed(t: TxX, q: nat, j: nat)
    requires j < |t.actions|
    ensures |TxOf(t, q).actions| == |t.actions| && Parsed(t.actions[j], TxOf(t, q).actions[j])
  {
    hide Parsed; hide VariantActOf; hide VariantActBytes; hide N;
    var e := ReadBackIs(t.actions, VariantActBytes, VariantActOf, q + 54 + |N(t.net)| + |N(|t.actions|)|, j);
    VariantIsParsed(t.actions[j], e);
  }

  /** What the block's payload parses to, action by action. */
  predicate ParsedAs(b: seq<byte>, txs: seq<TxX>, r: seq<Tx>) {
    |r| == |txs| && forall t: nat :: t < |txs| ==> TxParsedAs(b, txs[t], r[t])
  }

  predicate TxParsedAs(b: seq<byte>, t: TxX, r: Tx) {
    |r.actions| == |t.actions| && forall j: nat :: j < |t.actions| ==>
      Parsed(t.actions[j], r.actions[j]) && r.actions[j].data.1 == |t.actions[j].data|
      && At(b, r.actions[j].data.0, t.actions[j].data)
  }

  lemma WrittenIsParsed(txs: seq<TxX>, trailing: seq<byte>)
    requires AllWf(txs)
    ensures
      var b := BlockBytes(txs) + trailing;
      b != [] && ParseBlock(b).Some? && ParsedAs(b, txs, ParseBlock(b).value)
  {
    hide BlockBytes; hide ParseBlock; hide VariantTxBytes; hide N; hide At; hide Parsed; hide AllWf; hide TxOf;
    hide ReturnStands;
    var b := BlockBytes(txs) + trailing;
    LayoutIsBlock(txs, trailing);
    BlockIsNotEmpty(txs);
    var r := ParseBlock(b).value;
    forall t: nat | t < |txs|
      ensures TxParsedAs(b, txs[t], r[t])
    {
      var q := ReadBackIs(txs, VariantTxBytes, VariantTxOf, |N(|txs|)|, t);
      assert TxStands(b, txs[t], r[t]);
      forall j: nat | j < |txs[t].actions|
        ensures Parsed(txs[t].actions[j], r[t].actions[j])
      {
        TxIsParsed(txs[t], q + |N(0)|, j);
      }
    }
  }

  lemma BlockIsNotEmpty(txs: seq<TxX>)
    ensures BlockBytes(txs) != []
  {
  }

  // Flattening and the first match.

  lemma {:induction false} FlattenHas(txs: seq<Tx>, a: Act) returns (t: nat, j: nat)
    requires a in Flatten(txs)
    ensures t < |txs| && j < |txs[t].actions| && txs[t].actions[j] == a
    decreases |txs|
  {
    var n := |txs| - 1;
    if a in txs[n].actions {
      t := n;
      j :| 0 <= j < |txs[n].actions| && txs[n].actions[j] == a;
    } else {
      t, j := FlattenHas(txs[..n], a);
    }
  }

  lemma NoMatchNoFirst(acts: seq<Act>, gs: nat)
    requires forall a :: a in acts ==> !Matches(a, gs)
    ensures First(acts, gs) == None
  {
    hide Matches; hide First;
    FirstByPosition(acts, gs);
  }

  lemma FirstAt(txs: seq<Tx>, gs: nat, t: nat, j: nat)
    requires t < |txs| && j < |txs[t].actions| && Matches(txs[t].actions[j], gs)
    requires forall s: nat, l: nat :: s < |txs| && l < |txs[s].actions| && Earlier(s, l, t, j) ==>
               !Matches(txs[s].actions[l], gs)
    ensures First(Flatten(txs), gs) == Some(txs[t].actions[j])
  {
    hide Matches; hide First; hide Flatten; hide FlattenRest;
    var before, acts := Flatten(txs[..t]), txs[t].actions;
    forall a | a in before + acts[..j]
      ensures !Matches(a, gs)
    {
      if a in before {
        var s, l := FlattenHas(txs[..t], a);
        assert Earlier(s, l, t, j) && txs[s].actions[l] == a;
      } else {
        var l: nat :| l < j && acts[..j][l] == a;
        assert Earlier(t, l, t, j) && txs[t].actions[l] == a;
      }
    }
    NoMatchNoFirst(before + acts[..j], gs);
    FirstSnoc(before + acts[..j], acts[j], gs);
    assert before + acts[..j + 1] == (before + acts[..j]) + [acts[j]];
    FlattenParts(txs, t, j + 1);
    FirstStays(before + acts[..j + 1], FlattenRest(txs, t, j + 1), gs);
  }

  /** The lookup answers with the first action written that ran as `gs`: its contract, its name, its bytes. */
  lemma LookupFindsTheAction(log: Log, range: Range, n: nat, gs: nat, txs: seq<TxX>, trailing: seq<byte>, t: nat,
                             j: nat)
    requires Written(log, n, txs, trailing) && range.Has(n) && IsFirstWritten(txs, gs, t, j)
    ensures
      var a := txs[t].actions[j];
      Single(log, range, n, gs) == Hit(Found(a.account, a.name, a.data))
  {
    hide BlockBytes; hide ParseBlock; hide First; hide Flatten; hide AllWf; hide RanAs; hide Matches; hide Parsed;
    hide DataInside;
    var b := BlockBytes(txs) + trailing;
    WrittenIsParsed(txs, trailing);
    var r := ParseBlock(b).value;
    assert TxParsedAs(b, txs[t], r[t]);
    forall s: nat, l: nat | s < |txs| && l < |txs[s].actions|
      ensures |r[s].actions| == |txs[s].actions| && (Matches(r[s].actions[l], gs) <==> RanAs(txs[s].actions[l], gs))
    {
      assert TxParsedAs(b, txs[s], r[s]);
      ParsedAnswers(txs[s].actions[l], r[s].actions[l], gs);
    }
    FirstAt(r, gs, t, j);
    ReadIsInside(log, n);
    AnswerOf(BlockData(b, r), gs);
    ParsedNames(txs[t].actions[j], r[t].actions[j]);
  }

  lemma ParsedNames(a: ActX, r: Act)
    requires Parsed(a, r)
    ensures r.account == a.account && r.name == a.name
  {
  }

  /** And with nothing exactly if there is none. */
  lemma LookupFindsNothing(log: Log, range: Range, n: nat, gs: nat, txs: seq<TxX>, trailing: seq<byte>)
    requires Written(log, n, txs, trailing) && range.Has(n)
    requires forall t: nat, j: nat :: t < |txs| && j < |txs[t].actions| ==> !RanAs(txs[t].actions[j], gs)
    ensures Single(log, range, n, gs) == NoAction
  {
    hide BlockBytes; hide ParseBlock; hide First; hide Flatten; hide AllWf; hide RanAs; hide Matches; hide Parsed;
    hide DataInside;
    var b := BlockBytes(txs) + trailing;
    WrittenIsParsed(txs, trailing);
    var r := ParseBlock(b).value;
    forall a | a in Flatten(r)
      ensures !Matches(a, gs)
    {
      var t, j := FlattenHas(r, a);
      assert TxParsedAs(b, txs[t], r[t]);
      ParsedAnswers(txs[t].actions[j], a, gs);
    }
    NoMatchNoFirst(Flatten(r), gs);
    ReadIsInside(log, n);
  }

  /** So a batch item for it is resolved to the same action. */
  lemma BatchFindsTheAction(log: Log, range: Range, it: Item, txs: seq<TxX>, trailing: seq<byte>, t: nat, j: nat)
    requires Written(log, it.block, txs, trailing) && range.Has(it.block) && IsFirstWritten(txs, it.gs, t, j)
    ensures
      var a := txs[t].actions[j];
      Expected(log, range, it) == Some(Resolved(it.block, it.gs, a.account, a.name, a.data))
  {
    hide Written; hide IsFirstWritten; hide Single;
    LookupFindsTheAction(log, range, it.block, it.gs, txs, trailing, t, j);
    assert t < |txs| && j < |txs[t].actions| by { FirstIsThere(txs, it.gs, t, j); }
  }

  lemma FirstIsThere(txs: seq<TxX>, gs: nat, t: nat, j: nat)
    requires IsFirstWritten(txs, gs, t, j)
    ensures t < |txs| && j < |txs[t].actions|
  {
  }
}
