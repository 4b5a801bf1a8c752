/** The block cache and the single-action lookup. */
module ActionLookup {
  import opened Bytes
  import opened Trace
  import opened Archive
  import opened TraceBounds

  predicate DataInside(d: BlockData) {
    forall i :: 0 <= i < |d.txs| ==> TxInside(|d.inflated|, d.txs[i])
  }

  predicate ReadInside(r: Option<BlockData>) {
    r.Some? ==> DataInside(r.value)
  }

  lemma ReadIsInside(log: Log, n: nat)
    ensures ReadBlock(log, n).Some? ==> ReadInside(ReadBlock(log, n).value)
  {
    hide ParseBlock;
    if log(n).Some? { ParseIsInside(log(n).value); }
  }

  datatype Found = Found(code: nat, name: nat, data: seq<byte>)

  predicate Matches(a: Act, gs: nat) {
    !a.tail.except && a.receipt.Some? && a.receipt.value.globalSequence == gs
  }

  function Flatten(txs: seq<Tx>): seq<Act> {
    if txs == [] then [] else Flatten(txs[..|txs| - 1]) + txs[|txs| - 1].actions
  }

  /** The first action that answers `gs`. */
  function First(acts: seq<Act>, gs: nat): Option<Act> {
    if acts == [] then None else
    var earlier := First(acts[..|acts| - 1], gs);
    if earlier.Some? then earlier
    else if Matches(acts[|acts| - 1], gs) then Some(acts[|acts| - 1]) else None
  }

  predicate IsFirst(acts: seq<Act>, gs: nat, i: int) {
    0 <= i < |acts| && Matches(acts[i], gs) && forall j :: 0 <= j < i ==> !Matches(acts[j], gs)
  }

  /** `First`, by position: some action answers, and it is the one no earlier action answers before. */
  lemma {:induction false} FirstByPosition(acts: seq<Act>, gs: nat)
    ensures First(acts, gs).None? ==> forall j :: 0 <= j < |acts| ==> !Matches(acts[j], gs)
    ensures First(acts, gs).Some? ==> exists i :: IsFirst(acts, gs, i) && acts[i] == First(acts, gs).value
    decreases |acts|
  {
    if acts != [] {
      var init := acts[..|acts| - 1];
      FirstByPosition(init, gs);
      if First(init, gs).Some? {
        var i :| IsFirst(init, gs, i) && init[i] == First(init, gs).value;
        assert IsFirst(acts, gs, i);
      } else if Matches(acts[|acts| - 1], gs) {
        assert IsFirst(acts, gs, |acts| - 1);
      }
    }
  }

  lemma FirstSnoc(acts: seq<Act>, a: Act, gs: nat)
    ensures First(acts + [a], gs) ==
            if First(acts, gs).Some? then First(acts, gs) else if Matches(a, gs) then Some(a) else None
  {
    assert (acts + [a])[..|acts|] == acts;
  }

  lemma FirstStays(acts: seq<Act>, more: seq<Act>, gs: nat)
    requires First(acts, gs).Some?
    ensures First(acts + more, gs) == First(acts, gs)
    decreases |more|
  {
    if more == [] {
      assert acts + more == acts;
    } else {
      FirstStays(acts, more[..|more| - 1], gs);
      assert acts + more == (acts + more[..|more| - 1]) + [more[|more| - 1]];
      FirstSnoc(acts + more[..|more| - 1], more[|more| - 1], gs);
    }
  }

  predicate AllInside(n: nat, acts: seq<Act>) {
    forall i :: 0 <= i < |acts| ==> ActInside(n, acts[i])
  }

  lemma {:induction false} FlattenInside(n: nat, txs: seq<Tx>)
    requires forall i :: 0 <= i < |txs| ==> TxInside(n, txs[i])
    ensures AllInside(n, Flatten(txs))
    decreases |txs|
  {
    hide ActInside;
    if txs != [] { FlattenInside(n, txs[..|txs| - 1]); }
  }

  lemma {:induction false} FirstInside(n: nat, acts: seq<Act>, gs: nat)
    requires AllInside(n, acts) && First(acts, gs).Some?
    ensures ActInside(n, First(acts, gs).value)
    decreases |acts|
  {
    hide ActInside;
    if First(acts[..|acts| - 1], gs).Some? { FirstInside(n, acts[..|acts| - 1], gs); }
  }

  /** What a block answers to `gs`: the action, and its data bytes. */
  function Answer(d: BlockData, gs: nat): Option<Found>
    requires DataInside(d)
  {
    var a :- First(Flatten(d.txs), gs);
    FlattenInside(|d.inflated|, d.txs);
    FirstInside(|d.inflated|, Flatten(d.txs), gs);
    Some(Found(a.account, a.name, d.inflated[a.data.0..a.data.0 + a.data.1]))
  }

  /** The outcomes of the single lookup: 416, 500, 404, 404 and 200. */
  datatype Reply = OutOfRange | Fault | NoBlock | NoAction | Hit(found: Found)

  function Single(log: Log, range: Range, n: nat, gs: nat): Reply {
    if !range.Has(n) then OutOfRange else
    match ReadBlock(log, n)
    case None => Fault
    case Some(None) => NoBlock
    case Some(Some(d)) =>
      ReadIsInside(log, n);
      match Answer(d, gs)
      case None => NoAction
      case Some(f) => Hit(f)
  }

  /** A bounded ring of blocks read before; empty reads are kept too. */
  class BlockCache {
    const log: Log
    const cap: nat
    var slots: seq<(nat, Option<BlockData>)>
    var next: nat

    constructor (log: Log, cap: nat)
      ensures Valid() && this.log == log && this.cap == (if cap == 0 then 1 else cap) && slots == []
    {
      this.log, this.cap, slots, next := log, if cap == 0 then 1 else cap, [], 0;
    }

    /** Within the bound, no block twice, and every slot holds what the log holds. */
    ghost predicate Valid()
      reads this
    {
      && |slots| <= cap && next < cap
      && (forall i, j :: 0 <= i < j < |slots| ==> slots[i].0 != slots[j].0)
      && forall i :: 0 <= i < |slots| ==> ReadBlock(log, slots[i].0) == Some(slots[i].1)
    }

    method Find(n: nat) returns (r: Option<nat>)
      ensures r.Some? ==> r.value < |slots| && slots[r.value].0 == n
      ensures r.None? ==> forall i :: 0 <= i < |slots| ==> slots[i].0 != n
    {
      for i := 0 to |slots|
        invariant forall j :: 0 <= j < i ==> slots[j].0 != n
      {
        if slots[i].0 == n { return Some(i); }
      }
      return None;
    }

    /** An old copy is replaced; else a free slot is taken; else the next in turn is overwritten. */
    method Insert(n: nat, data: Option<BlockData>) returns (i: nat)
      requires Valid() && ReadBlock(log, n) == Some(data)
      modifies this
      ensures Valid() && i < |slots| && slots[i] == (n, data)
      ensures |slots| == |old(slots)| || (|old(slots)| < cap && |slots| == |old(slots)| + 1)
      ensures forall j :: 0 <= j < |old(slots)| && j != i ==> slots[j] == old(slots[j])
    {
      hide ReadBlock;
      var at := Find(n);
      if at.Some? {
        slots := slots[at.value := (n, data)];
        return at.value;
      }
      if |slots| < cap {
        slots := slots + [(n, data)];
        return |slots| - 1;
      }
      i := next;
      slots := slots[i := (n, data)];
      next := if next + 1 == cap then 0 else next + 1;
    }

    /** The slot that holds block `n`, read if need be; `None` exactly when reading it faults. */
    method GetOrRead(n: nat) returns (r: Option<nat>)
      requires Valid()
      modifies this
      ensures Valid()
      ensures r.None? <==> ReadBlock(log, n).None?
      ensures r.None? ==> slots == old(slots)
      ensures r.Some? ==> r.value < |slots| && ReadBlock(log, n) == Some(slots[r.value].1)
    {
      hide ReadBlock;
      r := Find(n);
      if r.Some? { return; }
      var data := ReadBlock(log, n);
      if data.None? { return None; }
      var i := Insert(n, data.value);
      return Some(i);
    }
  }

  method FindAction(txs: seq<Tx>, gs: nat) returns (r: Option<Act>)
    ensures r == First(Flatten(txs), gs)
  {
    hide Flatten; hide Matches; hide First;
    FlattenStart(txs, gs);
    for t := 0 to |txs|
      invariant First(Flatten(txs[..t]), gs) == None
    {
      var actions := txs[t].actions;
      var seen := Flatten(txs[..t]);
      assert seen + actions[..0] == seen;
      for i := 0 to |actions|
        invariant First(seen + actions[..i], gs) == None
      {
        assert seen + actions[..i + 1] == (seen + actions[..i]) + [actions[i]];
        FirstSnoc(seen + actions[..i], actions[i], gs);
        if Matches(actions[i], gs) {
          FlattenParts(txs, t, i + 1);
          FirstStays(seen + actions[..i + 1], FlattenRest(txs, t, i + 1), gs);
          return Some(actions[i]);
        }
      }
      assert actions[..|actions|] == actions;
      FlattenSnoc(txs, t);
    }
    assert txs[..|txs|] == txs;
    return None;
  }

  lemma FlattenStart(txs: seq<Tx>, gs: nat)
    ensures Flatten(txs[..0]) == [] && First([], gs) == None
  {
  }

  lemma FlattenSnoc(txs: seq<Tx>, t: nat)
    requires t < |txs|
    ensures Flatten(txs[..t + 1]) == Flatten(txs[..t]) + txs[t].actions
  {
    assert txs[..t + 1][..t] == txs[..t];
  }

  /** The actions from position `i` of transaction `t` on. */
  ghost function FlattenRest(txs: seq<Tx>, t: nat, i: nat): seq<Act>
    requires t < |txs| && i <= |txs[t].actions|
  {
    txs[t].actions[i..] + FlattenFrom(txs, t + 1)
  }

  ghost function FlattenFrom(txs: seq<Tx>, t: nat): seq<Act>
    requires t <= |txs|
    decreases |txs| - t
  {
    if t == |txs| then [] else txs[t].actions + FlattenFrom(txs, t + 1)
  }

  lemma {:induction false} FlattenSplits(txs: seq<Tx>, t: nat)
    requires t <= |txs|
    ensures Flatten(txs) == Flatten(txs[..t]) + FlattenFrom(txs, t)
    decreases |txs| - t
  {
    hide Flatten;
    if t < |txs| {
      FlattenSplits(txs, t + 1);
      FlattenSnoc(txs, t);
      assert Flatten(txs[..t + 1]) + FlattenFrom(txs, t + 1)
          == Flatten(txs[..t]) + (txs[t].actions + FlattenFrom(txs, t + 1));
    } else {
      assert txs[..t] == txs;
    }
  }

  lemma FlattenParts(txs: seq<Tx>, t: nat, i: nat)
    requires t < |txs| && i <= |txs[t].actions|
    ensures Flatten(txs) == (Flatten(txs[..t]) + txs[t].actions[..i]) + FlattenRest(txs, t, i)
  {
    hide Flatten;
    FlattenSplits(txs, t);
    assert txs[t].actions == txs[t].actions[..i] + txs[t].actions[i..];
  }

  /** The single-action handler: what it answers depends on the log alone, not on what the cache holds. */
  method HandleAction(c: BlockCache, range: Range, n: nat, gs: nat) returns (r: Reply)
    requires c.Valid()
    modifies c
    ensures c.Valid() && r == Single(c.log, range, n, gs)
  {
    hide ReadBlock; hide First; hide Flatten; hide DataInside;
    if !range.Has(n) { return OutOfRange; }
    var slot := c.GetOrRead(n);
    if slot.None? { return Fault; }
    var block := c.slots[slot.value].1;
    if block.None? { return NoBlock; }
    var a := FindAction(block.value.txs, gs);
    if a.None? { return NoAction; }
    ReadIsInside(c.log, n);
    AnswerOf(block.value, gs);
    var (off, len) := a.value.data;
    return Hit(Found(a.value.account, a.value.name, block.value.inflated[off..off + len]));
  }

  lemma AnswerOf(d: BlockData, gs: nat)
    requires DataInside(d) && First(Flatten(d.txs), gs).Some?
    ensures var a := First(Flatten(d.txs), gs).value;
            a.data.0 + a.data.1 <= |d.inflated|
            && Answer(d, gs) == Some(Found(a.account, a.name, d.inflated[a.data.0..a.data.0 + a.data.1]))
  {
    FlattenInside(|d.inflated|, d.txs);
    FirstInside(|d.inflated|, Flatten(d.txs), gs);
  }
}
