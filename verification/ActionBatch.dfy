/** Looking many actions up at once, each block read once. */
module ActionBatch {
  import opened Bytes
  import opened Trace
  import opened Archive
  import opened ActionLookup

  const MAX_BLOCKS: nat := 4096

  datatype Item = Item(block: nat, gs: nat)
  datatype Resolved = Resolved(block: nat, gs: nat, code: nat, name: nat, data: seq<byte>)

  /** What the single lookup finds for an item. */
  function Expected(log: Log, range: Range, it: Item): Option<Resolved> {
    match Single(log, range, it.block, it.gs)
    case Hit(f) => Some(Resolved(it.block, it.gs, f.code, f.name, f.data))
    case _ => None
  }

  // Input positions grouped by block, an ordered map as its ascending list of entries.

  type Group = (nat, seq<nat>)

  function Add(m: seq<Group>, b: nat, i: nat): (r: seq<Group>)
    ensures |r| > 0
  {
    if m == [] || b < m[0].0 then [(b, [i])] + m
    else if b == m[0].0 then [(b, m[0].1 + [i])] + m[1..]
    else [m[0]] + Add(m[1..], b, i)
  }

  function GroupsOf(items: seq<Item>, range: Range): seq<Group> {
    if items == [] then [] else
    var k := |items| - 1;
    var m := GroupsOf(items[..k], range);
    if range.Has(items[k].block) then Add(m, items[k].block, k) else m
  }

  predicate Ascends(m: seq<Group>) {
    forall i, j :: 0 <= i < j < |m| ==> m[i].0 < m[j].0
  }

  /** The positions under a block; none when it is not there. */
  function Under(m: seq<Group>, b: nat): seq<nat> {
    if m == [] then [] else if m[0].0 == b then m[0].1 else Under(m[1..], b)
  }

  /** The positions whose item names block `b`, in order. */
  function Positions(items: seq<Item>, b: nat): seq<nat> {
    if items == [] then [] else
    Positions(items[..|items| - 1], b) + if items[|items| - 1].block == b then [|items| - 1] else []
  }

  lemma {:induction false} AddAscends(m: seq<Group>, b: nat, i: nat)
    requires Ascends(m)
    ensures Ascends(Add(m, b, i))
    ensures m != [] && m[0].0 <= b ==> Add(m, b, i)[0].0 == m[0].0
    decreases |m|
  {
    if m != [] && m[0].0 < b {
      AddAscends(m[1..], b, i);
      if |m| == 1 || b < m[1].0 { assert Add(m[1..], b, i)[0].0 == b; }
      AscendsCons(m[0], Add(m[1..], b, i));
    }
  }

  lemma AscendsCons(g: Group, m: seq<Group>)
    requires Ascends(m) && m != [] && g.0 < m[0].0
    ensures Ascends([g] + m)
  {
    assert forall j :: 0 < j < |m| ==> m[0].0 < m[j].0;
  }

  lemma {:induction false} UnderAbsent(m: seq<Group>, b: nat)
    requires Ascends(m) && (m != [] ==> b < m[0].0)
    ensures Under(m, b) == []
    decreases |m|
  {
    if m != [] { UnderAbsent(m[1..], b); }
  }

  lemma {:induction false} UnderAdd(m: seq<Group>, b: nat, i: nat, x: nat)
    requires Ascends(m)
    ensures Under(Add(m, b, i), x) == if x == b then Under(m, b) + [i] else Under(m, x)
    decreases |m|
  {
    if m == [] || b < m[0].0 {
      UnderAbsent(m, b);
    } else if m[0].0 < b {
      UnderAdd(m[1..], b, i, x);
    }
  }

  /** Each block in range has exactly its positions, in order, and the blocks ascend. */
  lemma {:induction false} GroupsHold(items: seq<Item>, range: Range, b: nat)
    ensures Ascends(GroupsOf(items, range))
    ensures Under(GroupsOf(items, range), b) == if range.Has(b) then Positions(items, b) else []
    decreases |items|
  {
    if items != [] {
      var k := |items| - 1;
      GroupsHold(items[..k], range, b);
      var m := GroupsOf(items[..k], range);
      if range.Has(items[k].block) {
        AddAscends(m, items[k].block, k);
        UnderAdd(m, items[k].block, k, b);
      }
    }
  }

  lemma {:induction false} UnderAt(m: seq<Group>, j: nat)
    requires Ascends(m) && j < |m|
    ensures Under(m, m[j].0) == m[j].1
    decreases j
  {
    if j > 0 { UnderAt(m[1..], j - 1); }
  }

  lemma {:induction false} UnderFound(m: seq<Group>, b: nat) returns (j: nat)
    requires Under(m, b) != []
    ensures j < |m| && m[j].0 == b
    decreases |m|
  {
    if m[0].0 == b { j := 0; } else { j := UnderFound(m[1..], b); j := j + 1; }
  }

  lemma {:induction false} PositionsHave(items: seq<Item>, b: nat, p: nat)
    ensures p in Positions(items, b) <==> p < |items| && items[p].block == b
    decreases |items|
  {
    if items != [] {
      PositionsHave(items[..|items| - 1], b, p);
    }
  }

  lemma {:induction false} NoEmptyGroup(items: seq<Item>, range: Range, j: nat)
    requires j < |GroupsOf(items, range)|
    ensures GroupsOf(items, range)[j].1 != [] && range.Has(GroupsOf(items, range)[j].0)
    decreases |items|
  {
    var k := |items| - 1;
    var m := GroupsOf(items[..k], range);
    forall i: nat | i < |m|
      ensures m[i].1 != [] && range.Has(m[i].0)
    {
      NoEmptyGroup(items[..k], range, i);
    }
    if range.Has(items[k].block) { AddNonEmpty(m, items[k].block, k, range, j); }
  }

  lemma {:induction false} AddNonEmpty(m: seq<Group>, b: nat, i: nat, range: Range, j: nat)
    requires range.Has(b) && (forall q :: 0 <= q < |m| ==> m[q].1 != [] && range.Has(m[q].0)) && j < |Add(m, b, i)|
    ensures Add(m, b, i)[j].1 != [] && range.Has(Add(m, b, i)[j].0)
    decreases |m|
  {
    if !(m == [] || b < m[0].0 || b == m[0].0) && j > 0 { AddNonEmpty(m[1..], b, i, range, j - 1); }
  }

  /** The distinct blocks of a batch. */
  ghost predicate Listed(m: seq<Group>, upTo: int, b: nat) {
    exists j :: 0 <= j < upTo <= |m| && m[j].0 == b
  }

  /** The groups are exactly the requested blocks in range, ascending, each with its positions. */
  lemma GroupsAreTheBlocks(items: seq<Item>, range: Range)
    ensures var m := GroupsOf(items, range);
            && Ascends(m)
            && (forall j :: 0 <= j < |m| ==> range.Has(m[j].0) && m[j].1 == Positions(items, m[j].0))
            && (forall p :: 0 <= p < |items| ==> (range.Has(items[p].block) <==> Listed(m, |m|, items[p].block)))
  {
    hide Positions; hide Under; hide GroupsOf;
    var m := GroupsOf(items, range);
    GroupsHold(items, range, 0);
    forall j: nat | j < |m|
      ensures range.Has(m[j].0) && m[j].1 == Positions(items, m[j].0)
    {
      GroupsHold(items, range, m[j].0);
      UnderAt(m, j);
      NoEmptyGroup(items, range, j);
    }
    forall p: nat | p < |items| && range.Has(items[p].block)
      ensures Listed(m, |m|, items[p].block)
    {
      var b := items[p].block;
      GroupsHold(items, range, b);
      PositionsHave(items, b, p);
      var j := UnderFound(m, b);
    }
  }

  // The handler.

  datatype Desc = Desc(code: nat, name: nat, off: nat, len: nat)

  function DescOf(a: Act): Desc {
    Desc(a.account, a.name, a.data.0, a.data.1)
  }

  /** The index by sequence number holds the first action that answers each number, and nothing else. */
  ghost predicate Indexes(m: map<nat, Desc>, acts: seq<Act>) {
    forall gs: nat :: IndexesAt(m, acts, gs)
  }

  predicate IndexesAt(m: map<nat, Desc>, acts: seq<Act>, gs: nat) {
    match First(acts, gs)
    case None => gs !in m
    case Some(a) => gs in m && m[gs] == DescOf(a)
  }

  function Indexed(m: map<nat, Desc>, a: Act): map<nat, Desc> {
    if a.tail.except || a.receipt.None? || a.receipt.value.globalSequence in m then m
    else m[a.receipt.value.globalSequence := DescOf(a)]
  }

  lemma IndexedStep(m: map<nat, Desc>, acts: seq<Act>, a: Act)
    requires Indexes(m, acts)
    ensures Indexes(Indexed(m, a), acts + [a])
  {
    hide First;
    forall gs: nat
      ensures IndexesAt(Indexed(m, a), acts + [a], gs)
    {
      assert IndexesAt(m, acts, gs);
      FirstSnoc(acts, a, gs);
    }
  }

  method IndexBlock(txs: seq<Tx>) returns (m: map<nat, Desc>)
    ensures Indexes(m, Flatten(txs))
  {
    hide Flatten; hide Indexes; hide Indexed;
    m := map[];
    IndexNone(txs);
    for t := 0 to |txs|
      invariant Indexes(m, Flatten(txs[..t]))
    {
      ghost var seen := Flatten(txs[..t]);
      var actions := txs[t].actions;
      assert seen + actions[..0] == seen;
      for i := 0 to |actions|
        invariant Indexes(m, seen + actions[..i])
      {
        assert seen + actions[..i + 1] == (seen + actions[..i]) + [actions[i]];
        IndexedStep(m, seen + actions[..i], actions[i]);
        m := Indexed(m, actions[i]);
      }
      assert actions[..|actions|] == actions;
      FlattenSnoc(txs, t);
    }
    assert txs[..|txs|] == txs;
  }

  lemma IndexNone(txs: seq<Tx>)
    ensures Indexes(map[], Flatten(txs[..0]))
  {
  }

  method GroupItems(items: seq<Item>, range: Range) returns (m: seq<Group>)
    ensures m == GroupsOf(items, range)
  {
    hide Add;
    m := [];
    for i := 0 to |items|
      invariant m == GroupsOf(items[..i], range)
    {
      assert items[..i + 1][..i] == items[..i];
      if range.Has(items[i].block) { m := Add(m, items[i].block, i); }
    }
    assert items[..|items|] == items;
  }

  /** An item's answer, read off the index of its block. */
  lemma ExpectedFromIndex(log: Log, range: Range, it: Item, m: map<nat, Desc>, d: BlockData)
    requires range.Has(it.block) && ReadBlock(log, it.block) == Some(Some(d)) && Indexes(m, Flatten(d.txs))
    ensures it.gs in m ==>
      && m[it.gs].off + m[it.gs].len <= |d.inflated|
      && Expected(log, range, it) ==
         Some(Resolved(it.block, it.gs, m[it.gs].code, m[it.gs].name,
                       d.inflated[m[it.gs].off..m[it.gs].off + m[it.gs].len]))
    ensures it.gs !in m ==> Expected(log, range, it) == None
  {
    hide ReadBlock; hide First; hide Flatten; hide DataInside;
    ReadIsInside(log, it.block);
    assert IndexesAt(m, Flatten(d.txs), it.gs);
    if First(Flatten(d.txs), it.gs).Some? { AnswerOf(d, it.gs); }
  }

  predicate Fits(items: seq<Item>, b: nat, positions: seq<nat>) {
    forall q :: 0 <= q < |positions| ==> positions[q] < |items| && items[positions[q]].block == b
  }

  /** Block `b` answers its positions; the others stay. */
  method ResolveBlock(c: BlockCache, range: Range, items: seq<Item>, b: nat, positions: seq<nat>,
                      before: seq<Option<Resolved>>)
      returns (after: seq<Option<Resolved>>)
    requires c.Valid() && range.Has(b) && |before| == |items| && Fits(items, b, positions)
    requires forall q :: 0 <= q < |positions| ==> before[positions[q]] == None
    modifies c
    ensures c.Valid() && |after| == |items|
    ensures forall p :: 0 <= p < |items| ==>
      after[p] == if p in positions then Expected(c.log, range, items[p]) else before[p]
  {
    hide ReadBlock; hide Flatten; hide Expected; hide Indexes;
    after := before;
    var slot := c.GetOrRead(b);
    if slot.None? || c.slots[slot.value].1.None? {
      forall p | 0 <= p < |items| && p in positions
        ensures Expected(c.log, range, items[p]) == None
      {
        NothingExpected(c.log, range, items[p]);
      }
      return;
    }
    var d := c.slots[slot.value].1.value;
    var m := IndexBlock(d.txs);
    for q := 0 to |positions|
      invariant c.Valid() && |after| == |items|
      invariant forall p :: 0 <= p < |items| ==>
        after[p] == if p in positions[..q] then Expected(c.log, range, items[p]) else before[p]
    {
      var i := positions[q];
      ExpectedFromIndex(c.log, range, items[i], m, d);
      assert positions[..q + 1] == positions[..q] + [i];
      if items[i].gs in m {
        var e := m[items[i].gs];
        after := after[i := Some(Resolved(b, items[i].gs, e.code, e.name, d.inflated[e.off..e.off + e.len]))];
      }
    }
    assert positions[..|positions|] == positions;
  }

  lemma NothingExpected(log: Log, range: Range, it: Item)
    requires ReadBlock(log, it.block).None? || ReadBlock(log, it.block).value.None?
    ensures Expected(log, range, it) == None
  {
    hide ReadBlock;
  }

  /** After the first `j` groups. */
  ghost predicate Done(log: Log, range: Range, items: seq<Item>, m: seq<Group>, j: int, out: seq<Option<Resolved>>) {
    && |out| == |items|
    && forall p :: 0 <= p < |items| ==>
         out[p] == if Listed(m, j, items[p].block) then Expected(log, range, items[p]) else None
  }

  lemma DoneStep(log: Log, range: Range, items: seq<Item>, m: seq<Group>, j: nat,
                 out: seq<Option<Resolved>>, out': seq<Option<Resolved>>)
    requires j < |m| && Done(log, range, items, m, j, out) && |out'| == |items|
    requires forall p :: 0 <= p < |items| ==>
      out'[p] == if items[p].block == m[j].0 then Expected(log, range, items[p]) else out[p]
    ensures Done(log, range, items, m, j + 1, out')
  {
    hide Expected;
    forall p | 0 <= p < |items|
      ensures Listed(m, j + 1, items[p].block) <==> Listed(m, j, items[p].block) || items[p].block == m[j].0
    {
      ListedStep(m, j, items[p].block);
    }
    hide Listed;
  }

  lemma ListedStep(m: seq<Group>, j: nat, b: nat)
    requires j < |m|
    ensures Listed(m, j + 1, b) <==> Listed(m, j, b) || b == m[j].0
  {
    if Listed(m, j, b) {
      var q :| 0 <= q < j && m[q].0 == b;
      assert m[q].0 == b;
    }
  }

  /** Items of the next group are not resolved yet. */
  lemma GroupIsOpen(log: Log, range: Range, items: seq<Item>, m: seq<Group>, j: nat, out: seq<Option<Resolved>>)
    requires m == GroupsOf(items, range) && j < |m| && Done(log, range, items, m, j, out)
    ensures range.Has(m[j].0) && Fits(items, m[j].0, m[j].1)
    ensures forall q :: 0 <= q < |m[j].1| ==> out[m[j].1[q]] == None
    ensures forall p :: 0 <= p < |items| ==> (p in m[j].1 <==> items[p].block == m[j].0)
  {
    hide Expected; hide GroupsOf; hide Positions;
    GroupsAreTheBlocks(items, range);
    forall p: nat
      ensures p in m[j].1 <==> p < |items| && items[p].block == m[j].0
    {
      PositionsHave(items, m[j].0, p);
    }
    forall q | 0 <= q < |m[j].1|
      ensures m[j].1[q] < |items| && items[m[j].1[q]].block == m[j].0 && out[m[j].1[q]] == None
    {
      assert m[j].1[q] in m[j].1;
    }
  }

  /**
   The batch handler. The blocks reached are a prefix of the ascending distinct blocks, cut short only
   by the cap or the deadline. Whatever the cache held, an item of a reached block gets exactly what
   the single lookup finds for it, in the item's own place; the others get nothing.
   */
  method HandleBatch(c: BlockCache, range: Range, items: seq<Item>, late: nat -> bool)
      returns (out: seq<Option<Resolved>>, reached: nat)
    requires c.Valid()
    modifies c
    ensures c.Valid()
    ensures Done(c.log, range, items, GroupsOf(items, range), reached, out)
    ensures reached <= |GroupsOf(items, range)| && reached <= MAX_BLOCKS && forall j :: 0 <= j < reached ==> !late(j)
    ensures reached < |GroupsOf(items, range)| ==> reached == MAX_BLOCKS || late(reached)
  {
    hide Expected; hide GroupsOf; hide Done;
    out := seq(|items|, _ => None);
    var groups := GroupItems(items, range);
    reached := 0;
    DoneStart(c.log, range, items, groups, out);
    while reached < |groups|
      invariant c.Valid() && reached <= |groups| && reached <= MAX_BLOCKS && forall j :: 0 <= j < reached ==> !late(j)
      invariant Done(c.log, range, items, groups, reached, out)
    {
      if reached >= MAX_BLOCKS || late(reached) { break; }
      var before := out;
      GroupIsOpen(c.log, range, items, groups, reached, before);
      DoneLength(c.log, range, items, groups, reached, before);
      out := ResolveBlock(c, range, items, groups[reached].0, groups[reached].1, before);
      DoneStep(c.log, range, items, groups, reached, before, out);
      reached := reached + 1;
    }
  }

  lemma DoneStart(log: Log, range: Range, items: seq<Item>, m: seq<Group>, out: seq<Option<Resolved>>)
    requires out == seq(|items|, _ => None)
    ensures Done(log, range, items, m, 0, out)
  {
    hide Expected;
  }

  lemma DoneLength(log: Log, range: Range, items: seq<Item>, m: seq<Group>, j: nat, out: seq<Option<Resolved>>)
    requires Done(log, range, items, m, j, out)
    ensures |out| == |items|
  {
    hide Expected;
  }

  lemma {:induction false} NoMoreGroupsThanItems(items: seq<Item>, range: Range)
    ensures |GroupsOf(items, range)| <= |items|
  {
    if items != [] {
      var k := |items| - 1;
      NoMoreGroupsThanItems(items[..k], range);
      AddIsOne(GroupsOf(items[..k], range), items[k].block, k);
    }
  }

  lemma {:induction false} AddIsOne(m: seq<Group>, b: nat, i: nat)
    ensures |Add(m, b, i)| <= |m| + 1
  {
    if m != [] && b > m[0].0 { AddIsOne(m[1..], b, i); }
  }

  /** A batch within the cap, and in time, answers every item as the single lookup does. */
  method HandleWhole(c: BlockCache, range: Range, items: seq<Item>) returns (out: seq<Option<Resolved>>)
    requires c.Valid() && |items| <= MAX_BLOCKS
    modifies c
    ensures c.Valid() && |out| == |items|
    ensures forall p :: 0 <= p < |items| ==> out[p] == Expected(c.log, range, items[p])
  {
    var reached;
    out, reached := HandleBatch(c, range, items, (_: nat) => false);
    NoMoreGroupsThanItems(items, range);
    GroupsAreTheBlocks(items, range);
    hide GroupsOf; hide Listed;
    forall p | 0 <= p < |items|
      ensures out[p] == Expected(c.log, range, items[p])
    {
      OutOfRangeIsNothing(c.log, range, items[p]);
    }
  }

  lemma OutOfRangeIsNothing(log: Log, range: Range, it: Item)
    ensures !range.Has(it.block) ==> Expected(log, range, it) == None
  {
  }
}
