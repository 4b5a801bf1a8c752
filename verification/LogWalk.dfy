/**
 The sequential reader of a forked log: the canonical offsets of a block range, and the worker that
 walks the file from the first of them and skips what the index does not hold.
 */
module LogWalk {
  import opened Bytes
  import opened ShipLog
  import opened ForkHistory

  function Slot(idx: seq<byte>, k: nat): nat
    requires 8 * k + 8 <= |idx|
  {
    FromLe(idx[8 * k..8 * k + 8])
  }

  /** The index slots of blocks `cs..=ce`, and where that range ends in the log. */
  function CanonicalOffsets(idx: seq<byte>, first: nat, cs: nat, ce: nat, logLen: nat): (r: Option<(seq<nat>, nat)>)
    ensures r.Some? ==> |r.value.0| == ce - cs + 1
  {
    if cs < first || ce < cs then None else
    var entries, from, count := |idx| / 8, cs - first, ce - cs + 1;
    if from + count > entries then None else
    var offsets := seq<nat>(count, k requires 0 <= k < count => Slot(idx, from + k));
    var end: nat := if from + count < entries then Slot(idx, from + count) else logLen;
    Some((offsets, end))
  }

  datatype Visit = Visit(block: nat, pos: nat)

  /** Where the entry at `pos` ends: past its position suffix when it carries one. */
  function NextEntry(f: seq<byte>, pos: nat, payloadSize: nat): nat {
    var end := pos + HEADER_LEN + payloadSize;
    if end + 8 <= |f| && FromLe(f[end..end + 8]) == pos then end + 8 else end
  }

  function BlockAt(f: seq<byte>, pos: nat): nat
    requires pos + HEADER_LEN <= |f|
  {
    FromBe(f[pos + 8..pos + 12])
  }

  function PayloadSizeAt(f: seq<byte>, pos: nat): nat
    requires pos + HEADER_LEN <= |f|
  {
    FromLe(f[pos + 40..pos + 48])
  }

  predicate Indexed(offsets: seq<nat>, cs: nat, block: nat, pos: nat) {
    cs <= block < cs + |offsets| && offsets[block - cs] == pos
  }

  /** An entry counts only when the index holds its position for its block. */
  function VisitOf(offsets: seq<nat>, cs: nat, block: nat, pos: nat): seq<Visit> {
    if Indexed(offsets, cs, block, pos) then [Visit(block, pos)] else []
  }

  function Prepend(v: seq<Visit>, r: Option<seq<Visit>>): Option<seq<Visit>> {
    if r.Some? then Some(v + r.value) else None
  }

  lemma PrependTwice(v: seq<Visit>, w: seq<Visit>, r: Option<seq<Visit>>)
    ensures Prepend(v, Prepend(w, r)) == Prepend(v + w, r) && Prepend([], r) == r
  {
    if r.Some? {
      assert v + (w + r.value) == v + w + r.value;
      assert [] + r.value == r.value;
    }
  }

  /** What a walk from `pos` visits, or None when it fails on a format error. */
  function WalkFrom(f: seq<byte>, offsets: seq<nat>, cs: nat, stop: nat, pos: nat): Option<seq<Visit>>
    decreases |f| - pos
  {
    if pos >= stop || pos + HEADER_LEN > |f| then Some([]) else
    var block, payloadSize := BlockAt(f, pos), PayloadSizeAt(f, pos);
    if pos + HEADER_LEN + payloadSize > |f| then None else
    Prepend(VisitOf(offsets, cs, block, pos), WalkFrom(f, offsets, cs, stop, NextEntry(f, pos, payloadSize)))
  }

  /** The worker's entry loop. */
  method Walk(f: seq<byte>, offsets: seq<nat>, cs: nat, ce: nat, stop: nat) returns (r: Option<seq<Visit>>)
    requires cs <= ce && |offsets| == ce - cs + 1
    ensures r == WalkFrom(f, offsets, cs, stop, offsets[0])
  {
    hide FromLe; hide FromBe; hide BlockAt; hide PayloadSizeAt;
    var pos, visits := offsets[0], [];
    ghost var all := WalkFrom(f, offsets, cs, stop, offsets[0]);
    PrependTwice([], [], all);
    while pos < stop && pos + HEADER_LEN <= |f|
      invariant all == Prepend(visits, WalkFrom(f, offsets, cs, stop, pos))
      decreases |f| - pos
    {
      var entry := pos;
      var block, payloadSize := BlockAt(f, pos), PayloadSizeAt(f, pos);
      if payloadSize > |f| || pos + HEADER_LEN + payloadSize > |f| {
        return None;
      }
      pos := NextEntry(f, pos, payloadSize);
      PrependTwice(visits, VisitOf(offsets, cs, block, entry), WalkFrom(f, offsets, cs, stop, pos));
      if block < cs || block > ce || offsets[block - cs] != entry {
        assert visits + [] == visits;
        continue;
      }
      visits := visits + [Visit(block, entry)];
    }
    assert visits + [] == visits;
    return Some(visits);
  }

  /** The surviving entries of blocks `n..=ce`, in block order. */
  function Canonical(steps: Steps, n: nat, ce: nat): (v: seq<Visit>)
    requires Legal(steps) && First(steps) <= n && ce <= Last(steps)
    decreases ce + 1 - n
  {
    if n > ce then [] else [Visit(n, Pos(steps, Survivor(steps, n)))] + Canonical(steps, n + 1, ce)
  }

  /** The walker sees every entry's own block, size and suffix, orphans included. */
  lemma StepFields(steps: Steps, i: nat)
    requires Legal(steps) && i < |steps|
    ensures
      var f, pos := LogFile(steps), Pos(steps, i);
      pos + HEADER_LEN <= |f| && BlockAt(f, pos) == steps[i].Num()
      && pos + HEADER_LEN + PayloadSizeAt(f, pos) <= |f|
      && NextEntry(f, pos, PayloadSizeAt(f, pos)) == Pos(steps, i + 1)
  {
    hide LogFile; hide Pos; hide ForkIndex.Legal; hide FromLe; hide FromBe; hide PreambleAt;
    var f, pos := LogFile(steps), Pos(steps, i);
    StepReads(steps, i);
    StepEnd(steps, i);
    assert f[pos + 8..pos + 12] == f[pos + 8..pos + 40][..4];
  }

  lemma StepEnd(steps: Steps, i: nat)
    requires Legal(steps) && i < |steps|
    ensures steps[i].HeaderAt(Pos(steps, i)).End() == Pos(steps, i + 1)
  {
    hide LogFile; hide ForkIndex.Legal; hide ReadHeader;
    EntryStands(steps, i);
  }

  /** The first entry past blocks up to `ce`: the next block's survivor, or the end of the log. */
  function StopStep(steps: Steps, ce: nat): nat
    requires Legal(steps) && First(steps) <= ce <= Last(steps)
  {
    if ce < Last(steps) then Survivor(steps, ce + 1) else |steps|
  }

  lemma OffsetsOfRun(steps: Steps, cs: nat, ce: nat)
    requires Legal(steps) && First(steps) <= cs <= ce <= Last(steps)
    ensures
      var r := CanonicalOffsets(IndexFile(Slots(steps)), First(steps), cs, ce, |LogFile(steps)|);
      r.Some? && r.value.1 == Pos(steps, StopStep(steps, ce))
      && forall n :: cs <= n <= ce ==> r.value.0[n - cs] == Pos(steps, Survivor(steps, n))
  {
    hide LogFile; hide Slots; hide IndexFile; hide ForkIndex.Legal; hide FromLe; hide Survivor;
    var slots := Slots(steps);
    SlotsHoldSurvivors(steps);
    forall n | First(steps) <= n <= Last(steps)
      ensures Slot(IndexFile(slots), n - First(steps)) == Pos(steps, Survivor(steps, n))
    {
      SlotAt(slots, n - First(steps));
    }
    assert steps[..|steps|] == steps;
  }

  lemma SurvivorOrder(steps: Steps, m: nat, n: nat)
    requires Legal(steps) && First(steps) <= m < n <= Last(steps)
    ensures Survivor(steps, m) < Survivor(steps, n)
  {
    hide LogFile; hide Slots; hide ForkIndex.Legal; hide Survivor;
    SlotsHoldSurvivors(steps);
  }

  /** An entry the index holds for its block is the survivor of that block. */
  lemma IndexedIsSurvivor(steps: Steps, offsets: seq<nat>, cs: nat, i: nat)
    requires Legal(steps) && i < |steps| && First(steps) <= cs && cs + |offsets| <= Last(steps) + 1
    requires forall n :: cs <= n < cs + |offsets| ==> offsets[n - cs] == Pos(steps, Survivor(steps, n))
    requires Indexed(offsets, cs, steps[i].Num(), Pos(steps, i))
    ensures Survivor(steps, steps[i].Num()) == i
  {
    hide LogFile; hide Pos; hide ForkIndex.Legal;
    var s := Survivor(steps, steps[i].Num());
    if i < s {
      PosMonotone(steps, i, s);
    }
  }

  /** From entry `i`, with the survivors below `n` behind it, the walk visits `n..=ce`. */
  lemma {:induction false} WalkFromStep(steps: Steps, offsets: seq<nat>, cs: nat, ce: nat, i: nat, n: nat)
    requires Legal(steps) && First(steps) <= cs <= n <= ce + 1 && cs <= ce <= Last(steps)
    requires |offsets| == ce - cs + 1
    requires forall n :: cs <= n < cs + |offsets| ==> offsets[n - cs] == Pos(steps, Survivor(steps, n))
    requires i <= StopStep(steps, ce)
    requires n > cs ==> Survivor(steps, n - 1) < i
    requires n <= ce ==> i <= Survivor(steps, n)
    ensures WalkFrom(LogFile(steps), offsets, cs, Pos(steps, StopStep(steps, ce)), Pos(steps, i))
            == Some(Canonical(steps, n, ce))
    decreases StopStep(steps, ce) - i
  {
    hide LogFile; hide Pos; hide Legal; hide Survivor; hide WalkFrom; hide Entry.Wf; hide Entry.Num;
    var stop := StopStep(steps, ce);
    if n <= ce { SurvivorBeforeStop(steps, n, ce); }
    if i == stop {
      WalkStops(LogFile(steps), offsets, cs, Pos(steps, stop));
    } else {
      WalkOneEntry(steps, offsets, cs, stop, i);
      PrependTwice([], [], WalkFrom(LogFile(steps), offsets, cs, Pos(steps, stop), Pos(steps, i + 1)));
      if n <= ce && i == Survivor(steps, n) {
        if n < ce { SurvivorOrder(steps, n, n + 1); }
        WalkFromStep(steps, offsets, cs, ce, i + 1, n + 1);
      } else {
        OrphanIsSkipped(steps, offsets, cs, ce, i, n);
        WalkFromStep(steps, offsets, cs, ce, i + 1, n);
      }
    }
  }

  lemma WalkStops(f: seq<byte>, offsets: seq<nat>, cs: nat, stop: nat)
    ensures WalkFrom(f, offsets, cs, stop, stop) == Some([])
  {
  }

  lemma WalkOneEntry(steps: Steps, offsets: seq<nat>, cs: nat, stop: nat, i: nat)
    requires Legal(steps) && i < stop <= |steps|
    ensures
      var f, end := LogFile(steps), Pos(steps, stop);
      WalkFrom(f, offsets, cs, end, Pos(steps, i)) ==
      Prepend(VisitOf(offsets, cs, steps[i].Num(), Pos(steps, i)), WalkFrom(f, offsets, cs, end, Pos(steps, i + 1)))
  {
    hide LogFile; hide Pos; hide ForkIndex.Legal; hide BlockAt; hide PayloadSizeAt; hide NextEntry; hide Entry.Wf;
    PosMonotone(steps, i, stop);
    StepFields(steps, i);
  }

  lemma OrphanIsSkipped(steps: Steps, offsets: seq<nat>, cs: nat, ce: nat, i: nat, n: nat)
    requires Legal(steps) && First(steps) <= cs <= n <= ce + 1 && cs <= ce <= Last(steps)
    requires |offsets| == ce - cs + 1 && i < |steps|
    requires forall n :: cs <= n < cs + |offsets| ==> offsets[n - cs] == Pos(steps, Survivor(steps, n))
    requires n > cs ==> Survivor(steps, n - 1) < i
    requires n <= ce ==> i < Survivor(steps, n)
    ensures !Indexed(offsets, cs, steps[i].Num(), Pos(steps, i))
  {
    hide LogFile; hide Pos; hide ForkIndex.Legal; hide Survivor; hide Entry.Wf;
    var b := steps[i].Num();
    if Indexed(offsets, cs, b, Pos(steps, i)) {
      IndexedIsSurvivor(steps, offsets, cs, i);
      if b < n - 1 {
        SurvivorOrder(steps, b, n - 1);
      } else if n <= ce && n < b {
        SurvivorOrder(steps, n, b);
      }
    }
  }

  lemma SurvivorBeforeStop(steps: Steps, n: nat, ce: nat)
    requires Legal(steps) && First(steps) <= n <= ce <= Last(steps)
    ensures Survivor(steps, n) < StopStep(steps, ce)
  {
    hide LogFile; hide ForkIndex.Legal;
    if ce < Last(steps) { SurvivorOrder(steps, n, ce + 1); }
  }

  /** What one worker reads of blocks `cs..=ce`. */
  function WorkerOutput(f: seq<byte>, idx: seq<byte>, first: nat, cs: nat, ce: nat): Option<seq<Visit>> {
    var r :- CanonicalOffsets(idx, first, cs, ce, |f|);
    WalkFrom(f, r.0, cs, r.1, r.0[0])
  }

  /**
   After every history, a worker's sequential walk visits exactly the entries the index lookup
   gives for its blocks, once each and in block order.
   */
  lemma WalkAgreesWithIndex(steps: Steps, cs: nat, ce: nat)
    requires Legal(steps) && First(steps) <= cs <= ce <= Last(steps)
    ensures WorkerOutput(LogFile(steps), IndexFile(Slots(steps)), First(steps), cs, ce)
            == Some(Canonical(steps, cs, ce))
  {
    hide LogFile; hide IndexFile; hide Pos; hide ForkIndex.Legal; hide Slots; hide Survivor;
    hide CanonicalOffsets; hide WalkFrom;
    OffsetsOfRun(steps, cs, ce);
    var r := CanonicalOffsets(IndexFile(Slots(steps)), First(steps), cs, ce, |LogFile(steps)|);
    SurvivorBeforeStop(steps, cs, ce);
    WalkFromStep(steps, r.value.0, cs, ce, Survivor(steps, cs), cs);
  }

  /** Bytes before `k` are those of the whole file. */
  lemma CutSlice(f: seq<byte>, k: nat, i: nat, j: nat)
    requires i <= j <= k <= |f|
    ensures f[..k][i..j] == f[i..j]
  {
  }

  /** An entry whole before the cut is walked over as in the whole file. */
  lemma WalkOneBeforeCut(steps: Steps, k: nat, offsets: seq<nat>, cs: nat, stop: nat, i: nat)
    requires Legal(steps) && i < |steps| && Pos(steps, i + 1) <= k <= |LogFile(steps)| && Pos(steps, i) < stop
    ensures
      var f := LogFile(steps)[..k];
      WalkFrom(f, offsets, cs, stop, Pos(steps, i)) ==
      Prepend(VisitOf(offsets, cs, steps[i].Num(), Pos(steps, i)), WalkFrom(f, offsets, cs, stop, Pos(steps, i + 1)))
  {
    hide LogFile; hide Pos; hide ForkIndex.Legal; hide FromLe; hide FromBe; hide Entry.Wf;
    var f, pos, end := LogFile(steps), Pos(steps, i), Pos(steps, i + 1);
    StepFields(steps, i);
    StepSuffix(steps, i);
    var size := PayloadSizeAt(f, pos);
    CutSlice(f, k, pos + 8, pos + 12);
    CutSlice(f, k, pos + 40, pos + 48);
    CutSlice(f, k, end - 8, end);
  }

  lemma StepSuffix(steps: Steps, i: nat)
    requires Legal(steps) && i < |steps|
    ensures
      var f, pos := LogFile(steps), Pos(steps, i);
      && pos + HEADER_LEN <= |f| && Pos(steps, i + 1) == pos + HEADER_LEN + PayloadSizeAt(f, pos) + 8 <= |f|
      && FromLe(f[Pos(steps, i + 1) - 8..Pos(steps, i + 1)]) == pos
  {
    hide LogFile; hide Pos; hide ForkIndex.Legal; hide FromLe; hide FromBe; hide PreambleAt;
    StepReads(steps, i);
    StepEnd(steps, i);
  }

  /** A log cut inside the payload of an entry the walk comes to makes it fail. */
  lemma {:induction false} CutPayloadIsRefused(steps: Steps, k: nat, offsets: seq<nat>, cs: nat, stop: nat, i: nat,
                                               last: nat)
    requires Legal(steps) && i <= last < |steps| && Pos(steps, last) < stop
    requires Pos(steps, last) + HEADER_LEN <= k < Pos(steps, last + 1) - 8
    ensures k <= |LogFile(steps)|
    ensures WalkFrom(LogFile(steps)[..k], offsets, cs, stop, Pos(steps, i)) == None
    decreases last - i
  {
    hide LogFile; hide Pos; hide ForkIndex.Legal; hide FromLe; hide FromBe; hide Entry.Wf;
    var f := LogFile(steps);
    StepSuffix(steps, last);
    if i < last {
      if i + 1 < last { PosMonotone(steps, i + 1, last); }
      PosMonotone(steps, i, last);
      hide WalkFrom;
      WalkOneBeforeCut(steps, k, offsets, cs, stop, i);
      CutPayloadIsRefused(steps, k, offsets, cs, stop, i + 1, last);
    } else {
      CutSlice(f, k, Pos(steps, i) + 40, Pos(steps, i) + 48);
    }
  }
}
