/** The split of `start..=end` over threads, and what all the workers together read. */
module ThreadSplit {
  import opened Bytes
  import opened ForkHistory
  import opened LogWalk

  datatype Range = Range(cs: nat, ce: nat) {
    predicate Has(b: nat) { cs <= b <= ce }
  }

  /** All 2^32 block numbers: their count is 0 in 32 bits. */
  predicate AllNumbers(start: nat, end: nat) {
    end - start + 1 == U32
  }

  /** Blocks per worker: the 32-bit length of the range over the threads, rounded up. */
  function Chunk(start: nat, end: nat, threads: nat): (c: nat)
    requires start <= end < U32 && threads > 0
    ensures if AllNumbers(start, end) then c == 0 else 0 < c < U32 && c * threads >= end - start + 1
  {
    var total := (end - start + 1) % U32;
    var c := (total + threads - 1) / threads;
    assert total + threads - 1 == threads * c + (total + threads - 1) % threads;
    RoundedUp(total, threads);
    c
  }

  lemma RoundedUp(total: nat, threads: nat)
    requires threads > 0
    ensures
      var c := (total + threads - 1) / threads;
      c <= total && (total == 0 ==> c == 0) && (total > 0 ==> c > 0)
  {
    var c, rem := (total + threads - 1) / threads, (total + threads - 1) % threads;
    assert total + threads - 1 == threads * c + rem;
    Commute(c, threads);
    if c > total {
      MulMono(total + 1, c, threads);
      NextChunk(total, threads);
      MulMono(1, threads, total);
      Commute(total, threads);
    }
  }

  lemma Commute(a: nat, b: nat)
    ensures a * b == b * a
  {
  }

  /** Worker `i`'s first block, in saturating u32 arithmetic. */
  function WorkerStart(start: nat, chunk: nat, i: nat): (cs: nat)
    ensures cs < U32
  {
    Min(start + Min(i * chunk, U32 - 1), U32 - 1)
  }

  /** A worker's last block; the sum is taken in 64 bits, and wraps when both are 0. */
  function WorkerEnd(cs: nat, chunk: nat, end: nat): nat {
    Min((cs + chunk + U64 - 1) % U64, end)
  }

  lemma WorkerEndIsPlain(cs: nat, chunk: nat, end: nat)
    requires cs < U32 && 0 < chunk < U32
    ensures WorkerEnd(cs, chunk, end) == Min(cs + chunk - 1, end)
  {
  }

  /** The ranges of the workers spawned, in order. */
  predicate IsPlan(start: nat, end: nat, threads: nat, plan: seq<Range>)
    requires start <= end < U32 && threads > 0
  {
    var chunk := Chunk(start, end, threads);
    && |plan| <= threads
    && (forall k :: 0 <= k < |plan| ==>
          plan[k].cs == WorkerStart(start, chunk, k) <= end && plan[k].ce == WorkerEnd(plan[k].cs, chunk, end))
    && (|plan| < threads ==> WorkerStart(start, chunk, |plan|) > end)
  }

  method Plan(start: nat, end: nat, threads: nat) returns (plan: seq<Range>)
    requires start <= end < U32 && threads < U32
    ensures IsPlan(start, end, if threads == 0 then 1 else threads, plan)
  {
    var n := if threads == 0 then 1 else threads;
    var chunk := Chunk(start, end, n);
    plan := [];
    for i := 0 to n
      invariant |plan| == i
      invariant forall k :: 0 <= k < i ==>
        plan[k].cs == WorkerStart(start, chunk, k) <= end && plan[k].ce == WorkerEnd(plan[k].cs, chunk, end)
    {
      var cs := WorkerStart(start, chunk, i);
      if cs > end { break; }
      plan := plan + [Range(cs, WorkerEnd(cs, chunk, end))];
    }
  }

  /** The ranges follow one another from `start` to `end`: every block is in exactly one. */
  predicate Tiles(plan: seq<Range>, start: nat, end: nat) {
    if plan == [] then start == end + 1 else
    plan[0].cs == start <= plan[0].ce && Tiles(plan[1..], plan[0].ce + 1, end)
  }

  /** No worker's start saturates onto the last block number. */
  predicate NoSaturation(start: nat, end: nat, threads: nat)
    requires start <= end < U32 && threads > 0
  {
    end < U32 - 1 || start + (threads - 1) * Chunk(start, end, threads) <= end
  }

  /** What a caller can check: the count does not wrap, or one worker takes it all, and no start saturates. */
  predicate SplitsWell(start: nat, end: nat, threads: nat)
    requires start <= end < U32 && threads > 0
  {
    if AllNumbers(start, end) then threads == 1 else NoSaturation(start, end, threads)
  }

  lemma MulMono(a: nat, b: nat, c: nat)
    requires a <= b
    ensures a * c <= b * c
  {
  }

  lemma StartIsExact(start: nat, end: nat, threads: nat, k: nat)
    requires start <= end < U32 && threads > 0 && NoSaturation(start, end, threads) && k < threads
    requires !AllNumbers(start, end)
    requires WorkerStart(start, Chunk(start, end, threads), k) <= end
    ensures WorkerStart(start, Chunk(start, end, threads), k) == start + k * Chunk(start, end, threads) <= end
  {
    MulMono(k, threads - 1, Chunk(start, end, threads));
  }

  lemma {:induction false} TilesFrom(start: nat, end: nat, threads: nat, plan: seq<Range>, k: nat)
    requires start <= end < U32 && threads > 0 && !AllNumbers(start, end)
    requires IsPlan(start, end, threads, plan) && NoSaturation(start, end, threads) && k <= |plan|
    ensures Tiles(plan[k..], Min(start + k * Chunk(start, end, threads), end + 1), end)
    decreases |plan| - k
  {
    hide Chunk; hide NoSaturation; hide WorkerStart; hide WorkerEnd;
    var chunk := Chunk(start, end, threads);
    if k < |plan| {
      StartIsExact(start, end, threads, k);
      WorkerEndIsPlain(plan[k].cs, chunk, end);
      TilesFrom(start, end, threads, plan, k + 1);
      assert plan[k..][1..] == plan[k + 1..];
      NextChunk(k, chunk);
    } else {
      PlanReachesEnd(start, end, threads, plan);
    }
  }

  lemma NextChunk(k: nat, chunk: nat)
    ensures (k + 1) * chunk == k * chunk + chunk
  {
  }

  lemma PlanReachesEnd(start: nat, end: nat, threads: nat, plan: seq<Range>)
    requires start <= end < U32 && threads > 0 && !AllNumbers(start, end) && IsPlan(start, end, threads, plan)
    ensures start + |plan| * Chunk(start, end, threads) > end
  {
    hide Chunk;
  }

  /** Under saturation the last worker repeats the last block, which an earlier one holds too. */
  lemma SaturatedRepeats(start: nat, end: nat, threads: nat, plan: seq<Range>) returns (k: nat)
    requires start <= end < U32 && threads > 0 && !AllNumbers(start, end)
    requires IsPlan(start, end, threads, plan) && !NoSaturation(start, end, threads)
    ensures k < |plan| - 1 && plan[k].Has(end) && plan[|plan| - 1].Has(end)
  {
    var chunk := Chunk(start, end, threads);
    assert end == U32 - 1 && start + (threads - 1) * chunk > end;
    k := HolderOfEnd(start, end, chunk, threads);
    hide Chunk;
    PlanIsFull(start, end, threads, plan);
    PlanAt(start, end, threads, plan, k);
    PlanAt(start, end, threads, plan, threads - 1);
  }

  /** The worker in whose unsaturated share the last block lies. */
  lemma HolderOfEnd(start: nat, end: nat, chunk: nat, threads: nat) returns (k: nat)
    requires chunk > 0 && threads > 0 && start <= end && start + (threads - 1) * chunk > end
    ensures k < threads - 1 && start + k * chunk <= end < start + k * chunk + chunk
  {
    k := (end - start) / chunk;
    DivBounds(end - start, chunk);
    NextChunk(k, chunk);
    if k >= threads - 1 { MulMono(threads - 1, k, chunk); }
  }

  /** Up to the last block number no start is past the end, so every thread gets a worker. */
  lemma PlanIsFull(start: nat, end: nat, threads: nat, plan: seq<Range>)
    requires start <= end == U32 - 1 && threads > 0 && IsPlan(start, end, threads, plan)
    ensures |plan| == threads
  {
    hide Chunk; hide WorkerStart; hide WorkerEnd;
    assert WorkerStart(start, Chunk(start, end, threads), |plan|) < U32;
  }

  lemma PlanAt(start: nat, end: nat, threads: nat, plan: seq<Range>, k: nat)
    requires start <= end < U32 && threads > 0 && !AllNumbers(start, end)
    requires IsPlan(start, end, threads, plan) && k < |plan|
    ensures plan[k].cs == Min(start + k * Chunk(start, end, threads), U32 - 1)
    ensures plan[k].ce == Min(plan[k].cs + Chunk(start, end, threads) - 1, end)
  {
    hide Chunk; hide WorkerStart; hide WorkerEnd;
    StartIs(start, Chunk(start, end, threads), k);
    WorkerEndIsPlain(plan[k].cs, Chunk(start, end, threads), end);
  }

  lemma StartIs(start: nat, chunk: nat, i: nat)
    ensures WorkerStart(start, chunk, i) == Min(start + i * chunk, U32 - 1)
  {
  }

  lemma DivBounds(x: nat, c: nat)
    requires c > 0
    ensures x / c * c <= x < (x / c + 1) * c
  {
    var q := x / c;
    assert x == c * q + x % c;
    assert q * c == c * q && (q + 1) * c == c * q + c;
  }

  lemma {:induction false} TiledOnce(plan: seq<Range>, start: nat, end: nat, k: nat, l: nat)
    requires Tiles(plan, start, end) && k < l < |plan|
    ensures start <= plan[k].cs <= plan[k].ce < plan[l].cs
  {
    if k > 0 {
      TiledOnce(plan[1..], plan[0].ce + 1, end, k - 1, l - 1);
    } else if l > 1 {
      TiledOnce(plan[1..], plan[0].ce + 1, end, 0, l - 1);
    }
  }

  /** What the arithmetic gives over all 2^32 block numbers: every worker takes the whole range. No run gets
      there (`ClampedIsNotAll`). */
  lemma EveryWorkerTakesAll(threads: nat, plan: seq<Range>, k: nat)
    requires threads > 0 && IsPlan(0, U32 - 1, threads, plan) && k < threads
    ensures |plan| == threads && plan[k] == Range(0, U32 - 1)
  {
    assert Chunk(0, U32 - 1, threads) == 0;
    assert |plan| < threads ==> WorkerStart(0, 0, |plan|) == 0;
  }

  /** The split gives every block to exactly one worker exactly when the condition above holds. */
  lemma SplitIsExact(start: nat, end: nat, threads: nat, plan: seq<Range>)
    requires start <= end < U32 && threads > 0 && IsPlan(start, end, threads, plan)
    ensures Tiles(plan, start, end) <==> SplitsWell(start, end, threads)
  {
    if AllNumbers(start, end) {
      EveryWorkerTakesAll(threads, plan, 0);
      if threads > 1 {
        EveryWorkerTakesAll(threads, plan, 1);
        if Tiles(plan, start, end) { TiledOnce(plan, start, end, 0, 1); }
      }
    } else if NoSaturation(start, end, threads) {
      TilesFrom(start, end, threads, plan, 0);
      assert plan[0..] == plan && 0 * Chunk(start, end, threads) == 0;
    } else {
      var k := SaturatedRepeats(start, end, threads, plan);
      if Tiles(plan, start, end) {
        TiledOnce(plan, start, end, k, |plan| - 1);
      }
    }
  }

  /** The range a run splits: what was asked for, within the `slots` blocks of the index from `first` on, and
      within the block log if there is one. Slots are counted in 32 bits. */
  function Clamped(first: nat, slots: nat, start: nat, end: nat, blockLogLast: Option<nat>): (nat, nat) {
    var last := (first + Max(slots % U32 - 1, 0)) % U32;
    var to := Min(end, last);
    (Max(start, first), if blockLogLast.Some? then Min(to, blockLogLast.value) else to)
  }

  lemma ClampedIsNotAll(first: nat, slots: nat, start: nat, end: nat, blockLogLast: Option<nat>)
    requires first < U32 && start < U32 && end < U32
    ensures var (s, e) := Clamped(first, slots, start, end, blockLogLast); e < U32 && !AllNumbers(s, e)
  {
    if first == 0 { assert Max(slots % U32 - 1, 0) < U32 - 1; }
  }

  /** A block is in the range exactly if it was asked for, the index holds it, and the block log, if any, reaches it. */
  lemma ClampedExactly(first: nat, slots: nat, start: nat, end: nat, blockLogLast: Option<nat>, b: nat)
    requires first < U32 && start < U32 && end < U32 && 0 < slots < U32 && first + slots <= U32
    ensures
      var (s, e) := Clamped(first, slots, start, end, blockLogLast);
      s <= b <= e <==>
      start <= b <= end && first <= b < first + slots && (blockLogLast.Some? ==> b <= blockLogLast.value)
  {
  }

  /** For the ranges that arise, every block goes to exactly one worker exactly when no start saturates. */
  lemma ClampedSplitIsExact(first: nat, slots: nat, start: nat, end: nat, blockLogLast: Option<nat>, threads: nat,
                            plan: seq<Range>)
    requires first < U32 && start < U32 && end < U32 && threads > 0
    requires var (s, e) := Clamped(first, slots, start, end, blockLogLast);
             s <= e < U32 && IsPlan(s, e, threads, plan)
    ensures var (s, e) := Clamped(first, slots, start, end, blockLogLast);
            Tiles(plan, s, e) <==> NoSaturation(s, e, threads)
  {
    hide IsPlan; hide Tiles; hide NoSaturation;
    ClampedIsNotAll(first, slots, start, end, blockLogLast);
    var (s, e) := Clamped(first, slots, start, end, blockLogLast);
    SplitIsExact(s, e, threads, plan);
  }

  /** A log of the two highest blocks, read whole by three threads: the last block is read twice. */
  lemma SplitRepeatsLastBlock(plan: seq<Range>)
    requires IsPlan(U32 - 2, U32 - 1, 3, plan)
    ensures Clamped(U32 - 2, 2, 0, U32 - 1, None) == (U32 - 2, U32 - 1)
    ensures plan == [Range(U32 - 2, U32 - 2), Range(U32 - 1, U32 - 1), Range(U32 - 1, U32 - 1)]
  {
    assert Chunk(U32 - 2, U32 - 1, 3) == 1;
    assert plan[0] == Range(U32 - 2, U32 - 2);
  }

  /** The workers' outputs, one after another. */
  function AllOutputs(f: seq<byte>, idx: seq<byte>, first: nat, plan: seq<Range>): Option<seq<Visit>> {
    if plan == [] then Some([]) else
    var head :- WorkerOutput(f, idx, first, plan[0].cs, plan[0].ce);
    var tail :- AllOutputs(f, idx, first, plan[1..]);
    Some(head + tail)
  }

  lemma {:induction false} TiledWorkers(steps: Steps, plan: seq<Range>, start: nat, end: nat)
    requires Legal(steps) && First(steps) <= start && end <= Last(steps) && Tiles(plan, start, end)
    ensures AllOutputs(LogFile(steps), IndexFile(Slots(steps)), First(steps), plan)
            == Some(Canonical(steps, start, end))
  {
    hide LogFile; hide IndexFile; hide Slots; hide Legal; hide WorkerOutput; hide Survivor; hide Pos;
    if plan != [] {
      var mid := plan[0].ce;
      TilesEnd(plan[1..], mid + 1, end);
      WalkAgreesWithIndex(steps, start, mid);
      TiledWorkers(steps, plan[1..], mid + 1, end);
      CanonicalSplit(steps, start, mid, end);
    }
  }

  lemma {:induction false} TilesEnd(plan: seq<Range>, start: nat, end: nat)
    requires Tiles(plan, start, end)
    ensures start <= end + 1
  {
    if plan != [] {
      TilesEnd(plan[1..], plan[0].ce + 1, end);
    }
  }

  lemma {:induction false} CanonicalSplit(steps: Steps, n: nat, mid: nat, end: nat)
    requires Legal(steps) && First(steps) <= n <= mid + 1 && mid <= end <= Last(steps)
    ensures Canonical(steps, n, end) == Canonical(steps, n, mid) + Canonical(steps, mid + 1, end)
    decreases mid + 1 - n
  {
    hide LogFile; hide Legal; hide Survivor; hide Pos;
    if n <= mid {
      CanonicalSplit(steps, n + 1, mid, end);
    }
  }

  /**
   All workers together read every block of `start..=end` once, in block order, exactly as the
   index gives it, whatever forks the history holds.
   */
  lemma AllWorkersReadTheChain(steps: Steps, start: nat, end: nat, threads: nat, plan: seq<Range>)
    requires Legal(steps) && First(steps) <= start <= end <= Last(steps)
    requires threads > 0 && IsPlan(start, end, threads, plan)
    ensures AllOutputs(LogFile(steps), IndexFile(Slots(steps)), First(steps), plan)
            == Some(Canonical(steps, start, end))
  {
    hide LogFile; hide IndexFile; hide Slots; hide IsPlan; hide Tiles; hide AllOutputs; hide Canonical;
    SplitIsExact(start, end, threads, plan);
    assert steps[|steps| - 1].Wf();
    TiledWorkers(steps, plan, start, end);
  }
}
