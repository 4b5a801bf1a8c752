/** What the workers of one run are handed: when it is the range, chunk by chunk, and when it is not. */
module DiskClaims {
  import opened Bytes
  import opened DiskScan

  /** How many claims it takes to hand out `start..=end`. */
  function Rounds(start: nat, end: nat, chunk: nat): nat
    requires chunk > 0 && start <= end
  {
    (end - start) / chunk + 1
  }

  /** What the `k`-th claim after the range is used up is handed. */
  function Overshoot(start: nat, end: nat, chunk: nat, k: nat): nat
    requires chunk > 0 && start <= end
  {
    (start + (Rounds(start, end, chunk) + k) * chunk) % U64
  }

  /** Each worker overshoots at most once; none of them may be handed a block number up to the end again. */
  ghost predicate NoneComesBack(start: nat, end: nat, chunk: nat, threads: nat)
    requires chunk > 0 && start <= end
  {
    forall k: nat :: k < threads ==> Overshoot(start, end, chunk, k) > end
  }

  ghost predicate Fits(r: Run) {
    r.start <= r.end && r.chunk > 0 && NoneComesBack(r.start, r.end, r.chunk, |r.workers|)
  }

  function ExitCount(ws: seq<Worker>): nat {
    if ws == [] then 0 else ExitCount(ws[1..]) + if ws[0].Exited? then 1 else 0
  }

  // Arithmetic of rounds.

  lemma Distribute(a: int, d: int, c: nat)
    ensures (a + d) * c == a * c + c * d
  {
  }

  lemma MulOrder(a: int, b: int, c: nat)
    requires a < b
    ensures a * c + c <= b * c
  {
    var d := b - a;
    Distribute(a, d, c);
    if c > 0 { MulAtLeast(c, d); }
  }

  lemma MulStep(c: nat, a: nat, b: nat)
    requires a <= b
    ensures c * (a + 1) == c * a + c && c * a <= c * b
  {
  }

  lemma RoundsReach(start: nat, end: nat, chunk: nat)
    requires chunk > 0 && start <= end
    ensures end < start + Rounds(start, end, chunk) * chunk <= end + chunk
    ensures start + (Rounds(start, end, chunk) - 1) * chunk <= end
  {
    var q := (end - start) / chunk;
    assert end - start == chunk * q + (end - start) % chunk;
    assert (q + 1) * chunk == chunk * q + chunk && q * chunk == chunk * q;
  }

  /** The reach is past the range exactly after all rounds. */
  lemma PastMeans(start: nat, end: nat, chunk: nat, claims: nat)
    requires chunk > 0 && start <= end
    ensures start + claims * chunk > end <==> claims >= Rounds(start, end, chunk)
  {
    var m := Rounds(start, end, chunk);
    RoundsReach(start, end, chunk);
    if claims > m { MulOrder(m, claims, chunk); }
    if claims < m - 1 { MulOrder(claims, m - 1, chunk); }
  }

  // The invariant of a run that fits.

  ghost predicate Orderly(r: Run)
    requires r.start <= r.end && r.chunk > 0
  {
    && r.Reach() <= r.end + r.chunk * (ExitCount(r.workers) + 1)
    && |r.handed| == Min(r.claims, Rounds(r.start, r.end, r.chunk))
    && InSteps(r)
  }

  /** The chunk starts handed out are those from the start, in order. */
  ghost predicate InSteps(r: Run) {
    forall k: nat :: k < |r.handed| ==> r.handed[k] == r.start + k * r.chunk
  }

  /**
   Every chunk handed out is in exactly one place: completed, failed, or with exactly one worker; and
   nothing else is in any of them.
   */
  ghost predicate Accounted(r: Run) {
    && (forall x: nat :: x in r.handed <==> x in r.completed || x in r.failed || Busy(r, x))
    && r.completed !! r.failed
    && (forall w :: 0 <= w < |r.workers| && r.workers[w].Scanning? ==>
          r.workers[w].cs !in r.completed && r.workers[w].cs !in r.failed)
    && (forall v, w :: 0 <= v < w < |r.workers| && r.workers[v].Scanning? && r.workers[w].Scanning? ==>
          r.workers[v].cs != r.workers[w].cs)
  }

  ghost predicate Tidy(s: State) {
    s.run.Some? && Fits(s.run.value) ==> Orderly(s.run.value) && Accounted(s.run.value)
  }

  lemma {:induction false} ExitCountUpdate(ws: seq<Worker>, w: nat, st: Worker)
    requires w < |ws| && !ws[w].Exited?
    ensures ExitCount(ws[w := st]) == ExitCount(ws) + (if st.Exited? then 1 else 0)
    ensures ExitCount(ws) < |ws|
  {
    if w == 0 {
      ExitCountBound(ws[1..]);
      assert ws[0 := st][1..] == ws[1..];
    } else {
      ExitCountUpdate(ws[1..], w - 1, st);
      assert ws[w := st][1..] == ws[1..][w - 1 := st];
    }
  }

  lemma {:induction false} ExitCountBound(ws: seq<Worker>)
    ensures ExitCount(ws) <= |ws|
  {
    if ws != [] { ExitCountBound(ws[1..]); }
  }

  /** As long as some worker is running, the wrapped cursor tells correctly whether the range is used up. */
  lemma CursorTells(from: nat, r: Run, w: nat)
    requires Shape(from, r) && Fits(r) && Orderly(r) && w < |r.workers| && r.workers[w].Idle?
    ensures r.cursor > r.end <==> r.Reach() > r.end
    ensures r.Reach() <= r.end ==> r.cursor == r.Reach()
  {
    ExitCountUpdate(r.workers, w, Idle);
    if r.Reach() > r.end {
      PastMeans(r.start, r.end, r.chunk, r.claims);
      RoundsReach(r.start, r.end, r.chunk);
      var m, e := Rounds(r.start, r.end, r.chunk), ExitCount(r.workers);
      var k := r.claims - m;
      if k > e {
        MulOrder(m + e, r.claims, r.chunk);
        OverBound(m, e, r.chunk);
      }
      assert Overshoot(r.start, r.end, r.chunk, k) > r.end;
    }
  }

  lemma OverBound(m: nat, e: nat, c: nat)
    ensures (m + e) * c + c == m * c + c * (e + 1)
  {
  }

  lemma ReachNext(r: Run, q: Run)
    requires q.start == r.start && q.chunk == r.chunk && q.claims == r.claims + 1
    ensures q.Reach() == r.Reach() + r.chunk
  {
    assert (r.claims + 1) * r.chunk == r.claims * r.chunk + r.chunk;
  }

  lemma ClaimIsOrderly(from: nat, r: Run, w: nat)
    requires Shape(from, r) && Fits(r) && Orderly(r) && w < |r.workers| && r.workers[w].Idle?
    ensures Orderly(Claimed(r, w))
    ensures r.cursor <= r.end ==> r.cursor == r.Reach() && r.cursor !in r.handed
  {
    hide ExitCount; hide Rounds; hide Run.Reach;
    var q := Claimed(r, w);
    CursorTells(from, r, w);
    ReachNext(r, q);
    ReachOf(r);
    PastMeans(r.start, r.end, r.chunk, r.claims);
    ExitCountUpdate(r.workers, w, q.workers[w]);
    MulStep(r.chunk, 1, ExitCount(r.workers) + 1);
    if r.cursor <= r.end { NewIsNew(r); }
  }

  lemma NewIsNew(r: Run)
    requires r.chunk > 0 && |r.handed| <= r.claims && InSteps(r)
    ensures r.Reach() !in r.handed
  {
    forall k: nat | k < |r.handed|
      ensures r.handed[k] != r.Reach()
    {
      MulOrder(k, r.claims, r.chunk);
    }
  }

  lemma BusyAfter(r: Run, q: Run, w: nat, x: nat)
    requires w < |r.workers| == |q.workers| && q.workers == r.workers[w := q.workers[w]]
    ensures Busy(q, x) ==> q.workers[w] == Scanning(x) || Busy(r, x)
    ensures q.workers[w] == Scanning(x) ==> Busy(q, x)
    ensures Busy(r, x) && r.workers[w] != Scanning(x) ==> Busy(q, x)
    ensures r.workers[w] == Scanning(x) ==> Busy(r, x)
  {
    if Busy(q, x) {
      var v :| 0 <= v < |q.workers| && q.workers[v] == Scanning(x);
      if v != w { assert r.workers[v] == Scanning(x); }
    }
    if Busy(r, x) && r.workers[w] != Scanning(x) {
      var v :| 0 <= v < |r.workers| && r.workers[v] == Scanning(x);
      assert q.workers[v] == Scanning(x);
    }
  }

  lemma ClaimIsAccounted(r: Run, w: nat)
    requires Accounted(r) && w < |r.workers| && r.workers[w].Idle? && (r.cursor <= r.end ==> r.cursor !in r.handed)
    ensures Accounted(Claimed(r, w))
  {
    hide Busy;
    var q := Claimed(r, w);
    forall x: nat
      ensures x in q.handed <==> x in q.completed || x in q.failed || Busy(q, x)
    {
      BusyAfter(r, q, w, x);
    }
    forall v | 0 <= v < |r.workers| && r.workers[v].Scanning?
      ensures r.workers[v].cs in r.handed
    {
      BusyAfter(r, r, v, r.workers[v].cs);
    }
  }

  /** A chunk leaves its worker for exactly one of the two sets. */
  lemma LeaveIsAccounted(r: Run, q: Run, w: nat)
    requires Accounted(r) && w < |r.workers| == |q.workers| && q.workers == r.workers[w := q.workers[w]]
    requires !q.workers[w].Scanning? && q.handed == r.handed
    requires || (q.completed == r.completed + Lost(r.workers[w]) && q.failed == r.failed)
             || (q.completed == r.completed && q.failed == r.failed + Lost(r.workers[w]))
    ensures Accounted(q)
  {
    hide Busy;
    forall x: nat
      ensures x in q.handed <==> x in q.completed || x in q.failed || Busy(q, x)
    {
      BusyAfter(r, q, w, x);
      if r.workers[w] == Scanning(x) { NotBusyTwice(r, q, w, x); }
    }
  }

  lemma NotBusyTwice(r: Run, q: Run, w: nat, x: nat)
    requires Accounted(r) && w < |r.workers| == |q.workers| && r.workers[w] == Scanning(x)
    requires q.workers == r.workers[w := q.workers[w]] && !q.workers[w].Scanning?
    ensures !Busy(q, x)
  {
  }

  lemma StepKeepsTidy(from: nat, s: State, step: Step, t: State)
    requires Inv(from, s) && Tidy(s) && Next(from, s, step, t)
    ensures Tidy(t)
  {
    hide Watermark; hide Blocks; hide CleanOk; hide SafeOk; hide CompletedOk; hide ExitCount; hide Rounds;
    hide NoneComesBack; hide Run.Reach;
    if step.Begin? {
      if t != s { BeginIsTidy(t.run.value); }
    } else if s.run.Some? && t.run.Some? && Fits(t.run.value) {
      var r, q := s.run.value, t.run.value;
      if step.Claim? {
        ClaimIsOrderly(from, r, step.w);
        ClaimIsAccounted(r, step.w);
      } else {
        SameReach(r, q);
        if step.Succeed? || step.Fail? || step.Die? {
          hide Accounted;
          ExitCountUpdate(r.workers, step.w, q.workers[step.w]);
          MulStep(r.chunk, ExitCount(r.workers) + 1, ExitCount(q.workers) + 1);
          LeaveIsAccounted(r, q, step.w);
        }
      }
    }
  }

  lemma SameReach(r: Run, q: Run)
    requires q.start == r.start && q.chunk == r.chunk && q.claims == r.claims
    ensures q.Reach() == r.Reach()
  {
  }

  lemma BeginIsTidy(r: Run)
    requires r.start <= r.end && r.chunk > 0 && r.claims == 0 && r.handed == [] && r.completed == {} && r.failed == {}
    requires forall w :: 0 <= w < |r.workers| ==> r.workers[w].Idle?
    ensures Orderly(r) && Accounted(r)
  {
    hide ExitCount;
    MulStep(r.chunk, 0, ExitCount(r.workers));
  }

  lemma {:induction false} HistoryIsTidy(from: nat, states: seq<State>, steps: seq<Step>, i: nat)
    requires History(from, states, steps) && i < |states|
    ensures Inv(from, states[i]) && Tidy(states[i])
  {
    hide Next; hide Inv;
    HistoryKeepsInv(from, states, steps, i);
    if i > 0 {
      HistoryIsTidy(from, states, steps, i - 1);
      hide Tidy;
      StepKeepsTidy(from, states[i - 1], steps[i - 1], states[i]);
    }
  }

  // The partition.

  /** The blocks a worker scans when handed the `k`-th chunk. */
  function ChunkBlocks(r: Run, k: nat): set<nat>
    requires k < |r.handed|
  {
    Blocks(r.handed[k], r.ChunkEnd(r.handed[k]))
  }

  lemma WrappedIsBelow(c: nat, chunk: nat, end: nat)
    requires 0 < chunk < U64 && c <= end + chunk && end < U32
    ensures c > U64 ==> c % U64 <= end
  {
    if c > U64 { assert c % U64 == c - U64; }
  }

  lemma FirstOvershoot(start: nat, end: nat, chunk: nat)
    requires chunk > 0 && start <= end
    ensures Overshoot(start, end, chunk, 0) == (start + Rounds(start, end, chunk) * chunk) % U64
  {
    hide Rounds;
  }

  /** The boundary after the last chunk is at most 2^64. */
  lemma LastBoundary(from: nat, r: Run)
    requires Shape(from, r) && Fits(r)
    ensures r.start + Rounds(r.start, r.end, r.chunk) * r.chunk <= U64
  {
    FirstOvershoot(r.start, r.end, r.chunk);
    assert Overshoot(r.start, r.end, r.chunk, 0) > r.end;
    hide Rounds; hide Overshoot; hide NoneComesBack;
    RoundsReach(r.start, r.end, r.chunk);
    WrappedIsBelow(r.start + Rounds(r.start, r.end, r.chunk) * r.chunk, r.chunk, r.end);
  }

  /** Chunk ends of a run that fits do not wrap. */
  lemma ChunkEndIsPlain(from: nat, r: Run, k: nat)
    requires Shape(from, r) && Fits(r) && Orderly(r) && k < |r.handed|
    ensures r.handed[k] <= r.end && r.ChunkEnd(r.handed[k]) == Min(r.handed[k] + r.chunk - 1, r.end)
  {
    LastBoundary(from, r);
    PastMeans(r.start, r.end, r.chunk, k);
    hide ExitCount; hide Rounds; hide Run.Reach; hide NoneComesBack;
    MulOrder(k, Rounds(r.start, r.end, r.chunk), r.chunk);
    SmallMod(r.handed[k] + r.chunk - 1);
  }

  lemma ChunksAreApart(from: nat, r: Run, j: nat, k: nat)
    requires Shape(from, r) && Fits(r) && Orderly(r) && j < k < |r.handed|
    ensures ChunkBlocks(r, j) !! ChunkBlocks(r, k)
  {
    hide Blocks; hide ExitCount; hide Rounds; hide Run.Reach; hide NoneComesBack; hide Run.ChunkEnd;
    ChunkEndIsPlain(from, r, j);
    MulOrder(j, k, r.chunk);
  }

  /** The chunk of the `k`-th round that a block of the range lies in. */
  lemma RoundOf(start: nat, chunk: nat, b: nat) returns (k: nat)
    requires chunk > 0 && start <= b
    ensures start + k * chunk <= b < start + k * chunk + chunk
  {
    k := (b - start) / chunk;
    assert b - start == chunk * k + (b - start) % chunk;
    assert k * chunk == chunk * k;
  }

  ghost predicate InSomeChunk(r: Run, b: nat) {
    exists k: nat :: k < |r.handed| && b in ChunkBlocks(r, k)
  }

  lemma HandedIsPassed(from: nat, r: Run, k: nat, b: nat)
    requires Shape(from, r) && Fits(r) && Orderly(r) && k < |r.handed| && b in ChunkBlocks(r, k)
    ensures r.start <= b < Min(r.Reach(), r.end + 1)
  {
    hide Blocks; hide ExitCount; hide NoneComesBack; hide Run.ChunkEnd; hide Rounds; hide Run.Reach;
    ChunkEndIsPlain(from, r, k);
    ReachOf(r);
    MulOrder(k, r.claims, r.chunk);
  }

  lemma PassedIsHanded(from: nat, r: Run, b: nat)
    requires Shape(from, r) && Fits(r) && Orderly(r) && r.start <= b < Min(r.Reach(), r.end + 1)
    ensures InSomeChunk(r, b)
  {
    hide Blocks; hide ExitCount; hide NoneComesBack; hide Run.ChunkEnd; hide Rounds; hide Run.Reach;
    var k := RoundOf(r.start, r.chunk, b);
    PastMeans(r.start, r.end, r.chunk, k);
    ReachOf(r);
    if k > r.claims { MulOrder(r.claims, k, r.chunk); }
    ChunkEndIsPlain(from, r, k);
    assert b in ChunkBlocks(r, k);
  }

  lemma ChunksCover(from: nat, r: Run, b: nat)
    requires Shape(from, r) && Fits(r) && Orderly(r)
    ensures InSomeChunk(r, b) <==> r.start <= b < Min(r.Reach(), r.end + 1)
  {
    hide Orderly; hide Shape; hide Fits; hide ChunkBlocks; hide Run.Reach;
    if r.start <= b < Min(r.Reach(), r.end + 1) { PassedIsHanded(from, r, b); }
    if InSomeChunk(r, b) {
      var k: nat :| k < |r.handed| && b in ChunkBlocks(r, k);
      HandedIsPassed(from, r, k, b);
    }
  }

  /** What the workers were handed is a partition of what the cursor has passed. */
  ghost predicate Partitioned(r: Run)
    requires r.start <= r.end && r.chunk > 0
  {
    && InSteps(r) && (forall k: nat :: k < |r.handed| ==> r.handed[k] <= r.end)
    && (forall j: nat, k: nat :: j < k < |r.handed| ==> ChunkBlocks(r, j) !! ChunkBlocks(r, k))
    && (forall b: nat :: InSomeChunk(r, b) <==> r.start <= b < Min(r.Reach(), r.end + 1))
  }

  lemma OrderlyIsPartitioned(from: nat, r: Run)
    requires Shape(from, r) && Fits(r) && Orderly(r)
    ensures Partitioned(r)
  {
    hide Blocks; hide ExitCount; hide NoneComesBack; hide Run.ChunkEnd; hide ChunkBlocks; hide Rounds; hide Run.Reach;
    hide InSomeChunk; hide InSteps;
    forall k: nat | k < |r.handed|
      ensures r.handed[k] <= r.end
    {
      ChunkEndIsPlain(from, r, k);
    }
    forall j: nat, k: nat | j < k < |r.handed|
      ensures ChunkBlocks(r, j) !! ChunkBlocks(r, k)
    {
      ChunksAreApart(from, r, j, k);
    }
    forall b: nat
      ensures InSomeChunk(r, b) <==> r.start <= b < Min(r.Reach(), r.end + 1)
    {
      ChunksCover(from, r, b);
    }
  }

  /**
   In every history, at every moment of a run that fits: the chunks handed to workers are those from the
   start in order, no block is in two of them, together they are exactly what the cursor has passed, and
   each is completed, failed or with one worker, never handed out again.
   */
  lemma ClaimsPartitionTheRange(from: nat, states: seq<State>, steps: seq<Step>, i: nat)
    requires History(from, states, steps) && i < |states| && states[i].run.Some? && Fits(states[i].run.value)
    ensures Partitioned(states[i].run.value) && Accounted(states[i].run.value)
  {
    hide Partitioned; hide Accounted; hide Orderly; hide NoneComesBack; hide Next;
    HistoryIsTidy(from, states, steps, i);
    OrderlyIsPartitioned(from, states[i].run.value);
  }

  // The condition is exact.

  /** Some worker was handed a chunk from below the range, or from a chunk handed out before. */
  ghost predicate Repeats(r: Run) {
    exists k: nat :: k < |r.handed| &&
      (r.handed[k] < r.start || exists j: nat :: j < k && r.handed[k] in ChunkBlocks(r, j))
  }

  /** In a run that fits, no worker ever is: not even a failed chunk is handed out again. */
  lemma NoChunkRepeats(from: nat, states: seq<State>, steps: seq<Step>, i: nat)
    requires History(from, states, steps) && i < |states| && states[i].run.Some? && Fits(states[i].run.value)
    ensures !Repeats(states[i].run.value)
  {
    hide NoneComesBack; hide Next; hide Blocks; hide Accounted; hide Run.Reach; hide Orderly;
    HistoryIsTidy(from, states, steps, i);
    var r := states[i].run.value;
    OrderlyIsPartitioned(from, r);
    hide Run.ChunkEnd;
    forall k: nat | k < |r.handed|
      ensures r.handed[k] in ChunkBlocks(r, k)
    {
      ChunkEndIsPlain(from, r, k);
    }
    hide ChunkBlocks;
  }

  /** The same run after `claims` claims, with the first `n` chunks handed out. */
  ghost predicate Later(r: Run, r0: Run, claims: nat, n: nat) {
    && r.start == r0.start && r.end == r0.end && r.chunk == r0.chunk && |r.workers| == |r0.workers|
    && r.claims == claims && r.cursor == Given(r, claims)
    && |r.handed| == n && InSteps(r)
  }

  /** One worker scans the whole range, round by round. */
  lemma {:induction false} RoundsRun(from: nat, s: State, w: nat, n: nat) returns (t: State)
    requires s.run.Some? && Fresh(from, s.run.value) && w < |s.run.value.workers|
    requires n <= Rounds(s.run.value.start, s.run.value.end, s.run.value.chunk)
    ensures Leads(from, s, t) && t.run.Some? && Later(t.run.value, s.run.value, n, n)
    ensures t.run.value.workers == s.run.value.workers
    decreases n
  {
    hide Blocks; hide Leads;
    if n == 0 {
      LeadsStay(from, s);
      t := s;
    } else {
      var u := RoundsRun(from, s, w, n - 1);
      var r := u.run.value;
      PastMeans(r.start, r.end, r.chunk, n - 1);
      SmallMod(r.start + (n - 1) * r.chunk);
      t := ScanOne(from, s, u, w);
      OneRound(r, s.run.value, n - 1);
    }
  }

  lemma OneRound(r: Run, r0: Run, n: nat)
    requires Later(r, r0, n, n) && r.cursor == r.start + n * r.chunk
    ensures Later(AfterOne(r), r0, n + 1, n + 1)
  {
    GivenNext(r, n);
    SameGiven(r, AfterOne(r));
    hide Given;
  }

  /** Then the workers before it overshoot and exit, one by one. */
  lemma {:induction false} ExitsRun(from: nat, s: State, w: nat, n: nat) returns (t: State)
    requires s.run.Some? && Fresh(from, s.run.value) && n <= w < |s.run.value.workers|
    requires NoneComesBack(s.run.value.start, s.run.value.end, s.run.value.chunk, n)
    ensures Leads(from, s, t) && t.run.Some?
    ensures var m := Rounds(s.run.value.start, s.run.value.end, s.run.value.chunk);
            Later(t.run.value, s.run.value, m + n, m)
    ensures forall v :: n <= v < |t.run.value.workers| ==> t.run.value.workers[v].Idle?
    decreases n
  {
    hide Blocks; hide Leads; hide Given; hide Rounds;
    var r0 := s.run.value;
    var m := Rounds(r0.start, r0.end, r0.chunk);
    if n == 0 {
      t := RoundsRun(from, s, w, m);
    } else {
      var u := ExitsRun(from, s, w, n - 1);
      var r := u.run.value;
      assert Overshoot(r0.start, r0.end, r0.chunk, n - 1) > r0.end;
      OvershootIsGiven(r, n - 1);
      hide Overshoot; hide NoneComesBack; hide InSteps;
      t := u.(run := Some(Claimed(r, n - 1)));
      LeadsOn(from, s, u, Claim(n - 1), t);
      OneExit(r, r0, m + n - 1, m, n - 1);
    }
  }

  lemma OneExit(r: Run, r0: Run, claims: nat, m: nat, w: nat)
    requires Later(r, r0, claims, m) && w < |r.workers| && r.cursor > r.end
    ensures Later(Claimed(r, w), r0, claims + 1, m)
  {
    GivenNext(r, claims);
    SameGiven(r, Claimed(r, w));
    hide Given;
  }

  lemma OvershootIsGiven(r: Run, k: nat)
    requires r.chunk > 0 && r.start <= r.end
    ensures Overshoot(r.start, r.end, r.chunk, k) == Given(r, Rounds(r.start, r.end, r.chunk) + k)
  {
  }

  lemma Smallest(start: nat, end: nat, chunk: nat, threads: nat) returns (k: nat)
    requires chunk > 0 && start <= end && !NoneComesBack(start, end, chunk, threads)
    ensures k < threads && NoneComesBack(start, end, chunk, k) && Overshoot(start, end, chunk, k) <= end
  {
    hide Overshoot;
    k := 0;
    while Overshoot(start, end, chunk, k) > end
      invariant k <= threads && NoneComesBack(start, end, chunk, k)
      decreases threads - k
    {
      if k == threads { break; }
      k := k + 1;
    }
  }

  /** A chunk that holds what came back has an end that did not wrap. */
  lemma HolderIsPlain(r: Run, m: nat, k: nat, j: nat)
    requires r.start <= r.end < U32 && 0 < r.chunk < U64 && m == Rounds(r.start, r.end, r.chunk) && j < m
    requires r.start + j * r.chunk <= Given(r, m + k) <= r.end && (k > 0 ==> Given(r, m) > r.end)
    ensures r.start + j * r.chunk + r.chunk <= U64
  {
    RoundsReach(r.start, r.end, r.chunk);
    hide Rounds;
    Distribute(m - 1, 1, r.chunk);
    if j < m - 1 {
      MulOrder(j, m - 1, r.chunk);
    } else {
      var c := r.start + m * r.chunk;
      if k > 0 { WrappedIsBelow(c, r.chunk, r.end); }
    }
  }

  /** What comes back lies below the range or in a chunk handed out before. */
  lemma ComesBackInside(r: Run, m: nat, k: nat)
    requires r.start <= r.end < U32 && 0 < r.chunk < U64 && m == Rounds(r.start, r.end, r.chunk) <= |r.handed|
    requires forall i: nat :: i < m ==> r.handed[i] == r.start + i * r.chunk
    requires r.start <= Given(r, m + k) <= r.end && (k > 0 ==> Given(r, m) > r.end)
    ensures exists j: nat :: j < m && Given(r, m + k) in ChunkBlocks(r, j)
  {
    hide Blocks; hide Given; hide Rounds;
    var b := Given(r, m + k);
    var j := RoundOf(r.start, r.chunk, b);
    PastMeans(r.start, r.end, r.chunk, j);
    HolderIsPlain(r, m, k, j);
    SmallMod(r.handed[j] + r.chunk - 1);
    assert b in ChunkBlocks(r, j);
  }

  /** A run that does not fit can be driven to hand a worker a chunk from below the range, or one handed out before. */
  lemma RepeatsOtherwise(from: nat, s: State, step: Step, t: State) returns (u: State)
    requires Inv(from, s) && step.Begin? && Next(from, s, step, t) && t.run.Some? && !Fits(t.run.value)
    ensures Leads(from, t, u) && u.run.Some? && Repeats(u.run.value)
  {
    BegunIsFresh(from, s, step, t);
    hide Inv; hide Next;
    var r0 := t.run.value;
    var k := Smallest(r0.start, r0.end, r0.chunk, |r0.workers|);
    var v := ExitsRun(from, t, k, k);
    u := LastClaim(from, t, v, k);
  }

  lemma LastClaim(from: nat, t: State, v: State, k: nat) returns (u: State)
    requires Leads(from, t, v) && t.run.Some? && v.run.Some? && Fresh(from, t.run.value) && k < |t.run.value.workers|
    requires var m := Rounds(t.run.value.start, t.run.value.end, t.run.value.chunk);
             Later(v.run.value, t.run.value, m + k, m)
    requires v.run.value.workers[k].Idle? && NoneComesBack(t.run.value.start, t.run.value.end, t.run.value.chunk, k)
    requires Overshoot(t.run.value.start, t.run.value.end, t.run.value.chunk, k) <= t.run.value.end
    ensures Leads(from, t, u) && u.run.Some? && Repeats(u.run.value)
  {
    hide Blocks; hide Leads; hide Given; hide Run.ChunkEnd;
    var r := v.run.value;
    var m := Rounds(r.start, r.end, r.chunk);
    OvershootIsGiven(r, k);
    var q := Claimed(r, k);
    u := v.(run := Some(q));
    LeadsOn(from, t, v, Claim(k), u);
    SameGiven(r, q);
    if r.cursor >= r.start {
      if k > 0 {
        assert Overshoot(r.start, r.end, r.chunk, 0) > r.end;
        OvershootIsGiven(r, 0);
      }
      hide Rounds; hide ChunkBlocks;
      ComesBackInside(q, m, k);
    }
    assert q.handed[m] == r.cursor;
  }

  /** Ordinary settings fit: the cursor then never wraps at all. */
  lemma OrdinaryRunsFit(start: nat, end: nat, chunk: nat, threads: nat)
    requires chunk > 0 && start <= end && end + chunk * (threads + 1) < U64
    ensures NoneComesBack(start, end, chunk, threads)
  {
    var m := Rounds(start, end, chunk);
    RoundsReach(start, end, chunk);
    forall k: nat | k < threads
      ensures Overshoot(start, end, chunk, k) > end
    {
      Distribute(m, k, chunk);
      MulStep(chunk, k, threads);
      MulStep(chunk, threads, threads);
    }
  }

  /** The largest chunk does not: the second claim is handed block 1. */
  lemma HugeChunkDoesNotFit()
    ensures !NoneComesBack(2, 5, U64 - 1, 2) && Overshoot(2, 5, U64 - 1, 0) == 1
  {
    assert Overshoot(2, 5, U64 - 1, 0) == 1 by { assert Rounds(2, 5, U64 - 1) == 1; }
  }
}
