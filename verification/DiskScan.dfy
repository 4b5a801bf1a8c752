/**
 The parallel ABI scan with its resume checkpoint, as a state machine over whole histories of runs:
 workers claim chunks from a shared cursor, the monitor advances and stores the watermark, and a
 crash may end a run at any step. `scanned` records every block of a chunk scanned successfully.
 Arithmetic on 64-bit words wraps.
 */
module DiskScan {
  import opened Bytes

  datatype Worker = Idle | Scanning(cs: nat) | Exited

  /**
   One run over `start..=end`. `pending` is a watermark computed but not yet stored. What the program
   does not keep is kept here for the statements: `claims` counts the claims made, `handed` lists the
   chunk starts given to workers, `failed` those whose scan failed or whose worker died, and `clean`
   says that nothing failed and no worker died.
   */
  datatype Run = Run(
    start: nat, end: nat, chunk: nat, cursor: nat, claims: nat, handed: seq<nat>, workers: seq<Worker>,
    completed: set<nat>, failed: set<nat>, wm: nat, pending: Option<nat>, clean: bool)
  {
    function ChunkEnd(cs: nat): nat {
      Min((cs + chunk - 1) % U64, end)
    }
    predicate AllExited() {
      forall w :: 0 <= w < |workers| ==> workers[w].Exited?
    }
    /** Where the cursor would be without wrapping. */
    function Reach(): nat {
      start + claims * chunk
    }
  }

  datatype State = State(checkpoint: Option<nat>, scanned: set<nat>, run: Option<Run>)

  datatype Step =
    | Begin(end: nat, chunkSize: nat, threads: nat)
    | Claim(w: nat)
    | Succeed(w: nat)
    | Fail(w: nat)
    | Die(w: nat)
    | Advance
    | Store(ok: bool)
    | Finish(ok: bool)
    | Crash

  function Blocks(cs: nat, ce: nat): (s: set<nat>)
    ensures forall b :: b in s <==> cs <= b <= ce
    decreases ce + 1 - cs
  {
    if ce < cs then {} else {cs} + Blocks(cs + 1, ce)
  }

  // The watermark.

  /** Chunk starts of blocks in range. */
  predicate Small(completed: set<nat>) {
    forall x :: x in completed ==> x < U32
  }

  /** From block numbers, adding `chunk` only ever goes up, or only ever goes down, until it leaves them. */
  function Rank(wm: nat, chunk: nat): nat {
    if wm >= U32 then 0 else if chunk < U64 / 2 then U32 - wm else wm + 1
  }

  /** The first chunk start from `wm` on, in steps of `chunk`, that is not completed. */
  function Watermark(completed: set<nat>, wm: nat, chunk: nat): nat
    requires 0 < chunk < U64 && Small(completed)
    decreases Rank(wm, chunk)
  {
    if wm in completed then Watermark(completed, (wm + chunk) % U64, chunk) else wm
  }

  /** The loop both the monitor and the final write run. */
  method AdvanceWatermark(completed: set<nat>, from: nat, chunk: nat) returns (wm: nat)
    requires 0 < chunk < U64 && Small(completed)
    ensures wm == Watermark(completed, from, chunk)
  {
    wm := from;
    while wm in completed
      invariant Watermark(completed, wm, chunk) == Watermark(completed, from, chunk)
      decreases Rank(wm, chunk)
    {
      wm := (wm + chunk) % U64;
    }
  }

  // The steps.

  /** Where a run started with this checkpoint begins. */
  function ResumeAt(checkpoint: Option<nat>, from: nat): nat {
    if checkpoint.Some? then Max(checkpoint.value, from) else from
  }

  function SetWorker(r: Run, w: nat, st: Worker): Run
    requires w < |r.workers|
  {
    r.(workers := r.workers[w := st])
  }

  /** One claim: the cursor moves, and the worker is given the chunk it was at, or exits past the range. */
  function Claimed(r: Run, w: nat): Run
    requires w < |r.workers|
  {
    SetWorker(r, w, if r.cursor > r.end then Exited else Scanning(r.cursor))
      .(cursor := (r.cursor + r.chunk) % U64, claims := r.claims + 1,
        handed := if r.cursor > r.end then r.handed else r.handed + [r.cursor])
  }

  function Lost(w: Worker): set<nat> {
    if w.Scanning? then {w.cs} else {}
  }

  function Begun(checkpoint: Option<nat>, from: nat, step: Step): Run
    requires step.Begin?
  {
    var start := ResumeAt(checkpoint, from);
    Run(start, step.end, if step.chunkSize == 0 then 1 else step.chunkSize, start, 0, [],
        seq(if step.threads == 0 then 1 else step.threads, _ => Idle), {}, {}, start, None, true)
  }

  /** One step of the program, the operating system or an operator. `from` is the command's start. */
  predicate Next(from: nat, s: State, step: Step, t: State) {
    if step.Begin? then
      && s.run.None? && from <= step.end < U32 && step.chunkSize < U64
      && t == if s.checkpoint.Some? && s.checkpoint.value > step.end then s
              else s.(run := Some(Begun(s.checkpoint, from, step)))
    else
      s.run.Some? &&
      var r := s.run.value;
      match step
      case Claim(w) =>
        w < |r.workers| && r.workers[w].Idle? && t == s.(run := Some(Claimed(r, w)))
      case Succeed(w) =>
        && w < |r.workers| && r.workers[w].Scanning?
        && var cs := r.workers[w].cs;
           t == s.(scanned := s.scanned + Blocks(cs, r.ChunkEnd(cs)),
                   run := Some(SetWorker(r, w, Idle).(completed := r.completed + {cs})))
      case Fail(w) =>
        && w < |r.workers| && r.workers[w].Scanning?
        && t == s.(run := Some(SetWorker(r, w, Idle).(clean := false, failed := r.failed + Lost(r.workers[w]))))
      case Die(w) =>
        && w < |r.workers| && !r.workers[w].Exited?
        && t == s.(run := Some(SetWorker(r, w, Exited).(clean := false, failed := r.failed + Lost(r.workers[w]))))
      case Advance =>
        && r.pending.None? && 0 < r.chunk < U64 && Small(r.completed)
        && var wm := Watermark(r.completed, r.wm, r.chunk);
           t == s.(run := Some(r.(wm := wm, pending := Some(Min(wm, r.end + 1)))))
      case Store(ok) =>
        && r.pending.Some?
        && t == s.(checkpoint := if ok then r.pending else s.checkpoint, run := Some(r.(pending := None)))
      case Finish(ok) =>
        && r.AllExited() && r.pending.None? && 0 < r.chunk < U64 && Small(r.completed)
        && var done: nat := Min(Watermark(r.completed, r.start, r.chunk), r.end + 1);
           t == s.(checkpoint := if ok then Some(done) else s.checkpoint, run := None)
      case Crash =>
        t == s.(run := None)
  }

  const INITIAL: State := State(None, {}, None)

  /** A history: any interleaving of any number of runs, from no checkpoint at all. */
  ghost predicate History(from: nat, states: seq<State>, steps: seq<Step>) {
    && |states| == |steps| + 1 && states[0] == INITIAL
    && forall i :: 0 <= i < |steps| ==> Next(from, states[i], steps[i], states[i + 1])
  }

  // What every step keeps, whatever the chunk size.

  ghost predicate AllScanned(scanned: set<nat>, from: nat, to: nat) {
    forall b :: from <= b < to ==> b in scanned
  }

  /** Only block numbers are ever handed out, so the guards on `Advance` and `Finish` never bite. */
  ghost predicate Shape(from: nat, r: Run) {
    && from <= r.start <= r.end < U32 && 0 < r.chunk < U64 && |r.workers| > 0 && r.cursor == r.Reach() % U64
    && (forall x :: x in r.completed ==> x <= r.end)
    && forall w :: 0 <= w < |r.workers| && r.workers[w].Scanning? ==> r.workers[w].cs <= r.end
  }

  ghost predicate CompletedOk(r: Run, scanned: set<nat>) {
    forall x :: x in r.completed ==> AllScanned(scanned, x, r.ChunkEnd(x) + 1)
  }

  /** Whatever a watermark has passed was scanned. */
  ghost predicate SafeOk(from: nat, s: State, r: Run) {
    && AllScanned(s.scanned, from, r.start) && AllScanned(s.scanned, from, Min(r.wm, r.end + 1))
    && (r.pending.Some? ==> AllScanned(s.scanned, from, r.pending.value))
  }

  /** What the `k`-th claim was handed. */
  function Given(r: Run, k: nat): nat {
    (r.start + k * r.chunk) % U64
  }

  predicate Busy(r: Run, cs: nat) {
    exists w :: 0 <= w < |r.workers| && r.workers[w] == Scanning(cs)
  }

  ghost predicate Exhausted(r: Run) {
    exists k: nat :: k < r.claims && Given(r, k) > r.end
  }

  /** In a clean run every chunk handed out is completed or in progress, and workers exit past the range. */
  ghost predicate CleanOk(r: Run) {
    r.clean ==>
      && (forall k: nat :: k < r.claims && Given(r, k) <= r.end ==> Given(r, k) in r.completed || Busy(r, Given(r, k)))
      && (forall w :: 0 <= w < |r.workers| && r.workers[w].Exited? ==> Exhausted(r))
  }

  ghost predicate RunOk(from: nat, s: State, r: Run) {
    Shape(from, r) && CompletedOk(r, s.scanned) && SafeOk(from, s, r) && CleanOk(r)
  }

  ghost predicate Inv(from: nat, s: State) {
    && (s.checkpoint.Some? ==> AllScanned(s.scanned, from, s.checkpoint.value))
    && (s.run.Some? ==> RunOk(from, s, s.run.value))
  }

  lemma OneChunkIsSafe(from: nat, scanned: set<nat>, r: Run, wm: nat)
    requires 0 < r.chunk < U64 && r.end < U32 && Small(r.completed) && wm in r.completed
    requires CompletedOk(r, scanned) && AllScanned(scanned, from, Min(wm, r.end + 1))
    ensures AllScanned(scanned, from, Min((wm + r.chunk) % U64, r.end + 1))
  {
    if wm + r.chunk < U64 {
      assert AllScanned(scanned, wm, r.ChunkEnd(wm) + 1);
    } else {
      assert (wm + r.chunk) % U64 == wm + r.chunk - U64 < wm;
    }
  }

  /** Following completed chunks from a safe place stays safe, wrapping included. */
  lemma {:induction false} WatermarkIsSafe(from: nat, scanned: set<nat>, r: Run, wm: nat)
    requires 0 < r.chunk < U64 && r.end < U32 && Small(r.completed)
    requires CompletedOk(r, scanned) && AllScanned(scanned, from, Min(wm, r.end + 1))
    ensures AllScanned(scanned, from, Min(Watermark(r.completed, wm, r.chunk), r.end + 1))
    decreases Rank(wm, r.chunk)
  {
    if wm in r.completed {
      var next := (wm + r.chunk) % U64;
      OneChunkIsSafe(from, scanned, r, wm);
      hide AllScanned; hide CompletedOk;
      WatermarkIsSafe(from, scanned, r, next);
    }
  }

  lemma ShapeIsSmall(from: nat, r: Run)
    requires Shape(from, r)
    ensures Small(r.completed)
  {
  }

  lemma CursorIsGiven(from: nat, r: Run)
    requires Shape(from, r)
    ensures r.cursor == Given(r, r.claims)
    ensures (r.cursor + r.chunk) % U64 == Given(r, r.claims + 1)
  {
    GivenNext(r, r.claims);
  }

  lemma ClaimKeeps(from: nat, s: State, w: nat, t: State)
    requires Inv(from, s) && Next(from, s, Claim(w), t)
    ensures Inv(from, t)
  {
    hide Blocks; hide Watermark; hide AllScanned; hide Given; hide Run.ChunkEnd;
    var r, q := s.run.value, t.run.value;
    CursorIsGiven(from, r);
    SameGiven(r, q);
    assert Shape(from, q) by { ReachIsGiven(q); }
    assert forall x :: q.ChunkEnd(x) == r.ChunkEnd(x) by { SameChunkEnd(r, q); }
    forall k: nat | r.clean && k < q.claims && Given(q, k) <= q.end
      ensures Given(q, k) in q.completed || Busy(q, Given(q, k))
    {
      if k == r.claims {
        assert q.workers[w] == Scanning(r.cursor);
      } else if Given(r, k) !in r.completed {
        StaysBusy(r, q, w, Given(r, k));
      }
    }
    if r.clean { ExhaustedGrows(r, q); }
  }

  lemma ReachIsGiven(r: Run)
    ensures r.Reach() % U64 == Given(r, r.claims)
  {
  }

  lemma SameGiven(r: Run, q: Run)
    requires q.start == r.start && q.chunk == r.chunk
    ensures forall k: nat :: Given(q, k) == Given(r, k)
  {
  }

  lemma SameChunkEnd(r: Run, q: Run)
    requires q.end == r.end && q.chunk == r.chunk && r.chunk > 0
    ensures forall x: nat :: q.ChunkEnd(x) == r.ChunkEnd(x)
  {
  }

  lemma ExhaustedGrows(r: Run, q: Run)
    requires q.start == r.start && q.chunk == r.chunk && q.end == r.end && q.claims == r.claims + 1
    ensures Exhausted(r) || Given(r, r.claims) > r.end ==> Exhausted(q)
  {
    if Exhausted(r) {
      var k: nat :| k < r.claims && Given(r, k) > r.end;
      assert Given(q, k) > q.end;
    } else {
      assert Given(q, r.claims) == Given(r, r.claims);
    }
  }

  /** Changing worker `w` leaves what another worker scans in progress. */
  lemma StaysBusy(r: Run, q: Run, w: nat, x: nat)
    requires w < |r.workers| == |q.workers| && q.workers == r.workers[w := q.workers[w]]
    requires Busy(r, x) && r.workers[w] != Scanning(x)
    ensures Busy(q, x)
  {
    var v :| 0 <= v < |r.workers| && r.workers[v] == Scanning(x);
    assert q.workers[v] == Scanning(x);
  }

  lemma SucceedKeeps(from: nat, s: State, w: nat, t: State)
    requires Inv(from, s) && Next(from, s, Succeed(w), t)
    ensures Inv(from, t)
  {
    hide Blocks; hide Watermark; hide Given; hide Run.ChunkEnd; hide Run.Reach;
    var r, q := s.run.value, t.run.value;
    SameGiven(r, q);
    SameChunkEnd(r, q);
    assert r.Reach() == q.Reach() by { ReachOf(r); ReachOf(q); }
    forall k: nat | r.clean && k < q.claims && Given(q, k) <= q.end
      ensures Given(q, k) in q.completed || Busy(q, Given(q, k))
    {
      if Given(r, k) !in q.completed { StaysBusy(r, q, w, Given(r, k)); }
    }
  }

  lemma ReachOf(r: Run)
    ensures r.Reach() == r.start + r.claims * r.chunk
  {
  }

  lemma LoseKeeps(from: nat, s: State, step: Step, t: State)
    requires step.Fail? || step.Die?
    requires Inv(from, s) && Next(from, s, step, t)
    ensures Inv(from, t)
  {
    hide Blocks; hide Watermark; hide AllScanned; hide Run.ChunkEnd;
    SameChunkEnd(s.run.value, t.run.value);
  }

  lemma WatermarkKeeps(from: nat, s: State, step: Step, t: State)
    requires step.Advance? || step.Store? || step.Finish?
    requires Inv(from, s) && Next(from, s, step, t)
    ensures Inv(from, t)
  {
    hide Blocks; hide Watermark; hide Given; hide Run.ChunkEnd; hide AllScanned;
    var r := s.run.value;
    ShapeIsSmall(from, r);
    if step.Advance? {
      SameChunkEnd(r, t.run.value);
      SameGiven(r, t.run.value);
      WatermarkIsSafe(from, s.scanned, r, r.wm);
    } else if step.Store? {
      SameChunkEnd(r, t.run.value);
      SameGiven(r, t.run.value);
    } else {
      FinishIsSafe(from, s, r);
    }
  }

  lemma FinishIsSafe(from: nat, s: State, r: Run)
    requires RunOk(from, s, r)
    ensures Small(r.completed)
    ensures AllScanned(s.scanned, from, Min(Watermark(r.completed, r.start, r.chunk), r.end + 1))
  {
    hide Blocks; hide Watermark; hide Given; hide Run.ChunkEnd;
    ShapeIsSmall(from, r);
    WatermarkIsSafe(from, s.scanned, r, r.start);
  }

  lemma StepKeeps(from: nat, s: State, step: Step, t: State)
    requires Inv(from, s) && Next(from, s, step, t)
    ensures Inv(from, t)
  {
    match step
    case Begin(_, _, _) =>
    case Claim(w) => ClaimKeeps(from, s, w, t);
    case Succeed(w) => SucceedKeeps(from, s, w, t);
    case Fail(_) => LoseKeeps(from, s, step, t);
    case Die(_) => LoseKeeps(from, s, step, t);
    case Advance => WatermarkKeeps(from, s, step, t);
    case Store(_) => WatermarkKeeps(from, s, step, t);
    case Finish(_) => WatermarkKeeps(from, s, step, t);
    case Crash =>
  }

  /** A run just begun. */
  ghost predicate Fresh(from: nat, r: Run) {
    && Shape(from, r) && r.cursor == r.start == r.wm && r.claims == 0 && r.handed == [] && r.completed == {}
    && r.pending == None && forall w :: 0 <= w < |r.workers| ==> r.workers[w].Idle?
  }

  lemma BegunIsFresh(from: nat, s: State, step: Step, t: State)
    requires Inv(from, s) && step.Begin? && Next(from, s, step, t) && t.run.Some?
    ensures Fresh(from, t.run.value)
  {
    StepKeeps(from, s, step, t);
  }

  lemma {:induction false} HistoryKeepsInv(from: nat, states: seq<State>, steps: seq<Step>, i: nat)
    requires History(from, states, steps) && i < |states|
    ensures Inv(from, states[i])
  {
    hide Next; hide Inv;
    if i > 0 {
      HistoryKeepsInv(from, states, steps, i - 1);
      StepKeeps(from, states[i - 1], steps[i - 1], states[i]);
    } else {
      InitialIsInv(from);
    }
  }

  lemma InitialIsInv(from: nat)
    ensures Inv(from, INITIAL)
  {
  }

  /** In every history, whatever its chunk sizes, at every moment each block below the checkpoint was scanned. */
  lemma CheckpointIsSafe(from: nat, states: seq<State>, steps: seq<Step>, i: nat, b: nat)
    requires History(from, states, steps) && i < |states|
    requires states[i].checkpoint.Some? && from <= b < states[i].checkpoint.value
    ensures b in states[i].scanned
  {
    HistoryKeepsInv(from, states, steps, i);
  }

  /** Watermark and clean run: the claims were all completed, up to the first past the range. */
  lemma {:induction false} WatermarkFollows(r: Run, k: nat, last: nat)
    requires 0 < r.chunk < U64 && Small(r.completed) && k <= last
    requires forall i: nat :: k <= i < last ==> Given(r, i) in r.completed
    requires Given(r, last) !in r.completed
    ensures Watermark(r.completed, Given(r, k), r.chunk) == Given(r, last)
    decreases last - k
  {
    if k < last {
      GivenNext(r, k);
      assert Given(r, k) in r.completed;
      hide Given;
      WatermarkFollows(r, k + 1, last);
    }
  }

  lemma GivenNext(r: Run, k: nat)
    ensures Given(r, k + 1) == (Given(r, k) + r.chunk) % U64
  {
    assert (k + 1) * r.chunk == k * r.chunk + r.chunk;
    ModAdd(r.start + k * r.chunk, r.chunk);
  }

  lemma SmallMod(x: nat)
    requires x < U64
    ensures x % U64 == x
  {
  }

  lemma ModAdd(a: nat, c: nat)
    ensures (a % U64 + c) % U64 == (a + c) % U64
  {
    var q := a / U64;
    assert a == U64 * q + a % U64;
  }

  lemma FirstPast(r: Run) returns (k: nat)
    requires Exhausted(r)
    ensures k < r.claims && Given(r, k) > r.end && forall i: nat :: i < k ==> Given(r, i) <= r.end
  {
    hide Given;
    k := 0;
    while Given(r, k) <= r.end
      invariant k <= r.claims && forall i: nat :: i < k ==> Given(r, i) <= r.end
      decreases r.claims - k
    {
      assert k < r.claims;
      k := k + 1;
    }
    assert k < r.claims;
  }

  lemma CleanWatermark(from: nat, s: State, r: Run)
    requires RunOk(from, s, r) && r.clean && r.AllExited()
    ensures Small(r.completed) && Watermark(r.completed, r.start, r.chunk) > r.end
  {
    hide AllScanned; hide Watermark; hide Run.ChunkEnd; hide CompletedOk; hide SafeOk;
    ShapeIsSmall(from, r);
    assert r.workers[0].Exited?;
    assert Given(r, 0) == r.start by { SmallMod(r.start); }
    hide Given; hide Run.Reach;
    var k := FirstPast(r);
    WatermarkFollows(r, 0, k);
  }

  /** A run without failures ends past its range, with every block of it scanned, whatever its chunk size. */
  lemma CleanRunCompletes(from: nat, states: seq<State>, steps: seq<Step>, i: nat)
    requires History(from, states, steps) && i < |steps| && steps[i] == Finish(true)
    requires states[i].run.Some? && states[i].run.value.clean
    ensures states[i + 1].checkpoint == Some(states[i].run.value.end + 1)
    ensures AllScanned(states[i + 1].scanned, from, states[i].run.value.end + 1)
  {
    hide Watermark; hide Blocks; hide AllScanned; hide RunOk;
    HistoryKeepsInv(from, states, steps, i);
    assert Next(from, states[i], Finish(true), states[i + 1]);
    FinishIsSafe(from, states[i], states[i].run.value);
    CleanWatermark(from, states[i], states[i].run.value);
  }

  /** Running the same command again then does nothing. */
  lemma RerunIsNoOp(from: nat, states: seq<State>, steps: seq<Step>, i: nat, end: nat, chunkSize: nat, threads: nat,
                    t: State)
    requires History(from, states, steps) && i < |steps| && steps[i] == Finish(true)
    requires states[i].run.Some? && states[i].run.value.clean && end <= states[i].run.value.end
    requires Next(from, states[i + 1], Begin(end, chunkSize, threads), t)
    ensures t == states[i + 1]
  {
    CleanRunCompletes(from, states, steps, i);
  }

  // Reachability.

  /** Some steps of the program lead from `s` to `t`. */
  ghost predicate Leads(from: nat, s: State, t: State) {
    exists states: seq<State>, steps: seq<Step> :: IsTrace(from, s, states, steps, t)
  }

  ghost predicate IsTrace(from: nat, s: State, states: seq<State>, steps: seq<Step>, t: State) {
    && |states| == |steps| + 1 && states[0] == s && states[|steps|] == t
    && forall i :: 0 <= i < |steps| ==> Next(from, states[i], steps[i], states[i + 1])
  }

  lemma LeadsStay(from: nat, s: State)
    ensures Leads(from, s, s)
  {
    assert IsTrace(from, s, [s], [], s);
  }

  lemma LeadsOn(from: nat, s: State, t: State, step: Step, u: State)
    requires Leads(from, s, t) && Next(from, t, step, u)
    ensures Leads(from, s, u)
  {
    hide Next;
    var states: seq<State>, steps: seq<Step> :| IsTrace(from, s, states, steps, t);
    assert IsTrace(from, s, states + [u], steps + [step], u);
  }

  lemma LeadsTwice(from: nat, s: State, t: State, a: Step, u: State, b: Step, v: State)
    requires Leads(from, s, t) && Next(from, t, a, u) && Next(from, u, b, v)
    ensures Leads(from, s, v)
  {
    hide Next; hide Leads;
    LeadsOn(from, s, t, a, u);
    LeadsOn(from, s, u, b, v);
  }

  /** A run after one worker has claimed the next chunk and scanned it. */
  function AfterOne(r: Run): Run {
    r.(cursor := (r.cursor + r.chunk) % U64, claims := r.claims + 1, handed := r.handed + [r.cursor],
       completed := r.completed + {r.cursor})
  }

  lemma ScanOne(from: nat, s: State, u: State, w: nat) returns (t: State)
    requires Leads(from, s, u) && u.run.Some? && w < |u.run.value.workers| && u.run.value.workers[w].Idle?
    requires u.run.value.cursor <= u.run.value.end
    ensures Leads(from, s, t) && t.checkpoint == u.checkpoint && t.run == Some(AfterOne(u.run.value))
  {
    hide Blocks; hide Leads;
    var r := u.run.value;
    var r1 := Claimed(r, w);
    var r2 := SetWorker(r1, w, Idle).(completed := r1.completed + {r.cursor});
    assert r2.workers == r.workers;
    var v := u.(run := Some(r1));
    t := v.(scanned := v.scanned + Blocks(r.cursor, r1.ChunkEnd(r.cursor)), run := Some(r2));
    LeadsTwice(from, s, u, Claim(w), v, Succeed(w), t);
  }
}
