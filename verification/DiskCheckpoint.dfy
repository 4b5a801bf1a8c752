/** When the stored checkpoint never moves back. */
module DiskCheckpoint {
  import opened Bytes
  import opened DiskScan

  // Chunk starts: `start`, `start + chunk`, ...

  predicate Aligned(start: nat, chunk: nat, x: nat)
    requires chunk > 0
  {
    x >= start && (x - start) % chunk == 0
  }

  lemma AlignedNext(start: nat, chunk: nat, x: nat)
    requires chunk > 0 && Aligned(start, chunk, x)
    ensures Aligned(start, chunk, x + chunk)
  {
    var q := (x - start) / chunk;
    assert x + chunk - start == (q + 1) * chunk;
    MulMod(q + 1, chunk);
  }

  lemma MulMod(q: nat, chunk: nat)
    requires chunk > 0
    ensures (q * chunk) % chunk == 0
  {
    var m := q * chunk;
    assert m == chunk * (m / chunk) + m % chunk;
    assert m % chunk == chunk * (q - m / chunk);
    if q - m / chunk != 0 {
      MulAtLeast(chunk, q - m / chunk);
    }
  }

  lemma AlignedGap(start: nat, chunk: nat, x: nat, y: nat)
    requires chunk > 0 && Aligned(start, chunk, x) && Aligned(start, chunk, y) && x < y
    ensures x + chunk <= y
  {
    var p, q := (x - start) / chunk, (y - start) / chunk;
    assert x - start == chunk * p && y - start == chunk * q;
    assert y - x == chunk * (q - p);
    MulAtLeast(chunk, q - p);
  }

  /** The first chunk boundary is still a 64-bit number. */
  predicate Plain(r: Run) {
    r.start + r.chunk < U64
  }

  lemma PlainStep(from: nat, r: Run, x: nat)
    requires Shape(from, r) && Plain(r) && Aligned(r.start, r.chunk, x) && x <= r.end
    ensures x + r.chunk < U64
  {
    if x > r.start { AlignedGap(r.start, r.chunk, r.start, x); }
  }

  lemma RankFalls(wm: nat, chunk: nat)
    requires wm < U32 && 0 < chunk && wm + chunk < U64
    ensures Rank(wm + chunk, chunk) < Rank(wm, chunk)
  {
  }

  /** The watermark is the first chunk start, from `wm`, that is not completed. */
  lemma {:induction false} WatermarkIsFirstGap(from: nat, r: Run, wm: nat)
    requires Shape(from, r) && Small(r.completed) && Plain(r) && Aligned(r.start, r.chunk, wm)
    ensures
      var p := Watermark(r.completed, wm, r.chunk);
      p >= wm && Aligned(r.start, r.chunk, p) && p !in r.completed
      && forall x: nat :: Aligned(r.start, r.chunk, x) && wm <= x < p ==> x in r.completed
    decreases Rank(wm, r.chunk)
  {
    hide Aligned;
    if wm in r.completed {
      PlainStep(from, r, wm);
      SmallMod(wm + r.chunk);
      RankFalls(wm, r.chunk);
      hide Rank;
      AlignedNext(r.start, r.chunk, wm);
      WatermarkIsFirstGap(from, r, wm + r.chunk);
      var p := Watermark(r.completed, wm, r.chunk);
      forall x: nat | Aligned(r.start, r.chunk, x) && wm <= x < p
        ensures x in r.completed
      {
        if wm < x { AlignedGap(r.start, r.chunk, wm, x); }
      }
    }
  }

  ghost predicate Behind(r: Run, checkpoint: Option<nat>)
    requires r.chunk > 0
  {
    && Aligned(r.start, r.chunk, r.wm)
    && (forall x: nat :: Aligned(r.start, r.chunk, x) && x < r.wm ==> x in r.completed)
    && (checkpoint.Some? ==> checkpoint.value <= Min(r.wm, r.end + 1))
    && (r.pending.Some? ==> r.pending.value == Min(r.wm, r.end + 1))
  }

  /** A plain run's watermark has passed only completed chunks, and the checkpoint is not ahead of it. */
  ghost predicate Steady(s: State) {
    s.run.Some? && s.run.value.chunk > 0 && Plain(s.run.value) ==> Behind(s.run.value, s.checkpoint)
  }

  /** The final watermark is at least the monitor's last one. */
  lemma FinalWatermark(from: nat, s: State, r: Run)
    requires Shape(from, r) && Small(r.completed) && Plain(r) && Behind(r, s.checkpoint)
    ensures Watermark(r.completed, r.start, r.chunk) >= r.wm
  {
    hide Watermark;
    WatermarkIsFirstGap(from, r, r.start);
  }

  lemma StepKeepsSteady(from: nat, s: State, step: Step, t: State)
    requires Inv(from, s) && Steady(s) && Next(from, s, step, t)
    ensures Steady(t)
  {
    hide Watermark; hide Blocks; hide CleanOk; hide SafeOk; hide CompletedOk;
    if step.Advance? && Plain(s.run.value) {
      ShapeIsSmall(from, s.run.value);
      WatermarkIsFirstGap(from, s.run.value, s.run.value.wm);
    }
  }

  lemma {:induction false} HistoryIsSteady(from: nat, states: seq<State>, steps: seq<Step>, i: nat)
    requires History(from, states, steps) && i < |states|
    ensures Inv(from, states[i]) && Steady(states[i])
  {
    hide Next; hide Inv;
    HistoryKeepsInv(from, states, steps, i);
    if i > 0 {
      HistoryIsSteady(from, states, steps, i - 1);
      hide Steady;
      StepKeepsSteady(from, states[i - 1], steps[i - 1], states[i]);
    }
  }

  /** No step of a plain run, nor any step between runs, moves the checkpoint back. */
  lemma CheckpointNeverFalls(from: nat, states: seq<State>, steps: seq<Step>, i: nat)
    requires History(from, states, steps) && i < |steps| && states[i].checkpoint.Some?
    requires states[i].run.Some? ==> Plain(states[i].run.value)
    ensures states[i + 1].checkpoint.Some? && states[i + 1].checkpoint.value >= states[i].checkpoint.value
  {
    hide Watermark; hide Blocks; hide CleanOk; hide SafeOk; hide CompletedOk;
    HistoryIsSteady(from, states, steps, i);
    assert Next(from, states[i], steps[i], states[i + 1]);
    if steps[i].Finish? { FinalWatermark(from, states[i], states[i].run.value); }
  }

  /** What the monitor stores in a plain run: the first chunk start not completed, or past the end. */
  lemma MonitorStoresTheGap(from: nat, states: seq<State>, steps: seq<Step>, i: nat)
    requires History(from, states, steps) && i + 1 < |steps| && steps[i] == Advance && steps[i + 1] == Store(true)
    requires states[i].run.Some? && Plain(states[i].run.value) && states[i].run.value.chunk > 0
    ensures
      var r, c := states[i].run.value, states[i + 2].checkpoint;
      && c.Some? && (c.value == r.end + 1 || (Aligned(r.start, r.chunk, c.value) && c.value !in r.completed))
      && forall x: nat :: Aligned(r.start, r.chunk, x) && x < c.value ==> x in r.completed
  {
    hide Watermark; hide Blocks; hide CleanOk; hide SafeOk; hide CompletedOk;
    HistoryIsSteady(from, states, steps, i);
    assert Next(from, states[i], steps[i], states[i + 1]) && Next(from, states[i + 1], steps[i + 1], states[i + 2]);
    ShapeIsSmall(from, states[i].run.value);
    WatermarkIsFirstGap(from, states[i].run.value, states[i].run.value.wm);
  }

  /** Before anything is claimed the monitor stores the start. */
  lemma StoreStart(from: nat, t: State) returns (u: State)
    requires t.run.Some? && Fresh(from, t.run.value)
    ensures Leads(from, t, u) && u == t.(checkpoint := Some(t.run.value.start))
  {
    var r := t.run.value;
    LeadsStay(from, t);
    hide Leads;
    u := t.(checkpoint := Some(r.start));
    LeadsTwice(from, t, t, Advance, t.(run := Some(r.(pending := Some(r.start)))), Store(true), u);
  }

  /** A run that is not plain can be driven to move the checkpoint back below its own start. */
  lemma CheckpointFallsOtherwise(from: nat, s: State, step: Step, t: State) returns (u: State, v: State)
    requires Inv(from, s) && step.Begin? && Next(from, s, step, t) && t.run.Some? && !Plain(t.run.value)
    ensures Leads(from, t, u) && Next(from, u, Store(true), v) && u.checkpoint.Some?
    ensures v.checkpoint.Some? && v.checkpoint.value < u.checkpoint.value
  {
    BegunIsFresh(from, s, step, t);
    hide Inv; hide Leads; hide Blocks;
    var r := t.run.value;
    var t1 := StoreStart(from, t);
    var t2 := ScanOne(from, t, t1, 0);
    var q := t2.run.value;
    var low := (r.start + r.chunk) % U64;
    assert low == r.start + r.chunk - U64 < r.start;
    assert q.completed == {r.start};
    assert Watermark(q.completed, r.start, r.chunk) == low;
    u := t2.(run := Some(q.(wm := low, pending := Some(low))));
    LeadsOn(from, t, t2, Advance, u);
    v := u.(checkpoint := Some(low), run := Some(q.(wm := low, pending := None)));
  }
}
