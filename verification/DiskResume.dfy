/** What running the scan command again does, and that a scan left to itself ends with everything scanned. */
module DiskResume {
  import opened Bytes
  import opened DiskScan

  /** The command does nothing only if everything it asks for has been scanned. */
  lemma NothingToDo(from: nat, s: State, step: Step, t: State)
    requires Inv(from, s) && step.Begin? && Next(from, s, step, t) && t.run.None?
    ensures t == s && AllScanned(s.scanned, from, step.end + 1)
  {
  }

  /** Otherwise it starts at the checkpoint, or at its own start before any, and nothing below is missing. */
  lemma ResumesWhereItStopped(from: nat, s: State, step: Step, t: State)
    requires Inv(from, s) && step.Begin? && Next(from, s, step, t) && t.run.Some?
    ensures
      var r := t.run.value;
      && r.start == (if s.checkpoint.Some? && s.checkpoint.value > from then s.checkpoint.value else from)
      && r.end == step.end && AllScanned(s.scanned, from, r.start)
      && t.scanned == s.scanned && t.checkpoint == s.checkpoint
  {
  }

  /** A run in which nothing has failed and nothing is half done, under way to the end of its range. */
  ghost predicate Going(from: nat, s: State, end: nat) {
    && Inv(from, s) && s.run.Some?
    && var r := s.run.value;
       r.clean && r.end == end && r.pending == None
  }

  /** Worker `w` claims and scans until it is past the range, and exits. */
  lemma {:induction false} WorkerRuns(from: nat, s: State, u: State, w: nat, end: nat) returns (t: State)
    requires Leads(from, s, u) && Going(from, u, end)
    requires w < |u.run.value.workers| && u.run.value.workers[w].Idle?
    ensures Leads(from, s, t) && Going(from, t, end)
    ensures t.run.value.workers == u.run.value.workers[w := Exited]
    decreases Rank(u.run.value.cursor, u.run.value.chunk)
  {
    hide Blocks; hide Leads; hide Inv;
    var r := u.run.value;
    ShapeOf(from, u);
    var q := Claimed(r, w);
    var v := u.(run := Some(q));
    assert Next(from, u, Claim(w), v);
    StepKeeps(from, u, Claim(w), v);
    LeadsOn(from, s, u, Claim(w), v);
    if r.cursor > end {
      t := v;
    } else {
      var q' := SetWorker(q, w, Idle).(completed := q.completed + {r.cursor});
      var v' := v.(scanned := v.scanned + Blocks(r.cursor, q.ChunkEnd(r.cursor)), run := Some(q'));
      assert Next(from, v, Succeed(w), v');
      StepKeeps(from, v, Succeed(w), v');
      LeadsOn(from, s, v, Succeed(w), v');
      assert q'.workers == r.workers;
      RankFallsWrapped(r.cursor, r.chunk);
      t := WorkerRuns(from, s, v', w, end);
    }
  }

  lemma ShapeOf(from: nat, s: State)
    requires Inv(from, s) && s.run.Some?
    ensures Shape(from, s.run.value)
  {
  }

  lemma RankFallsWrapped(c: nat, chunk: nat)
    requires c < U32 && 0 < chunk < U64
    ensures Rank((c + chunk) % U64, chunk) < Rank(c, chunk)
  {
  }

  /** The first `n` workers one after another. */
  lemma {:induction false} WorkersRun(from: nat, s: State, end: nat, n: nat) returns (t: State)
    requires Going(from, s, end) && n <= |s.run.value.workers|
    requires forall w :: 0 <= w < |s.run.value.workers| ==> s.run.value.workers[w].Idle?
    ensures Leads(from, s, t) && Going(from, t, end) && |t.run.value.workers| == |s.run.value.workers|
    ensures forall w :: 0 <= w < |t.run.value.workers| ==>
      if w < n then t.run.value.workers[w].Exited? else t.run.value.workers[w].Idle?
  {
    hide Leads; hide Going;
    if n == 0 {
      LeadsStay(from, s);
      t := s;
    } else {
      var u := WorkersRun(from, s, end, n - 1);
      t := WorkerRuns(from, s, u, n - 1, end);
    }
  }

  /** Every run started can go on to store `end + 1` with every block up to `end` scanned, whatever its chunk size. */
  lemma EveryRunCanComplete(from: nat, s: State, step: Step, t: State) returns (u: State, v: State)
    requires Inv(from, s) && step.Begin? && Next(from, s, step, t) && t.run.Some?
    ensures Leads(from, t, u) && Next(from, u, Finish(true), v)
    ensures v.checkpoint == Some(step.end + 1) && v.run == None && AllScanned(v.scanned, from, step.end + 1)
  {
    hide Leads; hide AllScanned; hide Watermark; hide Blocks;
    StepKeeps(from, s, step, t);
    BegunIsFresh(from, s, step, t);
    u := WorkersRun(from, t, step.end, |t.run.value.workers|);
    var r := u.run.value;
    assert r.AllExited();
    ShapeOf(from, u);
    ShapeIsSmall(from, r);
    CleanWatermark(from, u, r);
    FinishIsSafe(from, u, r);
    v := u.(checkpoint := Some(step.end + 1), run := None);
  }

  /** From every point of every history, a crash and one more run can complete the scan. */
  lemma EveryHistoryCanComplete(from: nat, states: seq<State>, steps: seq<Step>, i: nat, end: nat) returns (v: State)
    requires History(from, states, steps) && i < |states| && from <= end < U32
    ensures Leads(from, states[i], v) && v.run == None && AllScanned(v.scanned, from, end + 1)
  {
    hide Leads; hide AllScanned; hide Inv;
    var s := states[i];
    HistoryKeepsInv(from, states, steps, i);
    LeadsStay(from, s);
    var stopped := s.(run := None);
    if s.run.Some? {
      StepKeeps(from, s, Crash, stopped);
      LeadsOn(from, s, s, Crash, stopped);
    }
    var step := Begin(end, 1, 1);
    if s.checkpoint.Some? && s.checkpoint.value > end {
      NothingToDo(from, stopped, step, stopped);
      v := stopped;
    } else {
      var t := stopped.(run := Some(Begun(s.checkpoint, from, step)));
      var u;
      u, v := EveryRunCanComplete(from, stopped, step, t);
      LeadsOn(from, s, stopped, step, t);
      LeadsTo(from, s, t, u);
      LeadsOn(from, s, u, Finish(true), v);
    }
  }

  lemma LeadsTo(from: nat, s: State, t: State, u: State)
    requires Leads(from, s, t) && Leads(from, t, u)
    ensures Leads(from, s, u)
  {
    hide Next;
    var states: seq<State>, steps: seq<Step> :| IsTrace(from, s, states, steps, t);
    var more: seq<State>, after: seq<Step> :| IsTrace(from, t, more, after, u);
    assert IsTrace(from, s, states + more[1..], steps + after, u);
  }
}
