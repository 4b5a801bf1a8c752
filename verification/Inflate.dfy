/**
 The chunked inflater and the two whole-entry reads built on it. The zlib decoder is any machine
 that keeps the contract of a streaming decoder (section 2.2 of RFC 1950): how much it consumes and
 produces per call is its own choice, what the stream inflates to is not.
 */
module Inflate {
  import opened Bytes
  import opened ShipLog

  const INPUT_WINDOW: nat := 0x10_0000
  const COUNT_SCRATCH: nat := 0x4_0000
  const INLINE_STEP_MIN: nat := 0x1_0000
  const INLINE_STEP_MAX: nat := 0x100_0000

  /** The stream ends after `used` bytes, or is truncated or invalid and never ends. */
  datatype Verdict = Ends(used: nat) | NeverEnds

  /** What the compressed bytes `data` mean: the bytes they inflate to, and whether they end. */
  datatype Zlib = Zlib(data: seq<byte>, out: seq<byte>, verdict: Verdict) {
    predicate Wf() {
      verdict.Ends? ==> verdict.used <= |data|
    }
  }

  datatype Status = Ok | StreamEnd | Invalid

  datatype Reply = Reply(consumed: nat, produced: nat, status: Status)

  /** A decoder's reply to its `k`-th call, after `i` bytes in and `o` out, with `avail` bytes of
      input and `room` bytes of output. */
  type Behaviour = (nat, nat, nat, nat, nat) -> Reply

  /** The decoder contract: no byte is made up, the end is reported at the end and only there, and
      a call stalls only without room, or without input while more is needed. */
  predicate Allowed(z: Zlib, i: nat, o: nat, avail: nat, room: nat, r: Reply) {
    && r.consumed <= avail && r.produced <= room && o + r.produced <= |z.out|
    && (z.verdict.Ends? ==> i + r.consumed <= z.verdict.used && r.status != Invalid)
    && (r.status == StreamEnd ==> z.verdict == Ends(i + r.consumed) && o + r.produced == |z.out|)
    && (r == Reply(0, 0, Ok) && room > 0 ==> avail == 0 && (z.verdict.Ends? ==> i < z.verdict.used))
  }

  predicate InRange(z: Zlib, i: nat, o: nat, avail: nat) {
    i + avail <= |z.data| && o <= |z.out| && (z.verdict.Ends? ==> i <= z.verdict.used)
  }

  ghost predicate Lawful(z: Zlib, d: Behaviour) {
    z.Wf() && forall k: nat, i: nat, o: nat, avail: nat, room: nat ::
      InRange(z, i, o, avail) ==> Allowed(z, i, o, avail, room, d(k, i, o, avail, room))
  }

  function EagerReply(z: Zlib, i: nat, o: nat, avail: nat, room: nat): Reply {
    var p: nat := if o <= |z.out| then Min(room, |z.out| - o) else 0;
    match z.verdict
    case NeverEnds => Reply(avail, p, Ok)
    case Ends(used) =>
      var c: nat := if i <= used then Min(avail, used - i) else 0;
      Reply(c, p, if i + c == used && o + p == |z.out| then StreamEnd else Ok)
  }

  /** A decoder taking all it can on every call: every stream has a lawful decoder. */
  lemma EagerIsLawful(z: Zlib)
    requires z.Wf()
    ensures Lawful(z, (k: nat, i: nat, o: nat, avail: nat, room: nat) => EagerReply(z, i, o, avail, room))
  {
  }

  class Decompress {
    const z: Zlib
    const behave: Behaviour
    var totalIn: nat
    var totalOut: nat
    var calls: nat

    ghost predicate Valid()
      reads this
    {
      z.Wf() && Lawful(z, behave) && InRange(z, totalIn, totalOut, 0)
    }

    constructor (z: Zlib, behave: Behaviour)
      requires Lawful(z, behave)
      ensures Valid() && this.z == z && totalIn == 0 && totalOut == 0
    {
      this.z := z;
      this.behave := behave;
      totalIn, totalOut, calls := 0, 0, 0;
    }

    /** Only ever fed the stream's own bytes, in order. */
    method Inflate(input: seq<byte>, room: nat) returns (status: Status, out: seq<byte>)
      requires Valid() && At(z.data, totalIn, input)
      modifies this
      ensures Valid()
      ensures totalOut == old(totalOut) + |out| && out == z.out[old(totalOut)..totalOut]
      ensures totalIn >= old(totalIn)
      ensures Allowed(z, old(totalIn), old(totalOut), |input|, room, Reply(totalIn - old(totalIn), |out|, status))
    {
      var r := behave(calls, totalIn, totalOut, |input|, room);
      assert InRange(z, totalIn, totalOut, |input|);
      assert Allowed(z, totalIn, totalOut, |input|, room, r);
      out, status := z.out[totalOut..totalOut + r.produced], r.status;
      totalIn, totalOut, calls := totalIn + r.consumed, totalOut + r.produced, calls + 1;
    }
  }

  lemma AtTail(file: seq<byte>, p: nat, w: seq<byte>, c: nat)
    requires At(file, p, w) && c <= |w|
    ensures At(file, p + c, w[c..])
  {
    assert w[..c] + w[c..] == w;
    AtSplit(file, p, w[..c], w[c..]);
  }

  lemma SliceAt(file: seq<byte>, from: nat, to: nat, i: nat, w: seq<byte>)
    requires from <= to <= |file| && At(file, from + i, w) && i + |w| <= to - from
    ensures At(file[from..to], i, w)
  {
    var part := file[from..to];
    assert |part[i..i + |w|]| == |w|;
    forall k | 0 <= k < |w|
      ensures part[i + k] == w[k]
    {
      assert part[i + k] == file[from + i + k];
      assert w[k] == file[from + i..from + i + |w|][k];
    }
  }

  /** The stream passes every check: its last byte is the payload's last, and a declared size
      is the inflated one. */
  predicate Acceptable(z: Zlib, len: nat, expected: Option<nat>) {
    z.verdict == Ends(len) && (expected.Some? ==> expected.value == |z.out|)
  }

  class InflateStream {
    const file: seq<byte>
    const end: nat
    const len: nat
    const z: Decompress
    const expected: Option<nat>
    var next: nat
    var window: seq<byte>
    var taken: nat
    var done: bool
    var failed: bool

    ghost predicate Accepts()
      reads this, z
    {
      Acceptable(z.z, len, expected)
    }

    /** The payload inflated past its declared size. */
    predicate Overrun()
      reads this, z
    {
      expected.Some? && z.totalOut > expected.value
    }

    ghost predicate Base()
      reads this, z
    {
      && z.Valid() && len <= end <= |file| && z.z.data == file[end - len..end]
      && (done ==> Accepts() && z.totalOut == |z.z.out|)
    }

    /** The window holds the next bytes of the payload. */
    ghost predicate InStep()
      reads this, z
    {
      && Base() && taken <= |window| && next <= end && !Overrun()
      && next == end - len + z.totalIn + (|window| - taken)
      && At(file, end - len + z.totalIn, window[taken..])
    }

    ghost predicate Valid()
      reads this, z
    {
      if failed then Base() && !Accepts() else InStep()
    }

    constructor (file: seq<byte>, h: EntryHeader, z: Zlib, behave: Behaviour)
      requires h.DataOffset() + h.DataLen() <= |file|
      requires z.data == file[h.DataOffset()..h.DataOffset() + h.DataLen()] && Lawful(z, behave)
      ensures Valid() && fresh(this.z) && this.z.z == z && this.z.totalOut == 0
      ensures len == h.DataLen() && expected == h.Uncompressed() && !done && !failed
    {
      this.file := file;
      end, len, next := h.DataOffset() + h.DataLen(), h.DataLen(), h.DataOffset();
      expected := h.Uncompressed();
      window, taken, done, failed := [], 0, false, false;
      this.z := new Decompress(z, behave);
    }

    /** The end-of-stream checks. */
    method Finish() returns (ok: bool)
      requires Base() && !done && z.z.verdict == Ends(z.totalIn) && z.totalOut == |z.z.out|
      modifies this`done
      ensures Base() && ok == done == Accepts()
    {
      if z.totalIn != len { return false; }
      if expected.Some? && z.totalOut != expected.value { return false; }
      done := true;
      return true;
    }

    method Refill()
      requires InStep()
      modifies this`next, this`window, this`taken
      ensures InStep() && (taken == |window| ==> z.totalIn == len) && z.totalIn + |window| - taken <= len
    {
      if taken == |window| && next < end {
        var n := Min(end - next, INPUT_WINDOW);
        window := file[next..next + n];
        next := next + n;
        taken := 0;
      }
    }

    /** One refill and one decoder call, the window moved by what was consumed. */
    method Feed(room: nat) returns (status: Status, consumed: nat, chunk: seq<byte>)
      requires InStep() && !done
      modifies this`next, this`window, this`taken, z
      ensures Base() && (!Overrun() ==> InStep()) && z.totalIn == old(z.totalIn) + consumed
      ensures z.totalOut == old(z.totalOut) + |chunk| && chunk == z.z.out[old(z.totalOut)..z.totalOut]
      ensures |chunk| <= room
      ensures status == Invalid ==> z.z.verdict == NeverEnds
      ensures status == StreamEnd ==> z.z.verdict == Ends(z.totalIn) && z.totalOut == |z.z.out|
      ensures status == Ok && consumed == 0 && chunk == [] && room > 0 ==> z.z.verdict == NeverEnds
    {
      hide Lawful; hide At; hide Acceptable;
      Refill();
      SliceAt(file, end - len, end, z.totalIn, window[taken..]);
      var in0 := z.totalIn;
      var left := window[taken..];
      status, chunk := z.Inflate(left, room);
      consumed := z.totalIn - in0;
      assert window[taken + consumed..] == left[consumed..];
      AtTail(file, end - len + in0, left, consumed);
      taken := taken + consumed;
    }

    /** One decoder call and its checks. Stalling is failing, unless there was no room. */
    method Step(room: nat) returns (ok: bool, stalled: bool, chunk: seq<byte>)
      requires InStep() && !done
      modifies this`next, this`window, this`taken, this`done, z
      ensures Base() && (ok ==> InStep()) && (!ok ==> !Accepts() && !done)
      ensures z.totalOut == old(z.totalOut) + |chunk| && chunk == z.z.out[old(z.totalOut)..z.totalOut]
      ensures |chunk| <= room && old(z.totalIn) <= z.totalIn
      ensures ok && stalled ==> !done && room == 0 && chunk == []
      ensures ok && !stalled && !done ==> old(z.totalIn) - z.totalIn < |chunk|
      ensures !ok && z.z.verdict.Ends? && expected.Some? && |z.z.out| > expected.value ==> Overrun()
    {
      var status, consumed;
      status, consumed, chunk := Feed(room);
      stalled := false;
      if status == Invalid { return false, false, chunk; }
      if expected.Some? && z.totalOut > expected.value { return false, false, chunk; }
      if status == StreamEnd {
        ok := Finish();
      } else {
        stalled := consumed == 0 && chunk == [];
        ok := !stalled || room == 0;
      }
    }

    /** Fills `room` bytes, fewer only if the stream is over first. */
    method Pump(room: nat) returns (ok: bool, out: seq<byte>)
      requires InStep() && !failed
      modifies this`next, this`window, this`taken, this`done, z
      ensures Base() && (ok ==> InStep()) && (!ok ==> !Accepts() && !done)
      ensures z.totalOut == old(z.totalOut) + |out| && out == z.z.out[old(z.totalOut)..z.totalOut]
      ensures |out| <= room && (ok && !done ==> |out| == room)
      ensures !ok && z.z.verdict.Ends? && expected.Some? && |z.z.out| > expected.value ==> Overrun()
    {
      out := [];
      while !done
        invariant InStep() && |out| <= room
        invariant z.totalOut == old(z.totalOut) + |out| && out == z.z.out[old(z.totalOut)..z.totalOut]
        decreases !done, len - z.totalIn + room - |out|
      {
        var stalled, chunk;
        ok, stalled, chunk := Step(room - |out|);
        assert out + chunk == z.z.out[old(z.totalOut)..z.totalOut];
        out := out + chunk;
        if !ok { return; }
        if stalled { break; }
      }
      ok := true;
    }

    /** `Pump`, with the poison flag. An empty buffer is refused until the stream ends. */
    method Inflate(room: nat) returns (ok: bool, out: seq<byte>)
      requires Valid()
      modifies this, z
      ensures Valid()
      ensures z.totalOut == old(z.totalOut) + |out| && out == z.z.out[old(z.totalOut)..z.totalOut]
      ensures |out| <= room && (ok && !done ==> |out| == room)
      ensures ok ==> !failed && !old(failed)
      ensures !ok && (room > 0 || old(done)) ==> failed && !done
      ensures old(failed) ==> !ok && z.totalOut == old(z.totalOut)
      ensures !ok && !old(failed) && room > 0 && z.z.verdict.Ends? && expected.Some? && |z.z.out| > expected.value
              ==> Overrun()
    {
      if failed { return false, []; }
      if !done && room == 0 { return false, []; }
      ok, out := Pump(room);
      if !ok { failed := true; }
    }

    /**
     The next piece of the output, at most `max` bytes of it. A call returning `more` gives exactly
     `max` bytes and a call that ends the stream completes the output, unless the stream has overrun
     its declared size. After an error a call still reports success, with more to come and nothing
     added, in exactly two cases: the error was an overrun, or the call asks for no bytes while the
     output does not stand at its declared size.
     */
    method NextChunk(out: seq<byte>, max: nat) returns (ok: bool, more: bool, out': seq<byte>)
      requires Valid()
      modifies this, z
      ensures Valid()
      ensures ok ==> z.totalOut >= old(z.totalOut) && out' == out + z.z.out[old(z.totalOut)..z.totalOut]
      ensures ok ==> more == !done
      ensures ok && more && !old(Overrun()) ==> |out'| == |out| + max
      ensures ok && more && !old(failed) ==> !failed && (expected.Some? ==> z.totalOut < expected.value)
      ensures !ok && (max > 0 || !old(failed)) ==> failed && !done
      ensures old(failed) ==> (ok <==> old(Overrun()) || (max == 0 && expected != Some(old(z.totalOut))))
      ensures old(failed) && ok ==> more && out' == out && z.totalOut == old(z.totalOut) && failed
      ensures !ok && !old(failed) && z.z.verdict.Ends? && expected.Some? && |z.z.out| > expected.value ==> Overrun()
    {
      out' := out;
      var room := if expected.None? then max
                  else if z.totalOut <= expected.value then Min(max, expected.value - z.totalOut) else 0;
      ok := true;
      if room > 0 {
        var part;
        ok, part := Inflate(room);
        if !ok { return false, true, out; }
        out' := out + part;
      }
      if !done && expected == Some(z.totalOut) {
        ghost var before := z.totalOut;
        var part;
        ok, part := Inflate(1);
        if !ok { return false, true, out'; }
      }
      more := !done;
    }

    /** `NextChunk` for a caller that has kept the whole output so far. */
    method Collect(out: seq<byte>, max: nat) returns (ok: bool, more: bool, out': seq<byte>)
      requires Valid() && !failed && !done && z.totalOut == |out| && out == z.z.out[..|out|]
      modifies this, z
      ensures Valid() && (!ok ==> !Accepts())
      ensures ok ==> z.totalOut == |out'| <= |z.z.out| && out' == z.z.out[..|out'|]
      ensures ok && more ==> !failed && !done && |out'| == |out| + max && (expected.Some? ==> |out'| < expected.value)
      ensures ok && !more ==> Accepts() && out' == z.z.out
    {
      hide Lawful; hide At; hide Acceptable;
      ok, more, out' := NextChunk(out, max);
      if ok { assert z.z.out[..|out|] + z.z.out[|out|..z.totalOut] == z.z.out[..z.totalOut]; }
    }
  }

  /** An entry inflates to at most `limit` bytes and passes every check. */
  predicate Accepts(h: EntryHeader, z: Zlib, limit: nat) {
    Acceptable(z, h.DataLen(), h.Uncompressed()) && |z.out| <= limit
  }

  ghost predicate StreamOf(file: seq<byte>, h: EntryHeader, z: Zlib) {
    && h.DataOffset() + h.DataLen() <= |file|
    && z.data == file[h.DataOffset()..h.DataOffset() + h.DataLen()]
  }

  /** Inflate an entry's payload whole, refusing more than `limit` bytes. */
  method ReadInline(file: seq<byte>, h: EntryHeader, z: Zlib, behave: Behaviour, limit: nat)
    returns (r: Option<seq<byte>>)
    requires StreamOf(file, h, z) && Lawful(z, behave) && limit < U64
    ensures r == if Accepts(h, z, limit) then Some(z.out) else None
  {
    var step: nat;
    match h.Uncompressed() {
      case Some(size) =>
        if size > limit { return None; }
        step := size;
      case None =>
        step := Max(INLINE_STEP_MIN, Min(h.DataLen() * 4, INLINE_STEP_MAX));
    }
    hide Lawful; hide At; hide Acceptable;
    var s := new InflateStream(file, h, z, behave);
    var out := [];
    while true
      invariant s.Valid() && fresh(s) && fresh(s.z) && !s.failed && !s.done
      invariant s.z.z == z && s.len == h.DataLen() && s.expected == h.Uncompressed()
      invariant s.z.totalOut == |out| && out == z.out[..|out|] && |out| <= limit
      invariant step > 0 || (s.expected == Some(0) && out == [])
      decreases |z.out| - |out|
    {
      var ok, more;
      ok, more, out := s.Collect(out, Min(step, Min(limit - |out| + 1, U64 - 1)));
      if !ok || |out| > limit { return None; }
      if !more { return Some(out); }
      step := Min(step * 2, INLINE_STEP_MAX);
    }
  }

  /** The size a payload inflates to, found without storing what comes out. */
  method VerifyCount(file: seq<byte>, h: EntryHeader, z: Zlib, behave: Behaviour, limit: nat)
    returns (r: Option<nat>)
    requires StreamOf(file, h, z) && Lawful(z, behave) && limit < U64
    ensures r == if Accepts(h, z, limit) then Some(|z.out|) else None
  {
    var scratch := COUNT_SCRATCH;
    if h.Uncompressed().Some? {
      var size := h.Uncompressed().value;
      if size > limit { return None; }
      scratch := Min(scratch, Min(size + 1, U64 - 1));
    }
    scratch := Max(Min(scratch, Min(limit + 1, U64 - 1)), 1);
    var s := new InflateStream(file, h, z, behave);
    while !s.done
      invariant s.Valid() && fresh(s) && fresh(s.z) && !s.failed && scratch > 0
      invariant s.z.z == z && s.len == h.DataLen() && s.expected == h.Uncompressed()
      invariant s.z.totalOut <= limit
      decreases !s.done, |z.out| - s.z.totalOut
    {
      var ok, _ := s.Inflate(scratch);
      if !ok || s.z.totalOut > limit { return None; }
    }
    return Some(s.z.totalOut);
  }

  /** Inflate an entry chunk by chunk, to the end or the first error, under any schedule. */
  method StreamAll(file: seq<byte>, h: EntryHeader, z: Zlib, behave: Behaviour, schedule: nat -> nat)
    returns (r: Option<seq<byte>>)
    requires StreamOf(file, h, z) && Lawful(z, behave) && forall i: nat :: schedule(i) > 0
    ensures r == if Accepts(h, z, |z.out|) then Some(z.out) else None
  {
    var s := new InflateStream(file, h, z, behave);
    var out, calls := [], 0;
    while true
      invariant s.Valid() && fresh(s) && fresh(s.z) && !s.failed && !s.done
      invariant s.z.z == z && s.len == h.DataLen() && s.expected == h.Uncompressed()
      invariant out == z.out[..s.z.totalOut]
      decreases |z.out| - |out|
    {
      ghost var before := s.z.totalOut;
      var ok, more;
      ok, more, out := s.NextChunk(out, schedule(calls));
      if !ok { return None; }
      assert z.out[..before] + z.out[before..s.z.totalOut] == z.out[..s.z.totalOut];
      if !more {
        assert z.out[..|z.out|] == z.out;
        return Some(out);
      }
      calls := calls + 1;
    }
  }

  /**
   An entry whose stream ends properly but is longer than its header declares is refused once, and
   then never again: every later call returns "more" and appends nothing, so a caller that goes on
   after the error makes no progress and sees no error.
   */
  method OverlongIsNotPoisoned(file: seq<byte>, h: EntryHeader, z: Zlib, behave: Behaviour, max: nat, later: nat)
    returns (refused: bool, ok: bool, more: bool, out: seq<byte>)
    requires StreamOf(file, h, z) && Lawful(z, behave) && max > 0 && later > 0
    requires z.verdict.Ends? && h.enc.Sized? && h.enc.uncompressed < |z.out| && max >= h.enc.uncompressed
    ensures refused && ok && more && out == []
  {
    var s := new InflateStream(file, h, z, behave);
    ok, more, out := s.NextChunk([], max);
    refused := !ok;
    ok, more, out := s.NextChunk([], later);
  }

  /** A broken entry of undeclared size is refused, and a call that asks for no bytes is then accepted. */
  method EmptyCallIsNotRefused(file: seq<byte>, h: EntryHeader, z: Zlib, behave: Behaviour, max: nat)
    returns (refused: bool, ok: bool, more: bool, out: seq<byte>)
    requires StreamOf(file, h, z) && Lawful(z, behave) && max > 0
    requires z.verdict.NeverEnds? && z.out == [] && h.Uncompressed().None?
    ensures refused && ok && more && out == []
  {
    var s := new InflateStream(file, h, z, behave);
    ok, more, out := s.NextChunk([], max);
    refused := !ok;
    ok, more, out := s.NextChunk([], 0);
  }
}
