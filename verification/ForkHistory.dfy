/** The writer's files after a history of appends and forks. Abandoned entries stay in the log. */
module ForkHistory {
  import opened Bytes
  import opened ShipLog
  import ForkIndex

  /** One written entry. The zlib stream of a legacy payload is never one byte long. */
  datatype Entry = Entry(id: seq<byte>, enc: PayloadEnc, stream: seq<byte>) {
    predicate Wf() {
      && |id| == 32
      && NumFromId(id) + 1 < U32
      && match enc
         case Sized(size) => size < U64
         case Legacy(field) => (field == 0 || field == |stream|) && field < U32 && field != 1
    }
    function Num(): nat
      requires Wf()
    {
      NumFromId(id)
    }
    function Payload(): (p: seq<byte>)
      ensures |p| == enc.PreambleLen() + |stream|
    {
      match enc
      case Sized(size) => Le(4, 1) + (Le(8, size) + stream)
      case Legacy(field) => Le(4, field) + stream
    }
    function Encode(pos: nat): (e: seq<byte>)
      ensures |id| == 32 ==> |e| == ENTRY_OVERHEAD + |Payload()|
    {
      Le(8, SHIP_MAGIC) + (id + (Le(8, |Payload()|) + (Payload() + Le(8, pos))))
    }
    function HeaderAt(pos: nat): EntryHeader {
      EntryHeader(pos, id, |Payload()|, enc)
    }
  }

  type Steps = seq<Entry>

  function LogFile(steps: Steps): seq<byte> {
    if steps == [] then [] else
    var before := LogFile(steps[..|steps| - 1]);
    before + steps[|steps| - 1].Encode(|before|)
  }

  /** Offset of the entry written by step `i`. */
  function Pos(steps: Steps, i: nat): nat
    requires i <= |steps|
  {
    |LogFile(steps[..i])|
  }

  predicate AllWf(steps: Steps) {
    forall i :: 0 <= i < |steps| ==> steps[i].Wf()
  }

  /** The block numbers in the order written. */
  function Nums(steps: Steps): (nums: seq<nat>)
    requires AllWf(steps)
    ensures |nums| == |steps| && forall i :: 0 <= i < |steps| ==> nums[i] == steps[i].Num()
  {
    seq(|steps|, i requires 0 <= i < |steps| => steps[i].Num())
  }

  function Offsets(steps: Steps): (offs: seq<nat>)
    ensures |offs| == |steps| && forall i :: 0 <= i < |steps| ==> offs[i] == Pos(steps, i)
  {
    seq(|steps|, i requires 0 <= i < |steps| => Pos(steps, i))
  }

  /** A history the writer can produce, in a file a u64 offset can address. */
  predicate Legal(steps: Steps) {
    |steps| > 0 && AllWf(steps) && ForkIndex.Legal(Nums(steps)) && |LogFile(steps)| < U64
  }

  function First(steps: Steps): nat
    requires Legal(steps)
  {
    steps[0].Num()
  }

  function Last(steps: Steps): nat
    requires Legal(steps)
  {
    steps[|steps| - 1].Num()
  }

  function Slots(steps: Steps): seq<nat>
    requires Legal(steps)
  {
    ForkIndex.Slots(Nums(steps), Offsets(steps))
  }

  /** The index file: one little-endian u64 per slot. */
  function IndexFile(slots: seq<nat>): (b: seq<byte>)
    ensures |b| == 8 * |slots|
  {
    if slots == [] then [] else IndexFile(slots[..|slots| - 1]) + Le(8, slots[|slots| - 1])
  }

  lemma {:induction false} SlotAt(slots: seq<nat>, k: nat)
    requires k < |slots| && forall i :: 0 <= i < |slots| ==> slots[i] < U64
    ensures IntAt(IndexFile(slots), 8, 8 * k) == Some(slots[k])
  {
    hide Le; hide FromLe;
    var n := |slots| - 1;
    var before := slots[..n];
    if k == n {
      Pow256Facts();
      IntAtLe(IndexFile(slots), 8, 8 * k, slots[k]);
    } else {
      SlotAt(before, k);
      assert IndexFile(slots)[8 * k..8 * k + 8] == IndexFile(before)[8 * k..8 * k + 8];
    }
  }

  lemma {:induction false} LogPrefix(steps: Steps, i: nat)
    requires i <= |steps|
    ensures LogFile(steps[..i]) <= LogFile(steps)
  {
    if i == |steps| {
      assert steps[..i] == steps;
    } else {
      var before := steps[..|steps| - 1];
      LogPrefix(before, i);
      assert before[..i] == steps[..i];
    }
  }

  /** Every entry ever written is still in the log, at its own offset. */
  lemma EntryStands(steps: Steps, i: nat)
    requires i < |steps|
    ensures At(LogFile(steps), Pos(steps, i), steps[i].Encode(Pos(steps, i)))
    ensures Pos(steps, i + 1) == Pos(steps, i) + |steps[i].Encode(Pos(steps, i))|
    ensures Pos(steps, i + 1) <= |LogFile(steps)|
  {
    hide Entry.Encode;
    var upto := steps[..i + 1];
    assert upto[..i] == steps[..i];
    LogPrefix(steps, i + 1);
    AtExtend(LogFile(upto), LogFile(steps), Pos(steps, i), steps[i].Encode(Pos(steps, i)));
  }

  lemma PosMonotone(steps: Steps, i: nat, j: nat)
    requires i < j <= |steps| && AllWf(steps)
    ensures Pos(steps, i) + ENTRY_OVERHEAD + 4 <= Pos(steps, j) <= |LogFile(steps)|
  {
    hide LogFile; hide Entry.Encode;
    EntryStands(steps, i);
    LogPrefix(steps[..j], i + 1);
    assert steps[..j][..i + 1] == steps[..i + 1];
    LogPrefix(steps, j);
  }

  /** Entry `i` was not abandoned: nothing written later is at or below its block. */
  ghost predicate OnTheChain(steps: Steps, i: nat)
    requires AllWf(steps) && i < |steps|
  {
    forall j :: i < j < |steps| ==> steps[j].Num() > steps[i].Num()
  }

  /** The one entry of block `n` that no later write, at or below `n`, abandoned. */
  function Survivor(steps: Steps, n: nat): (i: nat)
    requires Legal(steps) && First(steps) <= n <= Last(steps)
    ensures i < |steps| && steps[i].Num() == n
  {
    hide ForkIndex.Owners; hide LogFile;
    ForkIndex.Owner(Nums(steps), n)
  }

  lemma SurvivorIsOnTheChain(steps: Steps, n: nat)
    requires Legal(steps) && First(steps) <= n <= Last(steps)
    ensures OnTheChain(steps, Survivor(steps, n))
  {
    hide ForkIndex.Owners; hide LogFile; hide ForkIndex.Legal;
    var nums := Nums(steps);
    assert forall j :: Survivor(steps, n) < j < |steps| ==> nums[j] > n;
  }

  /** One slot per block written, each the offset of that block's surviving entry. */
  lemma SlotsHoldSurvivors(steps: Steps)
    requires Legal(steps)
    ensures First(steps) <= Last(steps) && |Slots(steps)| == Last(steps) + 1 - First(steps)
    ensures forall n :: First(steps) <= n <= Last(steps) ==>
      Survivor(steps, n) < |steps| && steps[Survivor(steps, n)].Num() == n
      && Slots(steps)[n - First(steps)] == Pos(steps, Survivor(steps, n))
    ensures forall k :: 0 <= k < |Slots(steps)| ==> Slots(steps)[k] < U64
    ensures forall m, n :: First(steps) <= m < n <= Last(steps) ==> Survivor(steps, m) < Survivor(steps, n)
  {
    hide LogFile; hide ForkIndex.Slots; hide ForkIndex.Owners; hide Entry.Wf; hide NumFromId;
    ForkIndex.OwnersByBlock(Nums(steps));
    ForkIndex.SlotsFollowOwners(Nums(steps), Offsets(steps));
    forall k | 0 <= k < |Slots(steps)|
      ensures Slots(steps)[k] < U64
    {
      PosMonotone(steps, Survivor(steps, First(steps) + k), |steps|);
    }
  }

  /** The reader accepts an entry as written, whatever surrounds it. */
  lemma ReadsEntry(f: seq<byte>, e: Entry, pos: nat)
    requires e.Wf() && At(f, pos, e.Encode(pos)) && |f| < U64
    ensures ReadHeader(f, e.Num(), pos) == Some(e.HeaderAt(pos))
    ensures e.HeaderAt(pos).End() == pos + |e.Encode(pos)|
  {
    hide FromLe; hide Le; hide PreambleAt; hide FromBe;
    Pow256Facts();
    var p := e.Payload();
    HeaderPrefix(f, e, pos);
    AtSplit(f, pos + 40, Le(8, |p|), p + Le(8, pos));
    AtSplit(f, pos + 48, p, Le(8, pos));
    IntAtLe(f, 8, pos + 40, |p|);
    IntAtLe(f, 8, pos + 48 + |p|, pos);
    ReadsPreamble(f, e, pos);
  }

  lemma ReadsPreamble(f: seq<byte>, e: Entry, pos: nat)
    requires e.Wf() && At(f, pos + 48, e.Payload()) && pos + 56 + |e.Payload()| <= |f| < U64
    ensures PreambleAt(f, pos, |e.Payload()|) == Some(e.enc)
  {
    hide Le; hide FromLe; hide FromBe;
    Pow256Facts();
    match e.enc
    case Sized(size) =>
      AtSplit(f, pos + 48, Le(4, 1), Le(8, size) + e.stream);
      AtSplit(f, pos + 52, Le(8, size), e.stream);
      IntAtLe(f, 4, pos + 48, 1);
      IntAtLe(f, 8, pos + 52, size);
    case Legacy(field) =>
      AtSplit(f, pos + 48, Le(4, field), e.stream);
      IntAtLe(f, 4, pos + 48, field);
  }

  lemma TrailerOfEntry(f: seq<byte>, e: Entry, pos: nat)
    requires e.Wf() && At(f, pos, e.Encode(pos)) && pos + |e.Encode(pos)| == |f| < U64
    ensures FromLe(f[|f| - 8..]) == pos
  {
    hide FromLe; hide Le;
    Pow256Facts();
    LeRoundTrip(8, pos);
    assert f[|f| - 8..] == e.Encode(pos)[|e.Encode(pos)| - 8..] == Le(8, pos);
  }

  lemma HeaderPrefix(f: seq<byte>, e: Entry, pos: nat)
    requires e.Wf() && At(f, pos, e.Encode(pos))
    ensures f[pos + 8..pos + 40] == e.id && IntAt(f, 8, pos) == Some(SHIP_MAGIC)
    ensures At(f, pos + 40, Le(8, |e.Payload()|) + (e.Payload() + Le(8, pos)))
  {
    hide FromLe; hide Le;
    Pow256Facts();
    var rest := Le(8, |e.Payload()|) + (e.Payload() + Le(8, pos));
    AtSplit(f, pos, Le(8, SHIP_MAGIC), e.id + rest);
    AtSplit(f, pos + 8, e.id, rest);
    IntAtLe(f, 8, pos, SHIP_MAGIC);
  }

  /** Every entry ever written, orphan or not, is readable at its own offset. */
  lemma StepReads(steps: Steps, i: nat)
    requires Legal(steps) && i < |steps|
    ensures ReadHeader(LogFile(steps), steps[i].Num(), Pos(steps, i)) == Some(steps[i].HeaderAt(Pos(steps, i)))
    ensures Pos(steps, i) + 40 <= |LogFile(steps)|
    ensures LogFile(steps)[Pos(steps, i) + 8..Pos(steps, i) + 40] == steps[i].id
    ensures IntAt(LogFile(steps), 8, Pos(steps, i)) == Some(SHIP_MAGIC)
  {
    hide LogFile; hide ReadHeader; hide Entry.Encode; hide ForkIndex.Legal; hide FromLe; hide FromBe;
    EntryStands(steps, i);
    ReadsEntry(LogFile(steps), steps[i], Pos(steps, i));
    HeaderPrefix(LogFile(steps), steps[i], Pos(steps, i));
  }

  lemma LogIsEmptyFirst(steps: Steps)
    ensures Pos(steps, 0) == 0
  {
    assert steps[..0] == [];
  }

  function OpenedLog(steps: Steps): Log
    requires Legal(steps)
  {
    Log(First(steps), Last(steps) + 1, Pos(steps, |steps| - 1), |LogFile(steps)|)
  }

  lemma TailOfRun(steps: Steps)
    requires Legal(steps)
    ensures |LogFile(steps)| >= ENTRY_OVERHEAD
    ensures Tail(LogFile(steps)) == Some((Last(steps), Pos(steps, |steps| - 1)))
  {
    hide LogFile; hide ReadHeader; hide ForkIndex.Legal; hide Entry.Encode; hide FromLe; hide FromBe;
    var f, n := LogFile(steps), |steps| - 1;
    var pos, e := Pos(steps, n), steps[n];
    EntryStands(steps, n);
    assert steps[..n + 1] == steps;
    ReadsEntry(f, e, pos);
    TrailerOfEntry(f, e, pos);
    HeaderPrefix(f, e, pos);
  }

  /** After every history of appends and forks the log opens, over exactly the blocks written. */
  lemma OpensAfterEveryHistory(steps: Steps)
    requires Legal(steps)
    ensures Open(LogFile(steps), IndexFile(Slots(steps))) == Opened(OpenedLog(steps))
  {
    hide LogFile; hide Slots; hide Pos; hide ReadHeader; hide IndexFile; hide Tail; hide ForkIndex.Legal;
    hide FromLe; hide FromBe;
    TailOfRun(steps);
    LastSlot(steps);
    StepReads(steps, 0);
    LogIsEmptyFirst(steps);
  }

  lemma LastSlot(steps: Steps)
    requires Legal(steps)
    ensures First(steps) <= Last(steps)
    ensures
      var want := (Last(steps) + 1 - First(steps)) * 8;
      |IndexFile(Slots(steps))| == want
      && IntAt(IndexFile(Slots(steps)), 8, want - 8) == Some(Pos(steps, |steps| - 1))
  {
    hide LogFile; hide Slots; hide Pos; hide IndexFile; hide ForkIndex.Legal; hide FromLe; hide FromBe; hide Survivor;
    SlotsHoldSurvivors(steps);
    LastSurvives(steps);
    SlotAt(Slots(steps), Last(steps) - First(steps));
  }

  lemma LastSurvives(steps: Steps)
    requires Legal(steps) && First(steps) <= Last(steps)
    ensures Survivor(steps, Last(steps)) == |steps| - 1
  {
    hide LogFile; hide ForkIndex.Owners; hide Entry.Wf;
    assert ForkIndex.Survives(Nums(steps), |steps| - 1);
  }

  /** The index never leads to an orphan, and serves no block outside the range. */
  lemma HeaderIsTheSurvivor(steps: Steps, n: nat)
    requires Legal(steps)
    ensures
      var h := Header(OpenedLog(steps), LogFile(steps), IndexFile(Slots(steps)), n);
      if First(steps) <= n <= Last(steps) then
        var i := Survivor(steps, n);
        h == Some(steps[i].HeaderAt(Pos(steps, i)))
        && OnTheChain(steps, i)
      else
        h == None
  {
    hide LogFile; hide Slots; hide Entry.Encode; hide ReadHeader; hide IndexFile; hide ForkIndex.Legal;
    hide Survivor; hide FromLe; hide FromBe; hide Pos; hide OnTheChain;
    SlotsHoldSurvivors(steps);
    if First(steps) <= n <= Last(steps) {
      var i := Survivor(steps, n);
      SlotAt(Slots(steps), n - First(steps));
      StepReads(steps, i);
      SurvivorIsOnTheChain(steps, n);
    }
  }
}
