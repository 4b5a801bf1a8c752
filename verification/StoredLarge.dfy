/** The large entries of a log with forks, told from what was written. */
module StoredLarge {
  import opened Bytes
  import opened ShipLog
  import opened Inflate
  import opened ForkHistory
  import opened LargeEntries
  import StoredBlocks
  import StoredEntries

  const STORED: Zip := Zip(StoredBlocks.Meaning, StoredBlocks.Decoder)

  /** The entry in force for every block holds the stored stream of `content`, and declares its size if any. */
  ghost predicate HoldsContent(steps: Steps, content: nat -> seq<byte>)
    requires Legal(steps)
  {
    forall n: nat :: First(steps) <= n <= Last(steps) ==> HoldsAt(steps, n, content(n))
  }

  predicate HoldsAt(steps: Steps, n: nat, c: seq<byte>)
    requires Legal(steps) && First(steps) <= n <= Last(steps)
  {
    var e := steps[Survivor(steps, n)];
    e.stream == StoredBlocks.Store(c) && StoredEntries.Declares(e.enc, c)
  }

  function PartOf(steps: Steps): Part
    requires Legal(steps)
  {
    Part(OpenedLog(steps), LogFile(steps), IndexFile(Slots(steps)))
  }

  lemma StoredSize(f: seq<byte>, h: EntryHeader, c: seq<byte>)
    requires h.DataOffset() + h.DataLen() <= |f| && Stream(f, h) == StoredBlocks.Store(c)
    requires StoredEntries.Declares(h.enc, c) && |c| < U64
    ensures Inflated(STORED, f, h) == Some(|c|)
  {
    hide StoredBlocks.Store; hide StoredBlocks.Meaning; hide Accepts;
    assert |Stream(f, h)| == h.DataLen();
    assert StoredBlocks.Store(c) + [] == StoredBlocks.Store(c);
    StoredEntries.StoredIsAccepted(h, c, [], U64 - 1);
  }

  lemma HeaderHasSize(steps: Steps, n: nat, c: seq<byte>)
    requires Legal(steps) && First(steps) <= n <= Last(steps) && HoldsAt(steps, n, c)
    ensures
      var p := PartOf(steps);
      var h := Header(p.log, p.f, p.idx, n);
      h.Some? && Inflated(STORED, p.f, h.value) == Some(|c|)
  {
    hide LogFile; hide Legal; hide Survivor; hide StoredBlocks.Store; hide Inflated;
    hide IndexFile; hide Slots; hide Header;
    var i := Survivor(steps, n);
    StoredEntries.EntryInForce(steps, n);
    ContentFits(steps, i, c);
    StoredSize(LogFile(steps), steps[i].HeaderAt(Pos(steps, i)), c);
  }

  lemma ContentFits(steps: Steps, i: nat, c: seq<byte>)
    requires Legal(steps) && i < |steps| && steps[i].stream == StoredBlocks.Store(c)
    ensures |c| < U64
  {
    hide StoredBlocks.Store; hide StoredBlocks.Meaning;
    StoredEntries.StreamStands(steps, i);
    StoredBlocks.MeaningIsShorter(StoredBlocks.Store(c));
    var h := steps[i].HeaderAt(Pos(steps, i));
    assert StoredBlocks.Store(c) + [] == StoredBlocks.Store(c);
    StoredEntries.StoredIsAccepted(EntryHeader(0, [], |StoredBlocks.Store(c)| + 4, Legacy(0)), c, [], 0);
  }

  /**
   After every history, the scan of the log succeeds and lists exactly the blocks of the window whose
   content in force is longer than the threshold, with its length, in block order, whether or not the
   entries declare it.
   */
  method FindStored(steps: Steps, ghost content: nat -> seq<byte>, blocks: (nat, nat), threshold: nat)
    returns (found: seq<Found>)
    requires Legal(steps) && HoldsContent(steps, content) && threshold < U64
    ensures forall i, j :: 0 <= i < j < |found| ==> found[i].block < found[j].block
    ensures forall n: nat, bytes: nat :: Found(n, bytes) in found <==>
      First(steps) <= n <= Last(steps) && blocks.0 <= n < blocks.1 && bytes == |content(n)| > threshold
  {
    hide Legal; hide LogFile; hide IndexFile; hide Slots; hide Inflated; hide Header; hide HoldsAt;
    StoredBlocksAreFaithful();
    var p := PartOf(steps);
    LastSlot(steps);
    forall n: nat | First(steps) <= n <= Last(steps)
      ensures Readable(STORED, p, n, threshold)
      ensures forall bytes: nat :: Large(STORED, p, n, bytes, threshold) <==> bytes == |content(n)| > threshold
    {
      assert HoldsAt(steps, n, content(n));
      HeaderHasSize(steps, n, content(n));
    }
    hide Readable; hide Large; hide Zip.Faithful;
    var r := FindLarge(STORED, [p], blocks, threshold);
    found := r.value;
    forall n: nat, bytes: nat
      ensures Found(n, bytes) in found <==>
        First(steps) <= n <= Last(steps) && blocks.0 <= n < blocks.1 && bytes == |content(n)| > threshold
    {
      OnePart(STORED, p, blocks, n, bytes, threshold);
    }
  }

  lemma OnePart(zip: Zip, p: Part, blocks: (nat, nat), n: nat, bytes: nat, threshold: nat)
    ensures Reported(zip, [p], blocks, n, bytes, threshold) <==>
      Asked(p, blocks, n) && Large(zip, p, n, bytes, threshold)
  {
    hide Large;
    assert [p][0] == p;
  }
}
