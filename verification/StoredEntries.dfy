/** From bytes written to bytes read: stored payloads come back out of a log with forks. */
module StoredEntries {
  import opened Bytes
  import opened ShipLog
  import opened Inflate
  import opened ForkHistory
  import StoredBlocks

  /** The payload's stream stands where the header says. */
  lemma StreamStands(steps: Steps, i: nat)
    requires Legal(steps) && i < |steps|
    ensures
      var h := steps[i].HeaderAt(Pos(steps, i));
      h.DataOffset() + h.DataLen() <= |LogFile(steps)|
      && LogFile(steps)[h.DataOffset()..h.DataOffset() + h.DataLen()] == steps[i].stream
  {
    hide LogFile; hide Pos; hide Le; hide At; hide ForkIndex.Legal;
    var f, e, pos := LogFile(steps), steps[i], Pos(steps, i);
    EntryStands(steps, i);
    assert steps[i].Wf();
    var p := e.Payload();
    AtSplit(f, pos, Le(8, SHIP_MAGIC), e.id + (Le(8, |p|) + (p + Le(8, pos))));
    AtSplit(f, pos + 8, e.id, Le(8, |p|) + (p + Le(8, pos)));
    AtSplit(f, pos + 40, Le(8, |p|), p + Le(8, pos));
    AtSplit(f, pos + 48, p, Le(8, pos));
    match e.enc {
      case Sized(size) =>
        AtSplit(f, pos + 48, Le(4, 1), Le(8, size) + e.stream);
        AtSplit(f, pos + 52, Le(8, size), e.stream);
      case Legacy(field) =>
        AtSplit(f, pos + 48, Le(4, field), e.stream);
    }
    SliceIs(f, pos + HEADER_LEN + e.enc.PreambleLen(), e.stream);
  }

  lemma SliceIs(f: seq<byte>, p: nat, s: seq<byte>)
    requires At(f, p, s)
    ensures p + |s| <= |f| && f[p..p + |s|] == s
  {
  }

  /** A declared size, if there is one, is the size of `content`. */
  predicate Declares(enc: PayloadEnc, content: seq<byte>) {
    enc.Sized? ==> enc.uncompressed == |content|
  }

  /** A stored stream with `extra` bytes after it is accepted exactly if there are none, the declared size is
      right, and the content is within the limit. */
  lemma StoredIsAccepted(h: EntryHeader, content: seq<byte>, extra: seq<byte>, limit: nat)
    requires h.DataLen() == |StoredBlocks.Store(content) + extra|
    ensures StoredBlocks.Meaning(StoredBlocks.Store(content) + extra).out == content
    ensures Accepts(h, StoredBlocks.Meaning(StoredBlocks.Store(content) + extra), limit) <==>
      extra == [] && Declares(h.enc, content) && |content| <= limit
  {
    hide StoredBlocks.Store; hide StoredBlocks.ScanOf;
    StoredBlocks.StoreIsReadBack(content, extra);
  }

  /** A stored stream cut short is never accepted. */
  lemma CutIsRefused(h: EntryHeader, content: seq<byte>, part: seq<byte>, limit: nat)
    requires part < StoredBlocks.Store(content)
    ensures !Accepts(h, StoredBlocks.Meaning(part), limit)
  {
    hide StoredBlocks.Store; hide StoredBlocks.ScanOf;
    var whole := StoredBlocks.Store(content);
    assert whole + [] == whole;
    StoredBlocks.StoreIsReadBack(content, []);
    StoredBlocks.ScanContinues(part, whole);
  }

  /**
   After every history, reading a block by index and inflating it gives exactly the bytes whose stored
   stream was last written for it, if and only if nothing follows the stream in its entry, a size the entry
   declares is right, and they are within the limit.
   */
  method ReadBlock(steps: Steps, n: nat, ghost content: seq<byte>, ghost extra: seq<byte>, limit: nat)
    returns (r: Option<seq<byte>>)
    requires Legal(steps) && First(steps) <= n <= Last(steps) && limit < U64
    requires steps[Survivor(steps, n)].stream == StoredBlocks.Store(content) + extra
    ensures r == if extra == [] && Declares(steps[Survivor(steps, n)].enc, content) && |content| <= limit
                 then Some(content) else None
  {
    r := ReadEntry(steps, n, limit);
    hide LogFile; hide Legal; hide Survivor; hide Accepts; hide StoredBlocks.Store; hide StoredBlocks.Meaning;
    ghost var e := steps[Survivor(steps, n)];
    StoredIsAccepted(e.HeaderAt(0), content, extra, limit);
    AcceptsAnywhere(e, 0, Pos(steps, Survivor(steps, n)), limit);
  }

  /** So an entry whose stored stream was cut short is refused. */
  method CutBlockIsRefused(steps: Steps, n: nat, ghost content: seq<byte>, limit: nat) returns (r: Option<seq<byte>>)
    requires Legal(steps) && First(steps) <= n <= Last(steps) && limit < U64
    requires steps[Survivor(steps, n)].stream < StoredBlocks.Store(content)
    ensures r == None
  {
    r := ReadEntry(steps, n, limit);
    hide LogFile; hide Legal; hide Survivor; hide Accepts; hide StoredBlocks.Store; hide StoredBlocks.Meaning;
    var i := Survivor(steps, n);
    CutIsRefused(steps[i].HeaderAt(Pos(steps, i)), content, steps[i].stream, limit);
  }

  lemma AcceptsAnywhere(e: Entry, p: nat, q: nat, limit: nat)
    ensures Accepts(e.HeaderAt(p), StoredBlocks.Meaning(e.stream), limit) <==>
            Accepts(e.HeaderAt(q), StoredBlocks.Meaning(e.stream), limit)
  {
    hide StoredBlocks.Meaning;
  }

  lemma EntryInForce(steps: Steps, n: nat)
    requires Legal(steps) && First(steps) <= n <= Last(steps)
    ensures
      var i, f := Survivor(steps, n), LogFile(steps);
      var h := steps[i].HeaderAt(Pos(steps, i));
      && Header(OpenedLog(steps), f, IndexFile(Slots(steps)), n) == Some(h)
      && h.DataOffset() + h.DataLen() <= |f| && f[h.DataOffset()..h.DataOffset() + h.DataLen()] == steps[i].stream
  {
    hide LogFile; hide Legal; hide Survivor; hide OnTheChain; hide Header; hide IndexFile; hide Slots;
    HeaderIsTheSurvivor(steps, n);
    StreamStands(steps, Survivor(steps, n));
  }

  /** The lookup and the inflater together, on whatever stream the entry in force holds. */
  method ReadEntry(steps: Steps, n: nat, limit: nat) returns (r: Option<seq<byte>>)
    requires Legal(steps) && First(steps) <= n <= Last(steps) && limit < U64
    ensures
      var i := Survivor(steps, n);
      var z := StoredBlocks.Meaning(steps[i].stream);
      r == if Accepts(steps[i].HeaderAt(Pos(steps, i)), z, limit) then Some(z.out) else None
  {
    hide LogFile; hide Legal; hide Survivor; hide Lawful; hide Accepts; hide StoredBlocks.Meaning; hide Header;
    hide StoredBlocks.Decoder; hide IndexFile; hide Slots; hide OpenedLog; hide Pos;
    var f, index := LogFile(steps), IndexFile(Slots(steps));
    EntryInForce(steps, n);
    var h := Header(OpenedLog(steps), f, index, n).value;
    var data := f[h.DataOffset()..h.DataOffset() + h.DataLen()];
    StoredBlocks.DecoderIsLawful(data);
    MeaningHasData(data);
    r := ReadInline(f, h, StoredBlocks.Meaning(data), StoredBlocks.Decoder(data), limit);
  }

  lemma MeaningHasData(d: seq<byte>)
    ensures StoredBlocks.Meaning(d).data == d
  {
  }
}
