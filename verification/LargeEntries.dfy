/**
 Listing the entries of a catalog that inflate to more than a threshold. Index slots are read a page at a
 time, and an entry that does not declare its size is inflated only if its stream is long enough to matter.
 */
module LargeEntries {
  import opened Bytes
  import opened ShipLog
  import opened Inflate
  import LogCatalog
  import LogWalk
  import StoredBlocks

  const SCAN_PAGE: nat := 1024
  const MAX_INFLATE_RATIO: nat := 1032

  /** An opened log of the catalog and the bytes of its two files. */
  datatype Part = Part(log: Log, f: seq<byte>, idx: seq<byte>)

  datatype Found = Found(block: nat, bytes: nat)

  /** A decoder for all streams: what each means, and how the decoder behaves on it. */
  datatype Zip = Zip(meaning: seq<byte> -> Zlib, decoder: seq<byte> -> Behaviour) {
    /** Lawful everywhere, and no denser than deflate can be. */
    ghost predicate Faithful() {
      forall d: seq<byte> :: meaning(d).data == d && Lawful(meaning(d), decoder(d)) && Dense(meaning(d))
    }
  }

  predicate Dense(z: Zlib) {
    z.verdict.Ends? ==> |z.out| <= |z.data| * MAX_INFLATE_RATIO
  }

  function Stream(f: seq<byte>, h: EntryHeader): seq<byte>
    requires h.DataOffset() + h.DataLen() <= |f|
  {
    f[h.DataOffset()..h.DataOffset() + h.DataLen()]
  }

  /** The size an entry inflates to: as declared, or else as the stream has it if it is whole. */
  function Inflated(zip: Zip, f: seq<byte>, h: EntryHeader): Option<nat>
    requires h.DataOffset() + h.DataLen() <= |f|
  {
    if h.Uncompressed().Some? then h.Uncompressed() else
    var z := zip.meaning(Stream(f, h));
    if Accepts(h, z, U64 - 1) then Some(|z.out|) else None
  }

  /** No size is declared and the stream is long enough to exceed the threshold, in saturating arithmetic. */
  predicate MustInflate(h: EntryHeader, threshold: nat) {
    h.Uncompressed().None? && Min(h.DataLen() * MAX_INFLATE_RATIO, U64 - 1) > threshold
  }

  /** Block `n` of a part has a sound header, and a whole stream if that has to be known. */
  predicate Readable(zip: Zip, p: Part, n: nat, threshold: nat) {
    var h := Header(p.log, p.f, p.idx, n);
    h.Some? && (MustInflate(h.value, threshold) ==> Inflated(zip, p.f, h.value).Some?)
  }

  /** Block `n` of a part inflates to `bytes`, which is more than the threshold. */
  predicate Large(zip: Zip, p: Part, n: nat, bytes: nat, threshold: nat) {
    var h := Header(p.log, p.f, p.idx, n);
    h.Some? && Inflated(zip, p.f, h.value) == Some(bytes) && bytes > threshold
  }

  /** `found` lists exactly the large ones of the part's blocks `from..to`, in block order. */
  ghost predicate Lists(zip: Zip, p: Part, from: nat, to: nat, threshold: nat, found: seq<Found>) {
    && InBlockOrder(found)
    && forall n: nat, bytes: nat ::
         Found(n, bytes) in found <==> from <= n < to && Large(zip, p, n, bytes, threshold)
  }

  predicate InBlockOrder(found: seq<Found>) {
    forall i, j :: 0 <= i < j < |found| ==> found[i].block < found[j].block
  }

  predicate AllReadable(zip: Zip, p: Part, from: nat, to: nat, threshold: nat) {
    forall n: nat :: from <= n < to ==> Readable(zip, p, n, threshold)
  }

  /** What the ratio is for: a stream too short for the threshold is not large. */
  lemma ShortIsNotLarge(zip: Zip, f: seq<byte>, h: EntryHeader, threshold: nat)
    requires zip.Faithful() && h.DataOffset() + h.DataLen() <= |f| && threshold < U64
    requires h.Uncompressed().None? && !MustInflate(h, threshold) && Inflated(zip, f, h).Some?
    ensures Inflated(zip, f, h).value <= threshold
  {
    hide Lawful;
    var z := zip.meaning(Stream(f, h));
    assert z.data == Stream(f, h) && Dense(z);
  }

  /** An entry stops the scan exactly if it declares no size, its stream is long enough to exceed the threshold, and
      the stream is not whole. */
  lemma ReadableExactly(zip: Zip, p: Part, n: nat, threshold: nat, h: EntryHeader)
    requires Header(p.log, p.f, p.idx, n) == Some(h) && h.DataOffset() + h.DataLen() <= |p.f| && threshold < U64
    ensures Readable(zip, p, n, threshold) <==>
      || h.enc.Sized? || h.DataLen() * 1032 <= threshold || threshold == U64 - 1
      || (var z := zip.meaning(p.f[h.DataOffset()..h.DataOffset() + h.DataLen()]);
          z.verdict == Ends(h.DataLen()) && |z.out| < U64)
  {
    hide Header;
  }

  // One entry.

  /** The size of block `n` if it is large. */
  method Measure(zip: Zip, p: Part, h: EntryHeader, threshold: nat) returns (ok: bool, size: Option<nat>)
    requires zip.Faithful() && threshold < U64 && h.DataOffset() + h.DataLen() <= |p.f|
    ensures ok <==> (MustInflate(h, threshold) ==> Inflated(zip, p.f, h).Some?)
    ensures ok ==> size == var s := Inflated(zip, p.f, h); if s.Some? && s.value > threshold then s else None
  {
    hide Lawful; hide Accepts;
    var bytes;
    if h.Uncompressed().Some? {
      bytes := h.Uncompressed().value;
    } else if Min(h.DataLen() * MAX_INFLATE_RATIO, U64 - 1) <= threshold {
      if Inflated(zip, p.f, h).Some? { ShortIsNotLarge(zip, p.f, h, threshold); }
      return true, None;
    } else {
      var data := Stream(p.f, h);
      assert zip.meaning(data).data == data && Lawful(zip.meaning(data), zip.decoder(data));
      var n := VerifyCount(p.f, h, zip.meaning(data), zip.decoder(data), U64 - 1);
      if n.None? { return false, None; }
      bytes := n.value;
    }
    return true, if bytes > threshold then Some(bytes) else None;
  }

  /** The entry head of block `n` at a position read before. */
  function HeaderAt(p: Part, n: nat, pos: nat): (r: Option<EntryHeader>)
    ensures r.Some? ==> r.value.DataOffset() + r.value.DataLen() <= |p.f|
  {
    if n < p.log.begin || n >= p.log.end || |p.f| != p.log.size then None else ReadHeader(p.f, n, pos)
  }

  // Pages.

  /** The index slots of `count` blocks from `from` on. */
  function Positions(p: Part, from: nat, count: nat): (r: Option<seq<nat>>)
    ensures r.Some? ==> |r.value| == count
  {
    if from < p.log.begin || from + count > p.log.end || |p.idx| != (p.log.end - p.log.begin) * 8 then None else
    Some(seq<nat>(count, k requires 0 <= k < count => LogWalk.Slot(p.idx, from - p.log.begin + k)))
  }

  /** A slot of a page leads where the index lookup leads. */
  lemma PageIsLookup(p: Part, from: nat, count: nat, k: nat)
    requires Positions(p, from, count).Some? && k < count
    ensures HeaderAt(p, from + k, Positions(p, from, count).value[k]) == Header(p.log, p.f, p.idx, from + k)
  {
    hide ReadHeader; hide FromLe;
    var i := from + k - p.log.begin;
    assert Positions(p, from, count).value[k] == LogWalk.Slot(p.idx, i) == FromLe(p.idx[i * 8..i * 8 + 8]);
  }

  lemma NoPageNoLookup(p: Part, from: nat, count: nat)
    requires p.log.begin <= from && from + count <= p.log.end && Positions(p, from, count).None?
    ensures Header(p.log, p.f, p.idx, from).None?
  {
  }

  lemma ListsSnoc(zip: Zip, p: Part, from: nat, n: nat, threshold: nat, found: seq<Found>, next: seq<Found>)
    requires from <= n && Lists(zip, p, from, n, threshold, found)
    requires |next| <= 1 && (next != [] ==> next[0].block == n)
    requires forall bytes: nat :: Found(n, bytes) in next <==> Large(zip, p, n, bytes, threshold)
    ensures Lists(zip, p, from, n + 1, threshold, found + next)
  {
    hide Large;
    forall i | 0 <= i < |found|
      ensures found[i].block < n
    {
      assert Found(found[i].block, found[i].bytes) in found;
    }
    forall m: nat, bytes: nat
      ensures Found(m, bytes) in found + next <==> from <= m < n + 1 && Large(zip, p, m, bytes, threshold)
    {
      if m != n { assert Found(m, bytes) !in next; }
    }
  }

  method ScanPage(zip: Zip, p: Part, from: nat, n: nat, count: nat, threshold: nat, before: seq<Found>)
    returns (r: Option<seq<Found>>)
    requires zip.Faithful() && threshold < U64 && from <= n && 0 < count && p.log.begin <= n && n + count <= p.log.end
    requires Lists(zip, p, from, n, threshold, before)
    ensures r.Some? <==> AllReadable(zip, p, n, n + count, threshold)
    ensures r.Some? ==> Lists(zip, p, from, n + count, threshold, r.value)
  {
    hide Lists; hide Header; hide Positions; hide HeaderAt; hide Inflated; hide MustInflate; hide Zip.Faithful;
    var slots := Positions(p, n, count);
    if slots.None? {
      NoPageNoLookup(p, n, count);
      assert !Readable(zip, p, n, threshold);
      return None;
    }
    var found := before;
    for k := 0 to count
      invariant AllReadable(zip, p, n, n + k, threshold)
      invariant Lists(zip, p, from, n + k, threshold, found)
    {
      PageIsLookup(p, n, count, k);
      var h := HeaderAt(p, n + k, slots.value[k]);
      if h.None? {
        assert !Readable(zip, p, n + k, threshold);
        return None;
      }
      var ok, size := Measure(zip, p, h.value, threshold);
      if !ok {
        assert !Readable(zip, p, n + k, threshold);
        return None;
      }
      var next := if size.Some? then [Found(n + k, size.value)] else [];
      ListsSnoc(zip, p, from, n + k, threshold, found, next);
      found := found + next;
    }
    return Some(found);
  }

  method ScanFile(zip: Zip, p: Part, from: nat, to: nat, threshold: nat) returns (r: Option<seq<Found>>)
    requires zip.Faithful() && threshold < U64 && p.log.begin <= from && to <= p.log.end
    ensures r.Some? <==> AllReadable(zip, p, from, to, threshold)
    ensures r.Some? ==> Lists(zip, p, from, to, threshold, r.value)
  {
    hide Readable; hide Large; hide Zip.Faithful;
    var n, found := from, [];
    while n < to
      invariant from <= n && (n <= to || n == from)
      invariant AllReadable(zip, p, from, n, threshold) && Lists(zip, p, from, n, threshold, found)
    {
      var count := Min(to - n, SCAN_PAGE);
      var page := ScanPage(zip, p, from, n, count, threshold, found);
      if page.None? { return None; }
      found := page.value;
      n := n + count;
    }
    return Some(found);
  }

  // The catalog.

  /** The ranges of the parts, as the catalog orders them. */
  function Ranges(parts: seq<Part>): (files: seq<LogCatalog.LogFile>)
    ensures |files| == |parts|
  {
    seq(|parts|, i requires 0 <= i < |parts| => LogCatalog.LogFile(parts[i].log.begin, parts[i].log.end, None, i))
  }

  /** Block `n` of the window, in a part that holds it. */
  predicate Asked(p: Part, blocks: (nat, nat), n: nat) {
    p.log.begin <= n < p.log.end && blocks.0 <= n < blocks.1
  }

  ghost predicate Reported(zip: Zip, parts: seq<Part>, blocks: (nat, nat), n: nat, bytes: nat, threshold: nat) {
    exists k: nat :: k < |parts| && Asked(parts[k], blocks, n) && Large(zip, parts[k], n, bytes, threshold)
  }

  ghost predicate ListsAll(zip: Zip, parts: seq<Part>, blocks: (nat, nat), threshold: nat, found: seq<Found>) {
    && InBlockOrder(found)
    && forall n: nat, bytes: nat :: Found(n, bytes) in found <==> Reported(zip, parts, blocks, n, bytes, threshold)
  }

  /**
   The scan fails exactly when some block of the window has no sound header, or a stream that has to be
   inflated and is not whole. Otherwise it lists, in block order, exactly the entries of the window that
   inflate to more than the threshold, with their sizes.
   */
  method FindLarge(zip: Zip, parts: seq<Part>, blocks: (nat, nat), threshold: nat) returns (r: Option<seq<Found>>)
    requires zip.Faithful() && threshold < U64 && LogCatalog.Chain(Ranges(parts))
    ensures r.Some? <==> forall k: nat, n: nat :: k < |parts| && Asked(parts[k], blocks, n) ==>
              Readable(zip, parts[k], n, threshold)
    ensures r.Some? ==> ListsAll(zip, parts, blocks, threshold, r.value)
  {
    hide Readable; hide Large; hide Zip.Faithful; hide LogCatalog.Chain; hide Lists; hide ListsAll;
    var found := [];
    NothingReported(zip, blocks, threshold);
    assert parts[..0] == [];
    for i := 0 to |parts|
      invariant forall k: nat, n: nat :: k < i && Asked(parts[k], blocks, n) ==>
                  Readable(zip, parts[k], n, threshold)
      invariant ListsAll(zip, parts[..i], blocks, threshold, found)
    {
      var p := parts[i];
      var from, to := Max(p.log.begin, blocks.0), Min(p.log.end, blocks.1);
      var more := ScanFile(zip, p, from, to, threshold);
      if more.None? { return None; }
      ListsOn(zip, parts, i, blocks, threshold, found, more.value);
      found := found + more.value;
    }
    assert parts[..|parts|] == parts;
    return Some(found);
  }

  lemma NothingReported(zip: Zip, blocks: (nat, nat), threshold: nat)
    ensures ListsAll(zip, [], blocks, threshold, [])
  {
  }

  lemma ListsOn(zip: Zip, parts: seq<Part>, i: nat, blocks: (nat, nat), threshold: nat, found: seq<Found>,
                more: seq<Found>)
    requires i < |parts| && LogCatalog.Chain(Ranges(parts)) && ListsAll(zip, parts[..i], blocks, threshold, found)
    requires var p := parts[i];
             Lists(zip, p, Max(p.log.begin, blocks.0), Min(p.log.end, blocks.1), threshold, more)
    ensures ListsAll(zip, parts[..i + 1], blocks, threshold, found + more)
  {
    hide Large; hide LogCatalog.Chain;
    var all := parts[..i + 1];
    forall x: nat, y: nat | x < |found| && y < |more|
      ensures found[x].block < more[y].block
    {
      var (a, b) := (found[x], more[y]);
      assert Found(a.block, a.bytes) in found && Found(b.block, b.bytes) in more;
      var k: nat :| k < i && Asked(parts[..i][k], blocks, a.block);
      LogCatalog.ChainIsOrdered(Ranges(parts), k, i);
    }
    forall n: nat, bytes: nat
      ensures Found(n, bytes) in found + more <==> Reported(zip, all, blocks, n, bytes, threshold)
    {
      ReportedOn(zip, parts, i, blocks, n, bytes, threshold);
    }
  }

  lemma ReportedOn(zip: Zip, parts: seq<Part>, i: nat, blocks: (nat, nat), n: nat, bytes: nat, threshold: nat)
    requires i < |parts|
    ensures Reported(zip, parts[..i + 1], blocks, n, bytes, threshold) <==>
      Reported(zip, parts[..i], blocks, n, bytes, threshold)
      || (Asked(parts[i], blocks, n) && Large(zip, parts[i], n, bytes, threshold))
  {
    hide Large;
    var all, before := parts[..i + 1], parts[..i];
    assert all[i] == parts[i] && forall k :: 0 <= k < i ==> all[k] == before[k];
  }

  /** Stored blocks are a decoder of this kind. */
  lemma StoredBlocksAreFaithful()
    ensures Zip(StoredBlocks.Meaning, StoredBlocks.Decoder).Faithful()
  {
    hide Lawful;
    forall d: seq<byte>
      ensures StoredBlocks.Meaning(d).data == d && Lawful(StoredBlocks.Meaning(d), StoredBlocks.Decoder(d))
      ensures Dense(StoredBlocks.Meaning(d))
    {
      StoredBlocks.DecoderIsLawful(d);
      StoredBlocks.MeaningIsShorter(d);
    }
  }
}
