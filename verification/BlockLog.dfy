/** The strict block-log reader over the bytes of a log and its index. */
module BlockLog {
  import opened Bytes
  import opened Parsing
  import ShipLog
  import opened BlockHeaders

  const TOTEM: nat := 0xffff_ffff_ffff_ffff
  const PREVIOUS_AT: nat := 14
  const MIN_HEADER_BYTES: nat := 116
  const CHAIN_CONFIG_BYTES: nat := 68
  const GENESIS_PROBE: nat := 512
  const HEADER_PROBE: nat := 8192

  /** An opened log: blocks `first..=last`, the first of them at `firstPos`. */
  datatype Opened = Opened(version: nat, first: nat, last: nat, chainId: Digest, firstPos: nat, size: nat)

  /** The length of the genesis state `b` starts with. */
  function GenesisLen(b: seq<byte>): Option<nat> {
    var timestamp :- Raw(b, 0, 8);
    var rest :- KeyRest(b, timestamp.1);
    Some(rest.1 + rest.0 + CHAIN_CONFIG_BYTES)
  }

  function ReadGenesis(log: seq<byte>, at: nat): (r: Option<seq<byte>>)
    ensures r.Some? ==> At(log, at, r.value)
  {
    if at > |log| then None else
    var avail := |log| - at;
    var probe := log[at..at + Min(avail, GENESIS_PROBE)];
    var len :- GenesisLen(probe);
    if len > avail then None else
    if len <= |probe| then Some(probe[..len]) else Some(log[at..at + len])
  }

  /** The chain id: the digest of the genesis state, or stored as such in a version 3 log that starts later. */
  function ReadChainId(sha256: seq<byte> -> Digest, log: seq<byte>, version: nat, first: nat, at: nat)
    : Option<(Digest, nat)>
  {
    if version < 3 || first == 1 then
      var genesis :- ReadGenesis(log, at);
      Some((sha256(genesis), at + |genesis|))
    else
      Raw(log, at, 32)
  }

  /** Version, first block, chain id and the length of the preamble. */
  function Preamble(sha256: seq<byte> -> Digest, log: seq<byte>): Option<(nat, nat, Digest, nat)> {
    var version :- IntAt(log, 4, 0);
    if version < 1 || version > 3 then None else
    var first :- (if version == 1 then Some(1) else IntAt(log, 4, 4));
    if first == 0 then None else
    var chain :- ReadChainId(sha256, log, version, first, if version == 1 then 4 else 8);
    if version == 1 then Some((version, first, chain.0, chain.1)) else
    var totem :- IntAt(log, 8, chain.1);
    if totem == TOTEM then Some((version, first, chain.0, chain.1 + 8)) else None
  }

  /** The position and the number of the last block. */
  function LastBlock(log: seq<byte>, first: nat, firstPos: nat): Option<(nat, nat)> {
    if |log| < firstPos + MIN_HEADER_BYTES + 8 then None else
    var pos := FromLe(log[|log| - 8..]);
    if !(firstPos <= pos && pos + MIN_HEADER_BYTES + 8 <= |log|) then None else
    var last := ShipLog.NumFromId(log[pos + PREVIOUS_AT..pos + PREVIOUS_AT + 32]) + 1;
    if first <= last < U32 then Some((pos, last)) else None
  }

  /** `Some(None)` is a log that holds only its preamble; its index is not read. */
  function Open(sha256: seq<byte> -> Digest, log: seq<byte>, index: Option<seq<byte>>): Option<Option<Opened>> {
    var pre :- Preamble(sha256, log);
    var (version, first, chainId, firstPos) := pre;
    if |log| == firstPos then Some(None) else
    var last :- LastBlock(log, first, firstPos);
    var idx :- index;
    if |idx| != (last.1 - first + 1) * 8 then None else
    if IntAt(idx, 8, 0) != Some(firstPos) || IntAt(idx, 8, |idx| - 8) != Some(last.0) then None else
    Some(Some(Opened(version, first, last.1, chainId, firstPos, |log|)))
  }

  /** Where the bytes of block `n` stand, provided the two index slots and the trailer tell the same story. */
  function Entry(o: Opened, log: seq<byte>, index: seq<byte>, n: nat): (r: Option<(nat, nat)>)
    ensures r.Some? ==> r.value.1 >= MIN_HEADER_BYTES && r.value.0 + r.value.1 + 8 <= |log|
  {
    if !(o.first <= n <= o.last) || |index| != (o.last - o.first + 1) * 8 || |log| != o.size then None else
    var slot := (n - o.first) * 8;
    var pos := FromLe(index[slot..slot + 8]);
    var end := if n < o.last then FromLe(index[slot + 8..slot + 16]) else o.size;
    if !(o.firstPos <= pos && pos + MIN_HEADER_BYTES + 8 <= end <= o.size) then None else
    if FromLe(log[end - 8..end]) != pos then None else
    Some((pos, end - 8 - pos))
  }

  /** Block `n` must name block `n - 1` as its predecessor. */
  predicate Links(n: nat, previous: Digest) {
    ShipLog.NumFromId(previous) == n - 1
  }

  function Body(o: Opened, log: seq<byte>, index: seq<byte>, n: nat): Option<seq<byte>> {
    var e :- Entry(o, log, index, n);
    var body := log[e.0..e.0 + e.1];
    if Links(n, body[PREVIOUS_AT..PREVIOUS_AT + 32]) then Some(body) else None
  }

  /** Decodes a probe of the `len` bytes at `pos` first, and all of them only when the probe does not do. */
  function Probe(sha256: seq<byte> -> Digest, log: seq<byte>, pos: nat, len: nat): Option<BlockHeader>
    requires pos + len <= |log|
  {
    var probed := Decode(sha256, log[pos..pos + Min(len, HEADER_PROBE)]);
    if probed.Some? then probed else
    if len > HEADER_PROBE then Decode(sha256, log[pos..pos + len]) else None
  }

  function Header(sha256: seq<byte> -> Digest, o: Opened, log: seq<byte>, index: seq<byte>, n: nat)
    : Option<BlockHeader>
  {
    var e :- Entry(o, log, index, n);
    var h :- Probe(sha256, log, e.0, e.1);
    if Links(n, h.previous) then Some(h) else None
  }

  // The probe does not show.

  /** Decoding a whole stored body: what `Header` must agree with. */
  function WholeHeader(sha256: seq<byte> -> Digest, o: Opened, log: seq<byte>, index: seq<byte>, n: nat)
    : Option<BlockHeader>
  {
    var body :- Body(o, log, index, n);
    Decode(sha256, body)
  }

  lemma PreviousIsStored(sha256: seq<byte> -> Digest, body: seq<byte>)
    requires Decode(sha256, body).Some?
    ensures |body| >= 46 && Decode(sha256, body).value.previous == body[14..46]
    ensures Decode(sha256, body).value.number == ShipLog.NumFromId(body[14..46]) + 1
  {
    hide SkipSchedule; hide SkipCounted;
  }

  lemma ProbeIsWhole(sha256: seq<byte> -> Digest, log: seq<byte>, pos: nat, len: nat)
    requires pos + len <= |log|
    ensures Probe(sha256, log, pos, len) == Decode(sha256, log[pos..pos + len])
  {
    hide Decode; hide HeaderAt;
    var probe, body := log[pos..pos + Min(len, HEADER_PROBE)], log[pos..pos + len];
    assert probe <= body;
    if Decode(sha256, probe).Some? {
      DecodeNeedsHeader(sha256, probe);
      DecodeExtends(sha256, probe, body);
    }
  }

  /** For every block of every log, the probing reader gives what decoding the whole body gives. */
  lemma HeaderAgreesWithBody(sha256: seq<byte> -> Digest, o: Opened, log: seq<byte>, index: seq<byte>, n: nat)
    ensures Header(sha256, o, log, index, n) == WholeHeader(sha256, o, log, index, n)
    ensures Header(sha256, o, log, index, n).Some? ==> Header(sha256, o, log, index, n).value.number == n
  {
    hide Entry; hide Decode; hide ShipLog.NumFromId; hide Probe;
    var e := Entry(o, log, index, n);
    if e.Some? {
      ProbeIsWhole(sha256, log, e.value.0, e.value.1);
      if Decode(sha256, log[e.value.0..e.value.0 + e.value.1]).Some? {
        PreviousIsStored(sha256, log[e.value.0..e.value.0 + e.value.1]);
      }
    }
  }

  lemma DecodeNeedsHeader(sha256: seq<byte> -> Digest, body: seq<byte>)
    requires Decode(sha256, body).Some?
    ensures HeaderAt(body).Some?
  {
  }

  // The blocks tile the log.

  /** A stored block with its position trailer. */
  function Record(log: seq<byte>, e: (nat, nat)): seq<byte>
    requires e.0 + e.1 <= |log|
  {
    log[e.0..e.0 + e.1] + Le(8, e.0)
  }

  lemma EntryIsRecord(o: Opened, log: seq<byte>, index: seq<byte>, n: nat)
    requires Entry(o, log, index, n).Some?
    ensures var e := Entry(o, log, index, n).value;
            e.0 + e.1 + 8 <= |log| && log[e.0..e.0 + e.1 + 8] == Record(log, e)
  {
    hide FromLe; hide Le;
    var e := Entry(o, log, index, n).value;
    var t := log[e.0 + e.1..e.0 + e.1 + 8];
    LeOfFromLe(t);
    assert log[e.0..e.0 + e.1 + 8] == log[e.0..e.0 + e.1] + t;
  }

  lemma EntriesMeet(o: Opened, log: seq<byte>, index: seq<byte>, n: nat)
    requires Entry(o, log, index, n).Some?
    ensures n == o.last ==> Entry(o, log, index, n).value.0 + Entry(o, log, index, n).value.1 + 8 == |log|
    ensures n < o.last && Entry(o, log, index, n + 1).Some? ==>
      Entry(o, log, index, n).value.0 + Entry(o, log, index, n).value.1 + 8 == Entry(o, log, index, n + 1).value.0
  {
    hide FromLe;
  }

  /** The records of blocks `n..=last`, one after another. */
  function Records(o: Opened, log: seq<byte>, index: seq<byte>, n: nat): seq<byte>
    requires forall k :: n <= k <= o.last ==> Entry(o, log, index, k).Some?
    decreases o.last + 1 - n
  {
    if n > o.last then [] else
    Record(log, Entry(o, log, index, n).value) + Records(o, log, index, n + 1)
  }

  lemma {:induction false} RecordsReachTheEnd(o: Opened, log: seq<byte>, index: seq<byte>, n: nat)
    requires n <= o.last && forall k :: n <= k <= o.last ==> Entry(o, log, index, k).Some?
    ensures Entry(o, log, index, n).value.0 <= |log|
    ensures log[Entry(o, log, index, n).value.0..] == Records(o, log, index, n)
    decreases o.last - n
  {
    hide Entry; hide Record;
    var e := Entry(o, log, index, n).value;
    EntryIsRecord(o, log, index, n);
    EntriesMeet(o, log, index, n);
    if n < o.last {
      RecordsReachTheEnd(o, log, index, n + 1);
      assert log[e.0..] == log[e.0..e.0 + e.1 + 8] + log[e.0 + e.1 + 8..];
    } else {
      assert log[e.0..] == log[e.0..e.0 + e.1 + 8];
      assert Records(o, log, index, n + 1) == [];
    }
  }

  /** No two blocks overlap. */
  ghost predicate Apart(o: Opened, log: seq<byte>, index: seq<byte>) {
    forall n: nat, m: nat :: o.first <= n < m <= o.last ==> Before(o, log, index, n, m)
  }

  predicate Before(o: Opened, log: seq<byte>, index: seq<byte>, n: nat, m: nat) {
    var e, f := Entry(o, log, index, n), Entry(o, log, index, m);
    e.Some? && f.Some? && e.value.0 + e.value.1 + 8 <= f.value.0
  }

  predicate Sound(o: Opened, log: seq<byte>, index: seq<byte>) {
    forall k :: o.first <= k <= o.last ==> Entry(o, log, index, k).Some?
  }

  lemma {:induction false} EntriesAscend(o: Opened, log: seq<byte>, index: seq<byte>, n: nat, m: nat)
    requires o.first <= n < m <= o.last && Sound(o, log, index)
    ensures Before(o, log, index, n, m)
    decreases m - n
  {
    hide Entry;
    EntriesMeet(o, log, index, n);
    if n + 1 < m { EntriesAscend(o, log, index, n + 1, m); }
  }

  /**
   When every block of an opened log passes its checks, the file after the preamble is exactly the
   blocks with their trailers, in order, and no two overlap.
   */
  lemma EntriesTile(sha256: seq<byte> -> Digest, log: seq<byte>, index: seq<byte>, o: Opened)
    requires Open(sha256, log, Some(index)) == Some(Some(o)) && Sound(o, log, index)
    ensures o.first <= o.last && o.firstPos <= |log|
    ensures log[o.firstPos..] == Records(o, log, index, o.first)
    ensures Apart(o, log, index)
  {
    hide Open; hide Records; hide Entry;
    OpenPlacesFirst(sha256, log, index, o);
    RecordsReachTheEnd(o, log, index, o.first);
    forall n: nat, m: nat | o.first <= n < m <= o.last
      ensures Before(o, log, index, n, m)
    {
      EntriesAscend(o, log, index, n, m);
    }
  }

  lemma OpenPlacesFirst(sha256: seq<byte> -> Digest, log: seq<byte>, index: seq<byte>, o: Opened)
    requires Open(sha256, log, Some(index)) == Some(Some(o))
    ensures o.first <= o.last && o.size == |log| && |index| == (o.last - o.first + 1) * 8
    ensures Entry(o, log, index, o.first).Some? ==> Entry(o, log, index, o.first).value.0 == o.firstPos
  {
    hide FromLe; hide Preamble; hide ShipLog.NumFromId;
  }
}
