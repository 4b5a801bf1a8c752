/**
 State-history logs as the strict reader sees them. Each entry is a 48-byte head (magic, id, size),
 its payload, and a copy of its own offset; the index file is those offsets, one for each block.
 Files are byte sequences; an I/O fault is a read outside the file.
 */
module ShipLog {
  import opened Bytes

  const SHIP_MAGIC: nat := 0xc35d_5000_0000_0000
  const HEADER_LEN: nat := 48
  const ENTRY_OVERHEAD: nat := 56

  /** What stands before the compressed bytes: a marker and the inflated size, or one legacy word. */
  datatype PayloadEnc = Sized(uncompressed: nat) | Legacy(field: nat) {
    function PreambleLen(): nat {
      if Sized? then 12 else 4
    }
  }

  datatype EntryHeader = EntryHeader(pos: nat, id: seq<byte>, payloadSize: nat, enc: PayloadEnc) {
    function DataOffset(): nat {
      pos + HEADER_LEN + enc.PreambleLen()
    }
    function DataLen(): nat {
      Max(payloadSize - enc.PreambleLen(), 0)
    }
    function End(): nat {
      pos + ENTRY_OVERHEAD + payloadSize
    }
    function Uncompressed(): Option<nat> {
      if enc.Sized? then Some(enc.uncompressed) else None
    }
  }

  /** Ids carry their block number in the leading 32 bits. */
  function NumFromId(id: seq<byte>): (n: nat)
    requires |id| == 32
    ensures n < U32
  {
    Pow256Facts();
    FromBe(id[..4])
  }

  function PreambleAt(f: seq<byte>, pos: nat, payloadSize: nat): Option<PayloadEnc>
    requires payloadSize >= 4 && pos + ENTRY_OVERHEAD + payloadSize <= |f|
  {
    var field := FromLe(f[pos + 48..pos + 52]);
    if field == 1 then
      if payloadSize < 12 then None else Some(Sized(FromLe(f[pos + 52..pos + 60])))
    else if field == 0 || field == payloadSize - 4 then
      Some(Legacy(field))
    else
      None
  }

  /** Reads one entry head. `Some` only if magic, number, size, preamble and trailer all agree with `n` and `pos`. */
  function ReadHeader(f: seq<byte>, n: nat, pos: nat): (r: Option<EntryHeader>)
    ensures r.Some? ==> |r.value.id| == 32 && r.value.pos == pos && r.value.End() <= |f|
    ensures r.Some? ==> r.value.DataOffset() + r.value.DataLen() + 8 == r.value.End()
  {
    if pos + ENTRY_OVERHEAD > |f| then None else
    var id, payloadSize := f[pos + 8..pos + 40], FromLe(f[pos + 40..pos + 48]);
    if IntAt(f, 8, pos) != Some(SHIP_MAGIC) || NumFromId(id) != n then None else
    var end := pos + ENTRY_OVERHEAD + payloadSize;
    if end > |f| || payloadSize < 4 || IntAt(f, 8, end - 8) != Some(pos) then None else
    var enc :- PreambleAt(f, pos, payloadSize);
    Some(EntryHeader(pos, id, payloadSize, enc))
  }

  /** Follows the trailer that closes `f` back to an entry, and accepts it if nothing comes after that entry. */
  function Tail(f: seq<byte>): Option<(nat, nat)>
    requires |f| >= ENTRY_OVERHEAD
  {
    var lastPos := FromLe(f[|f| - 8..]);
    if lastPos > |f| - ENTRY_OVERHEAD then None else
    var last := NumFromId(f[lastPos + 8..lastPos + 40]);
    var h :- ReadHeader(f, last, lastPos);
    if h.End() != |f| then None else Some((last, lastPos))
  }

  /** An opened, validated log: blocks `[begin, end)`. */
  datatype Log = Log(begin: nat, end: nat, lastPos: nat, size: nat)

  datatype Opened = Refused | Empty | Opened(log: Log)

  function Open(f: seq<byte>, idx: seq<byte>): Opened {
    if |f| == 0 then Empty else
    if |f| < ENTRY_OVERHEAD then Refused else
    if IntAt(f, 8, 0) != Some(SHIP_MAGIC) then Refused else
    var begin := NumFromId(f[8..40]);
    if ReadHeader(f, begin, 0).None? then Refused else
    match Tail(f)
    case None => Refused
    case Some((last, lastPos)) =>
      if last < begin || last + 1 >= U32 then Refused else
      var want := (last + 1 - begin) * 8;
      if |idx| != want || IntAt(idx, 8, want - 8) != Some(lastPos) then Refused else
      Opened(Log(begin, last + 1, lastPos, |f|))
  }

  /** Block `n`'s header, found through the index. Both files must still have their length. */
  function Header(log: Log, f: seq<byte>, idx: seq<byte>, n: nat): Option<EntryHeader> {
    if n < log.begin || n >= log.end || |f| != log.size || |idx| != (log.end - log.begin) * 8 then None else
    var pos :- IntAt(idx, 8, (n - log.begin) * 8);
    ReadHeader(f, n, pos)
  }
}
