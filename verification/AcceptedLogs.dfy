/** The strict reader accepts exactly what a writer lays down: one entry, a lookup, a whole log. */
module AcceptedLogs {
  import opened Bytes
  import opened ShipLog
  import opened ForkHistory

  /** The eight bytes at `p` are the number. */
  lemma NumberStands(f: seq<byte>, p: nat, n: nat, v: nat)
    requires IntAt(f, n, p) == Some(v)
    ensures At(f, p, Le(n, v))
  {
    hide Le; hide FromLe;
    LeOfFromLe(f[p..p + n]);
  }

  lemma PayloadStands(f: seq<byte>, pos: nat, size: nat, enc: PayloadEnc)
    requires size >= 4 && pos + ENTRY_OVERHEAD + size <= |f| && PreambleAt(f, pos, size) == Some(enc)
    ensures size >= enc.PreambleLen()
    ensures
      var e := Entry([], enc, f[pos + 48 + enc.PreambleLen()..pos + 48 + size]);
      |e.Payload()| == size && At(f, pos + 48, e.Payload())
    ensures match enc
            case Sized(n) => n < U64
            case Legacy(field) => (field == 0 || field == size - 4) && field < U32 && field != 1
  {
    hide Le; hide FromLe; hide At;
    Pow256Facts();
    var field := FromLe(f[pos + 48..pos + 52]);
    assert IntAt(f, 4, pos + 48) == Some(field);
    NumberStands(f, pos + 48, 4, field);
    var stream := f[pos + 48 + enc.PreambleLen()..pos + 48 + size];
    SliceStands(f, pos + 48 + enc.PreambleLen(), pos + 48 + size);
    if enc.Sized? {
      assert IntAt(f, 8, pos + 52) == Some(enc.uncompressed);
      NumberStands(f, pos + 52, 8, enc.uncompressed);
      AtJoin(f, pos + 52, Le(8, enc.uncompressed), stream);
      AtJoin(f, pos + 48, Le(4, 1), Le(8, enc.uncompressed) + stream);
    } else {
      AtJoin(f, pos + 48, Le(4, field), stream);
    }
  }

  lemma SliceStands(f: seq<byte>, i: nat, j: nat)
    requires i <= j <= |f|
    ensures At(f, i, f[i..j])
  {
  }

  /** An accepted entry is one a writer could have put there. */
  lemma AcceptedIsWritten(f: seq<byte>, n: nat, pos: nat) returns (e: Entry)
    requires ReadHeader(f, n, pos).Some? && n + 1 < U32
    ensures e.Wf() && e.Num() == n && At(f, pos, e.Encode(pos))
    ensures ReadHeader(f, n, pos) == Some(e.HeaderAt(pos))
  {
    hide Le; hide FromLe; hide PreambleAt; hide At; hide FromBe;
    Pow256Facts();
    var h := ReadHeader(f, n, pos).value;
    var size := h.payloadSize;
    PayloadStands(f, pos, size, h.enc);
    e := Entry(h.id, h.enc, f[pos + 48 + h.enc.PreambleLen()..pos + 48 + size]);
    var p := e.Payload();
    assert p == Entry([], h.enc, e.stream).Payload();
    NumberStands(f, pos, 8, SHIP_MAGIC);
    SliceStands(f, pos + 8, pos + 40);
    assert IntAt(f, 8, pos + 40) == Some(size);
    NumberStands(f, pos + 40, 8, size);
    NumberStands(f, pos + 48 + size, 8, pos);
    AtJoin(f, pos + 48, p, Le(8, pos));
    AtJoin(f, pos + 40, Le(8, size), p + Le(8, pos));
    AtJoin(f, pos + 8, e.id, Le(8, size) + (p + Le(8, pos)));
    AtJoin(f, pos, Le(8, SHIP_MAGIC), e.id + (Le(8, size) + (p + Le(8, pos))));
  }

  predicate IsEntry(f: seq<byte>, n: nat, pos: nat, e: Entry) {
    e.Wf() && e.Num() == n && At(f, pos, e.Encode(pos))
  }

  /** A header is read exactly where an entry of that block stands. */
  lemma ReadHeaderExactly(f: seq<byte>, n: nat, pos: nat, h: EntryHeader)
    requires |f| < U64 && n + 1 < U32
    ensures ReadHeader(f, n, pos) == Some(h) <==> exists e :: IsEntry(f, n, pos, e) && h == e.HeaderAt(pos)
  {
    hide ReadHeader; hide At; hide Entry.Encode; hide Entry.Wf;
    if ReadHeader(f, n, pos) == Some(h) {
      var e := AcceptedIsWritten(f, n, pos);
      assert IsEntry(f, n, pos, e);
    }
    forall e: Entry | IsEntry(f, n, pos, e)
      ensures ReadHeader(f, n, pos) == Some(e.HeaderAt(pos))
    {
      ReadsEntry(f, e, pos);
    }
  }

  predicate LeadsTo(idx: seq<byte>, slot: nat, f: seq<byte>, n: nat, pos: nat, e: Entry) {
    At(idx, slot * 8, Le(8, pos)) && IsEntry(f, n, pos, e)
  }

  /** A lookup succeeds exactly when the files have their lengths and the slot leads to an entry of the block. */
  lemma LookupExactly(log: Log, f: seq<byte>, idx: seq<byte>, n: nat, h: EntryHeader)
    requires |f| < U64 && log.end < U32
    ensures Header(log, f, idx, n) == Some(h) <==>
      && log.begin <= n < log.end && |f| == log.size && |idx| == (log.end - log.begin) * 8
      && exists pos: nat, e :: LeadsTo(idx, n - log.begin, f, n, pos, e) && pos < U64 && h == e.HeaderAt(pos)
  {
    hide ReadHeader; hide At; hide IsEntry; hide Le; hide FromLe;
    Pow256Facts();
    if log.begin <= n < log.end && |idx| == (log.end - log.begin) * 8 {
      var pos := IntAt(idx, 8, (n - log.begin) * 8).value;
      NumberStands(idx, (n - log.begin) * 8, 8, pos);
      ReadHeaderExactly(f, n, pos, h);
      forall q: nat | At(idx, (n - log.begin) * 8, Le(8, q)) && q < U64
        ensures q == pos
      {
        IntAtLe(idx, 8, (n - log.begin) * 8, q);
      }
      if Header(log, f, idx, n) == Some(h) {
        var e :| IsEntry(f, n, pos, e) && h == e.HeaderAt(pos);
        assert LeadsTo(idx, n - log.begin, f, n, pos, e);
      }
    }
  }

  /** A log from `first` at its start to `last`, which ends the file at `pos`, and an index of that length. */
  predicate IsLog(f: seq<byte>, idx: seq<byte>, first: Entry, last: Entry, pos: nat) {
    && first.Wf() && last.Wf() && first.Num() <= last.Num()
    && At(f, 0, first.Encode(0)) && At(f, pos, last.Encode(pos)) && pos + |last.Encode(pos)| == |f|
    && |idx| == (last.Num() + 1 - first.Num()) * 8 && At(idx, |idx| - 8, Le(8, pos))
  }

  /** A log opens exactly when it has this form, and then as the blocks from `first` to `last`. */
  lemma OpenExactly(f: seq<byte>, idx: seq<byte>, log: Log)
    requires |f| < U64
    ensures Open(f, idx) == Opened(log) <==>
      exists first, last, pos: nat ::
        IsLog(f, idx, first, last, pos) && log == Log(first.Num(), last.Num() + 1, pos, |f|)
  {
    hide Open; hide IsLog;
    if Open(f, idx) == Opened(log) {
      var first, last, pos := OpenedIsLog(f, idx, log);
    }
    forall first: Entry, last: Entry, pos: nat | IsLog(f, idx, first, last, pos)
      ensures first.Wf() && last.Wf() && Open(f, idx) == Opened(Log(first.Num(), last.Num() + 1, pos, |f|))
    {
      LogOpens(f, idx, first, last, pos);
    }
  }

  lemma OpenedIsLog(f: seq<byte>, idx: seq<byte>, log: Log) returns (first: Entry, last: Entry, pos: nat)
    requires |f| < U64 && Open(f, idx) == Opened(log)
    ensures IsLog(f, idx, first, last, pos) && log == Log(first.Num(), last.Num() + 1, pos, |f|)
  {
    hide ReadHeader; hide At; hide Entry.Encode; hide Le; hide FromLe; hide Entry.Wf; hide FromBe;
    pos := log.lastPos;
    first := AcceptedIsWritten(f, log.begin, 0);
    last := AcceptedIsWritten(f, log.end - 1, pos);
    EntryEnds(last, pos);
    NumberStands(idx, |idx| - 8, 8, pos);
  }

  lemma EntryEnds(e: Entry, pos: nat)
    requires e.Wf()
    ensures e.HeaderAt(pos).End() == pos + |e.Encode(pos)|
  {
  }

  lemma LogOpens(f: seq<byte>, idx: seq<byte>, first: Entry, last: Entry, pos: nat)
    requires |f| < U64 && IsLog(f, idx, first, last, pos)
    ensures first.Wf() && last.Wf() && Open(f, idx) == Opened(Log(first.Num(), last.Num() + 1, pos, |f|))
  {
    hide ReadHeader; hide At; hide Entry.Encode; hide Le; hide FromLe; hide FromBe;
    Pow256Facts();
    ReadsEntry(f, first, 0);
    ReadsEntry(f, last, pos);
    HeaderPrefix(f, first, 0);
    HeaderPrefix(f, last, pos);
    TrailerOfEntry(f, last, pos);
    EntryEnds(first, 0);
    EntryEnds(last, pos);
    IntAtLe(idx, 8, |idx| - 8, pos);
  }
}
