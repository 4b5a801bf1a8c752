/** The block log reader accepts a block, or a whole log, exactly when the bytes on disk say the same in every place. */
module AcceptedBlocks {
  import opened Bytes
  import opened BlockHeaders
  import opened BlockLog

  /** Number eight bytes wide at `p`, and no other. */
  lemma NumberAt(b: seq<byte>, p: nat, v: nat)
    requires p + 8 <= |b| && v < U64
    ensures FromLe(b[p..p + 8]) == v <==> At(b, p, Le(8, v))
  {
    hide Le; hide FromLe;
    Pow256Facts();
    LeOfFromLe(b[p..p + 8]);
    LeRoundTrip(8, v);
  }

  /** What the index says of block `n`: where it starts, and where the next block starts or the log ends. */
  predicate IndexSays(o: Opened, index: seq<byte>, n: nat, pos: nat, end: nat) {
    && o.first <= n <= o.last && |index| == (o.last - o.first + 1) * 8
    && At(index, (n - o.first) * 8, Le(8, pos))
    && if n < o.last then At(index, (n - o.first) * 8 + 8, Le(8, end)) else end == o.size
  }

  /** A block is found exactly where the index puts it, inside the log, with room for a header and its own position
      after it. */
  lemma EntryExactly(o: Opened, log: seq<byte>, index: seq<byte>, n: nat, pos: nat, len: nat)
    requires o.size < U64 && pos < U64 && len < U64
    ensures Entry(o, log, index, n) == Some((pos, len)) <==>
      && |log| == o.size && o.firstPos <= pos && len >= MIN_HEADER_BYTES && pos + len + 8 <= o.size
      && IndexSays(o, index, n, pos, pos + len + 8) && At(log, pos + len, Le(8, pos))
  {
    hide Le; hide FromLe; hide At;
    if o.first <= n <= o.last && |index| == (o.last - o.first + 1) * 8 && |log| == o.size {
      var slot := (n - o.first) * 8;
      NumberAt(index, slot, pos);
      if pos + len + 8 <= o.size {
        NumberAt(log, pos + len, pos);
        if n < o.last { NumberAt(index, slot + 8, pos + len + 8); }
      }
    }
  }

  lemma EntryHasSize(o: Opened, log: seq<byte>, index: seq<byte>, n: nat)
    requires Entry(o, log, index, n).Some?
    ensures |log| == o.size
  {
    hide FromLe;
  }

  predicate StandsAt(o: Opened, log: seq<byte>, index: seq<byte>, n: nat, pos: nat, body: seq<byte>) {
    && o.firstPos <= pos && pos + |body| + 8 <= o.size
    && IndexSays(o, index, n, pos, pos + |body| + 8) && At(log, pos, body) && At(log, pos + |body|, Le(8, pos))
  }

  /** A block's bytes are given out exactly if they stand there and name block `n - 1` as their parent. */
  lemma BodyExactly(o: Opened, log: seq<byte>, index: seq<byte>, n: nat, body: seq<byte>)
    requires o.size < U64 && n > 0
    ensures Body(o, log, index, n) == Some(body) <==>
      && |log| == o.size && |body| >= MIN_HEADER_BYTES && FromBe(body[14..18]) + 1 == n
      && exists pos: nat :: StandsAt(o, log, index, n, pos, body)
  {
    hide Le; hide FromLe; hide FromBe; hide Entry;
    if Body(o, log, index, n) == Some(body) {
      var (pos, len) := Entry(o, log, index, n).value;
      EntryHasSize(o, log, index, n);
      EntryExactly(o, log, index, n, pos, len);
      assert body[14..46][..4] == body[14..18];
      assert StandsAt(o, log, index, n, pos, body);
    }
    if |log| == o.size && |body| >= MIN_HEADER_BYTES && FromBe(body[14..18]) + 1 == n {
      forall pos: nat | StandsAt(o, log, index, n, pos, body)
        ensures Body(o, log, index, n) == Some(body)
      {
        EntryExactly(o, log, index, n, pos, |body|);
        assert body[14..46][..4] == body[14..18];
      }
    }
  }

  /** After its preamble a log opens exactly when its trailer leads to a last block whose number the index has room
      for, and the index puts the first and the last block where the log does. */
  lemma OpenExactly(sha256: seq<byte> -> Digest, log: seq<byte>, index: seq<byte>, o: Opened, pos: nat)
    requires |log| < U64 && Preamble(sha256, log).Some? && pos < U64
    requires var (version, first, chainId, firstPos) := Preamble(sha256, log).value;
             && |log| > firstPos + MIN_HEADER_BYTES + 7 && At(log, |log| - 8, Le(8, pos))
             && o == Opened(version, first, o.last, chainId, firstPos, |log|)
    ensures Open(sha256, log, Some(index)) == Some(Some(o)) <==>
      && o.firstPos <= pos && pos + MIN_HEADER_BYTES + 8 <= |log|
      && o.last == FromBe(log[pos + 14..pos + 18]) + 1 && o.first <= o.last < U32
      && |index| == (o.last - o.first + 1) * 8
      && At(index, 0, Le(8, o.firstPos)) && At(index, |index| - 8, Le(8, pos))
  {
    hide Le; hide FromLe; hide FromBe; hide Preamble; hide At;
    NumberAt(log, |log| - 8, pos);
    assert log[|log| - 8..|log|] == log[|log| - 8..];
    if pos + MIN_HEADER_BYTES + 8 <= |log| { assert log[pos + 14..pos + 46][..4] == log[pos + 14..pos + 18]; }
    if |index| >= 8 {
      NumberAt(index, 0, o.firstPos);
      NumberAt(index, |index| - 8, pos);
    }
  }
}
