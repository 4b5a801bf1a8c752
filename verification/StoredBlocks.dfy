/**
 A decoder for zlib streams of stored blocks (section 2.2 of RFC 1950, section 3.2.4 of RFC 1951). On
 each call it knows the bytes it has been given so far, and nothing else.
 */
module StoredBlocks {
  import opened Bytes
  import opened Inflate

  /** Where a scan of some bytes stopped: for want of more, at an error, or at the end of the stream. */
  datatype Stop = More | Broken | Done(used: nat)

  datatype Scan = Scan(out: seq<byte>, stop: Stop)

  /** The two sums of Adler-32, each modulo the largest prime below 2^16 (section 8.2 of RFC 1950). */
  function AdlerSums(s: seq<byte>): (r: (nat, nat))
    ensures r.0 < 65521 && r.1 < 65521
  {
    if s == [] then (1, 0) else
    var (a, b) := AdlerSums(s[..|s| - 1]);
    var a' := (a + s[|s| - 1]) % 65521;
    (a', (b + a') % 65521)
  }

  function Adler32(s: seq<byte>): (v: nat)
    ensures v < U32
  {
    var (a, b) := AdlerSums(s);
    b * 65536 + a
  }

  const BLOCK_HEADER: nat := 5
  const MAX_STORED: nat := 65535

  function LenAt(d: seq<byte>, p: nat): (n: nat)
    requires p + BLOCK_HEADER <= |d|
    ensures n <= MAX_STORED
  {
    Word(d[p + 1], d[p + 2])
  }

  function Word(low: int, high: int): int {
    low + 256 * high
  }

  /** A stored block: type bits 0, and a length followed by its complement. */
  predicate IsStored(d: seq<byte>, p: nat)
    requires p + BLOCK_HEADER <= |d|
  {
    d[p] / 2 % 4 == 0 && LenAt(d, p) + Word(d[p + 3], d[p + 4]) == MAX_STORED
  }

  /** The blocks from `p` on, after `before` has been put out. */
  function BlocksAt(d: seq<byte>, p: nat, before: seq<byte>): (r: Scan)
    ensures r.stop.Done? ==> p < r.stop.used <= |d|
    decreases |d| - p
  {
    if p + BLOCK_HEADER > |d| then Scan([], More) else
    if !IsStored(d, p) then Scan([], Broken) else
    var from := p + BLOCK_HEADER;
    var to := from + LenAt(d, p);
    if to > |d| then Scan(d[from..], More) else
    if d[p] % 2 == 1 then Scan(d[from..to], Trailer(d, to, before + d[from..to])) else
    var rest := BlocksAt(d, to, before + d[from..to]);
    Scan(d[from..to] + rest.out, rest.stop)
  }

  /** The checksum after the last block. */
  function Trailer(d: seq<byte>, p: nat, all: seq<byte>): (r: Stop)
    ensures r.Done? ==> r.used == p + 4 <= |d|
  {
    if p + 4 > |d| then More else
    if FromBe(d[p..p + 4]) == Adler32(all) then Done(p + 4) else Broken
  }

  /** Method 8, window at most 32K, no preset dictionary, and a header divisible by 31. */
  predicate HeaderOk(d: seq<byte>)
    requires |d| >= 2
  {
    d[0] % 16 == 8 && d[0] / 16 <= 7 && d[1] / 32 % 2 == 0 && Word(d[1], d[0]) % 31 == 0
  }

  function ScanOf(d: seq<byte>): (r: Scan)
    ensures r.stop.Done? ==> r.stop.used <= |d|
  {
    if |d| < 2 then Scan([], More) else if !HeaderOk(d) then Scan([], Broken) else BlocksAt(d, 2, [])
  }

  /** What the bytes mean. */
  function Meaning(d: seq<byte>): (z: Zlib)
    ensures z.Wf()
  {
    var s := ScanOf(d);
    Zlib(d, s.out, if s.stop.Done? then Ends(s.stop.used) else NeverEnds)
  }

  lemma {:induction false} BlocksAreShorter(d: seq<byte>, p: nat, before: seq<byte>)
    requires p <= |d|
    ensures |BlocksAt(d, p, before).out| <= |d| - p
    decreases |d| - p
  {
    if p + BLOCK_HEADER <= |d| && p + BLOCK_HEADER + LenAt(d, p) <= |d| {
      var to := p + BLOCK_HEADER + LenAt(d, p);
      BlocksAreShorter(d, to, before + d[p + BLOCK_HEADER..to]);
    }
  }

  /** Storing compresses nothing. */
  lemma MeaningIsShorter(d: seq<byte>)
    ensures |Meaning(d).out| <= |d|
  {
    if |d| >= 2 { BlocksAreShorter(d, 2, []); }
  }

  // More bytes only add to what has been said.

  /** `wider` continues `s`: it is the same once `s` has stopped for good. */
  predicate Continues(s: Scan, wider: Scan, size: nat) {
    && s.out <= wider.out && (s.stop != More ==> wider == s)
    && (wider.stop.Done? && wider.stop.used <= size ==> s == wider)
  }

  lemma TrailerContinues(d: seq<byte>, e: seq<byte>, p: nat, all: seq<byte>)
    requires d <= e
    ensures Trailer(d, p, all) == More || Trailer(d, p, all) == Trailer(e, p, all)
    ensures Trailer(d, p, all) == More && Trailer(e, p, all).Done? ==> Trailer(e, p, all).used > |d|
  {
    hide Adler32; hide FromBe;
    if p + 4 <= |d| { assert d[p..p + 4] == e[p..p + 4]; }
  }

  lemma SameHead(d: seq<byte>, e: seq<byte>, p: nat)
    requires d <= e && p + BLOCK_HEADER <= |d|
    ensures d[p] == e[p] && IsStored(d, p) == IsStored(e, p) && LenAt(d, p) == LenAt(e, p)
  {
  }

  /** A block whose bytes are not all there yet. */
  lemma PartialBlockContinues(d: seq<byte>, e: seq<byte>, p: nat, before: seq<byte>)
    requires d <= e && p + BLOCK_HEADER <= |d| && IsStored(d, p) && p + BLOCK_HEADER + LenAt(d, p) > |d|
    ensures Continues(BlocksAt(d, p, before), BlocksAt(e, p, before), |d|)
  {
    hide Trailer; hide IsStored; hide LenAt;
    SameHead(d, e, p);
    var from := p + BLOCK_HEADER;
    var to := from + LenAt(d, p);
    assert d[from..] <= if to <= |e| then e[from..to] else e[from..];
  }

  lemma {:induction false} BlocksContinue(d: seq<byte>, e: seq<byte>, p: nat, before: seq<byte>)
    requires d <= e
    ensures Continues(BlocksAt(d, p, before), BlocksAt(e, p, before), |d|)
    decreases |d| - p
  {
    hide Trailer; hide IsStored; hide LenAt;
    if p + BLOCK_HEADER <= |d| {
      SameHead(d, e, p);
      if IsStored(d, p) {
        var from := p + BLOCK_HEADER;
        var to := from + LenAt(d, p);
        if to > |d| {
          PartialBlockContinues(d, e, p, before);
        } else {
          assert d[from..to] == e[from..to];
          if d[p] % 2 == 1 {
            TrailerContinues(d, e, to, before + d[from..to]);
          } else {
            BlocksContinue(d, e, to, before + d[from..to]);
          }
        }
      }
    }
  }

  lemma ScanContinues(d: seq<byte>, e: seq<byte>)
    requires d <= e
    ensures Continues(ScanOf(d), ScanOf(e), |d|)
  {
    hide BlocksAt;
    if |d| >= 2 {
      BlocksContinue(d, e, 2, []);
    }
  }

  /** The decoder: everything the bytes so far give, as far as there is room. */
  function Decode(d: seq<byte>, i: nat, o: nat, avail: nat, room: nat): Reply {
    if i + avail > |d| then Reply(0, 0, Ok) else
    var s := ScanOf(d[..i + avail]);
    var p: nat := if o <= |s.out| then Min(room, |s.out| - o) else 0;
    match s.stop
    case More => Reply(avail, p, Ok)
    case Broken => Reply(avail, p, if o + p >= |s.out| then Invalid else Ok)
    case Done(used) =>
      var c: nat := if i <= used then Min(avail, used - i) else 0;
      Reply(c, p, if i + c == used && o + p == |s.out| then StreamEnd else Ok)
  }

  function Decoder(d: seq<byte>): Behaviour {
    (k: nat, i: nat, o: nat, avail: nat, room: nat) => Decode(d, i, o, avail, room)
  }

  /** The decoder keeps the contract, on every byte sequence. */
  lemma DecoderIsLawful(d: seq<byte>)
    ensures Lawful(Meaning(d), Decoder(d))
  {
    hide ScanOf;
    var z := Meaning(d);
    forall k: nat, i: nat, o: nat, avail: nat, room: nat | InRange(z, i, o, avail)
      ensures Allowed(z, i, o, avail, room, Decoder(d)(k, i, o, avail, room))
    {
      ScanContinues(d[..i + avail], d);
    }
  }

  // The writer.

  function StoreBlocks(c: seq<byte>): seq<byte>
    decreases |c|
  {
    if |c| <= MAX_STORED then BlockBytes(1, c) else BlockBytes(0, c[..MAX_STORED]) + StoreBlocks(c[MAX_STORED..])
  }

  function BlockBytes(final: byte, c: seq<byte>): (r: seq<byte>)
    requires |c| <= MAX_STORED
    ensures |r| == BLOCK_HEADER + |c|
  {
    [final, |c| % 256, |c| / 256, (MAX_STORED - |c|) % 256, (MAX_STORED - |c|) / 256] + c
  }

  /** A stream that holds `c` in stored blocks. */
  function Store(c: seq<byte>): seq<byte> {
    [0x78, 0x01] + (StoreBlocks(c) + Be(4, Adler32(c)))
  }

  lemma BlockStands(d: seq<byte>, p: nat, final: byte, c: seq<byte>)
    requires |c| <= MAX_STORED && final <= 1 && At(d, p, BlockBytes(final, c))
    ensures p + BLOCK_HEADER + |c| <= |d| && IsStored(d, p) && LenAt(d, p) == |c| && d[p] == final
    ensures d[p + BLOCK_HEADER..p + BLOCK_HEADER + |c|] == c
  {
    var b := BlockBytes(final, c);
    forall k | 0 <= k < |b|
      ensures d[p + k] == b[k]
    {
      AtIndex(d, p, b, k);
    }
    AtSplit(d, p, b[..BLOCK_HEADER], c);
  }

  lemma {:induction false} BlocksAreReadBack(d: seq<byte>, p: nat, before: seq<byte>, c: seq<byte>)
    requires At(d, p, StoreBlocks(c) + Be(4, Adler32(before + c)))
    ensures BlocksAt(d, p, before) == Scan(c, Done(p + |StoreBlocks(c)| + 4))
    decreases |c|
  {
    hide Adler32; hide FromBe; hide Be; hide IsStored; hide LenAt; hide At; hide BlockBytes;
    var sum := Be(4, Adler32(before + c));
    AtSplit(d, p, StoreBlocks(c), sum);
    if |c| <= MAX_STORED {
      BlockStands(d, p, 1, c);
      ChecksumStands(d, p + BLOCK_HEADER + |c|, Adler32(before + c));
    } else {
      var head, tail := c[..MAX_STORED], c[MAX_STORED..];
      AtSplit(d, p, BlockBytes(0, head), StoreBlocks(tail));
      BlockStands(d, p, 0, head);
      assert before + c == (before + head) + tail;
      AtJoin(d, p + BLOCK_HEADER + MAX_STORED, StoreBlocks(tail), sum);
      BlocksAreReadBack(d, p + BLOCK_HEADER + MAX_STORED, before + head, tail);
      assert head + tail == c;
    }
  }

  lemma AtJoin(d: seq<byte>, p: nat, x: seq<byte>, y: seq<byte>)
    requires At(d, p, x) && At(d, p + |x|, y)
    ensures At(d, p, x + y)
  {
    assert d[p..p + |x + y|] == d[p..p + |x|] + d[p + |x|..p + |x| + |y|];
  }

  lemma ChecksumStands(d: seq<byte>, p: nat, v: nat)
    requires v < U32 && At(d, p, Be(4, v))
    ensures p + 4 <= |d| && FromBe(d[p..p + 4]) == v
  {
    hide FromBe; hide Be;
    Pow256Facts();
    BeRoundTrip(4, v);
  }

  /** A stored stream means what was stored, and ends where it was written to, whatever follows. */
  lemma StoreIsReadBack(c: seq<byte>, trailing: seq<byte>)
    ensures ScanOf(Store(c) + trailing) == Scan(c, Done(|Store(c)|))
  {
    hide BlocksAt; hide Adler32; hide Be; hide StoreBlocks;
    var d := Store(c) + trailing;
    var body := StoreBlocks(c) + Be(4, Adler32(c));
    assert At(d, 2, body) by {
      assert d[2..2 + |body|] == body;
    }
    assert [] + c == c;
    BlocksAreReadBack(d, 2, [], c);
    assert d[0] == 0x78 && d[1] == 0x01;
  }
}
