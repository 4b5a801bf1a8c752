/** Decoding on a pruned ABI, and the cache that decides when to. */
module WireDecoding {
  import opened Bytes
  import opened TypeNames
  import opened Abis
  import opened Pruning

  /**
   A type name with all its definitions, unfolded along aliases, bases, fields and variants. A decoder
   that resolves names along those edges is a function of this tree.
   */
  datatype Tree = Cut | Malformed(kind: string) | Protobuf(kind: string, descriptors: Option<seq<byte>>)
                | Node(kind: string, alias: Option<Alias>, struct: Option<Struct>, variant: Option<Variant>,
                       enumeration: Option<Enum>, children: seq<Tree>)

  /** The tree to a depth of `fuel`. */
  function Unfold(abi: Abi, kind: string, fuel: nat): Tree
    decreases fuel
  {
    if fuel == 0 then Cut else
    var k := BaseType(kind);
    if IsProtobuf(k) then Protobuf(kind, abi.protobuf) else
    match Mentions(abi, k)
    case None => Malformed(kind)
    case Some(m) =>
      Node(kind, AliasOf(abi, k), StructOf(abi, k), VariantOf(abi, k), EnumOf(abi, k),
           seq(|m|, i requires 0 <= i < |m| => Unfold(abi, m[i], fuel - 1)))
  }

  lemma {:induction false} NeededUnfolds(abi: Abi, root: string, kind: string, fuel: nat)
    requires Prunable(abi, root) && Reaches(abi, root, BaseType(kind))
    ensures Unfold(Pruned(abi, root).value, kind, fuel) == Unfold(abi, kind, fuel)
    decreases fuel
  {
    hide BaseType; hide Named; hide Reaches; hide Restrict; hide Universe; hide Mentions;
    var p, k := Pruned(abi, root).value, BaseType(kind);
    if fuel == 0 {
    } else if IsProtobuf(k) {
      assert NeedsProtobuf(abi, root);
      RestrictKeepsProtobuf(abi, NeededSet(abi, root));
    } else {
      assert Needed(abi, root, k);
      NeededSetIsAll(abi, root, k);
      RestrictResolves(abi, NeededSet(abi, root), NeedsProtobuf(abi, root), k);
      SameMentions(p, abi, k);
      var m := Mentions(abi, k).value;
      forall i | 0 <= i < |m|
        ensures Unfold(p, m[i], fuel - 1) == Unfold(abi, m[i], fuel - 1)
      {
        assert m[i] in m;
        ReachesOn(abi, root, k, m[i]);
        NeededUnfolds(abi, root, m[i], fuel - 1);
      }
    }
  }

  lemma RestrictKeepsProtobuf(abi: Abi, keep: set<string>)
    ensures Restrict(abi, keep, true).protobuf == abi.protobuf
  {
  }

  lemma SameMentions(a: Abi, b: Abi, k: string)
    requires AliasOf(a, k) == AliasOf(b, k) && StructOf(a, k) == StructOf(b, k) && VariantOf(a, k) == VariantOf(b, k)
    ensures Mentions(a, k) == Mentions(b, k)
  {
    hide Named;
  }

  /** Pruning does not show to a decoder, however deep it goes. */
  lemma PruningPreservesMeaning(abi: Abi, root: string, fuel: nat)
    requires Pruned(abi, root).Some?
    ensures Unfold(Pruned(abi, root).value, root, fuel) == Unfold(abi, root, fuel)
  {
    hide BaseType; hide Restrict; hide NeededSet; hide Reaches;
    ReachesRoot(abi, root);
    NeededUnfolds(abi, root, root, fuel);
  }

  /** Pruning keeps nothing else: every kept record of every section is reached. */
  lemma PruningKeepsOnlyReached(abi: Abi, root: string, k: string)
    requires Pruned(abi, root).Some? && !Needed(abi, root, k)
    ensures var p := Pruned(abi, root).value;
            AliasOf(p, k) == None && StructOf(p, k) == None && VariantOf(p, k) == None && EnumOf(p, k) == None
  {
    hide Named; hide Restrict; hide Universe; hide Reaches; hide Prunable;
    NeededSetIsAll(abi, root, k);
    RestrictResolves(abi, NeededSet(abi, root), NeedsProtobuf(abi, root), k);
  }

  /** The name resolves in `p` as it does in `abi`. */
  predicate ResolvesAs(p: Abi, abi: Abi, k: string) {
    && AliasOf(p, k) == AliasOf(abi, k) && StructOf(p, k) == StructOf(abi, k)
    && VariantOf(p, k) == VariantOf(abi, k) && EnumOf(p, k) == EnumOf(abi, k)
  }

  /**
   Nothing kept refers to something lost: what a kept alias stands for, a kept struct's base and field types, and
   a kept variant's types resolve as in the full ABI, and the descriptors are there if one of them is protobuf.
   */
  lemma NothingDangles(abi: Abi, root: string, k: string, t: string)
    requires Pruned(abi, root).Some?
    requires
      var p := Pruned(abi, root).value;
      var a, s, v := AliasOf(p, k), StructOf(p, k), VariantOf(p, k);
      || (a.Some? && a.value.target == Some(t))
      || (a.None? && s.Some? && s.value.base == Some(t) && t != "")
      || (a.None? && s.Some? && exists i :: 0 <= i < |s.value.fields| && s.value.fields[i].kind == Some(t))
      || (a.None? && s.None? && v.Some? && v.value.types.Some?
          && exists i :: 0 <= i < |v.value.types.value| && v.value.types.value[i] == Some(t))
    ensures
      var p := Pruned(abi, root).value;
      if IsProtobuf(BaseType(t)) then p.protobuf == abi.protobuf else ResolvesAs(p, abi, BaseType(t))
  {
    hide Named; hide Restrict; hide Universe; hide Reaches; hide BaseType; hide NeededSet; hide Mentions;
    var keep := NeededSet(abi, root);
    if !Needed(abi, root, k) { PruningKeepsOnlyReached(abi, root, k); }
    assert Needed(abi, root, k);
    NeededSetIsAll(abi, root, k);
    RestrictResolves(abi, keep, NeedsProtobuf(abi, root), k);
    MentionsAreEdges(abi, k, t);
    ReachesOn(abi, root, k, t);
    if IsProtobuf(BaseType(t)) {
      RestrictKeepsProtobuf(abi, keep);
    } else {
      assert Needed(abi, root, BaseType(t));
      NeededSetIsAll(abi, root, BaseType(t));
      RestrictResolves(abi, keep, NeedsProtobuf(abi, root), BaseType(t));
    }
  }

  /** Two ABIs give `kind` the same definitions, however deep one looks. */
  ghost predicate SameType(a: Abi, b: Abi, kind: string) {
    forall fuel: nat :: Unfold(a, kind, fuel) == Unfold(b, kind, fuel)
  }

  /** A codec: it validates an ABI as a whole, and then decodes bytes as one of its types. */
  datatype Codec<!V> = Codec(valid: Abi -> bool, run: (Abi, string, seq<byte>) -> Option<V>) {
    /** Decoding resolves names along the edges, as deep as it likes: it sees nothing but the unfolded type. */
    ghost predicate FollowsEdges() {
      forall a: Abi, b: Abi, kind: string, bytes: seq<byte> ::
        SameType(a, b, kind) ==> run(a, kind, bytes) == run(b, kind, bytes)
    }
  }

  function DecodeValue<V>(c: Codec<V>, abi: Abi, kind: string, bytes: seq<byte>): Option<V> {
    if c.valid(abi) then c.run(abi, kind, bytes) else None
  }

  lemma PrunedIsSameType(abi: Abi, kind: string)
    requires Pruned(abi, kind).Some?
    ensures SameType(Pruned(abi, kind).value, abi, kind)
  {
    hide Pruned; hide Unfold;
    forall fuel: nat
      ensures Unfold(Pruned(abi, kind).value, kind, fuel) == Unfold(abi, kind, fuel)
    {
      PruningPreservesMeaning(abi, kind, fuel);
    }
  }

  lemma PrunedDecodesSame<V>(c: Codec<V>, abi: Abi, kind: string, bytes: seq<byte>)
    requires c.FollowsEdges() && Pruned(abi, kind).Some? && c.valid(abi) && c.valid(Pruned(abi, kind).value)
    ensures DecodeValue(c, Pruned(abi, kind).value, kind, bytes) == DecodeValue(c, abi, kind, bytes)
  {
    hide Pruned; hide SameType;
    PrunedIsSameType(abi, kind);
  }

  /** Decoders that look as deep as the type itself asks for are among them. */
  lemma TreeDecodersFollowEdges<V>(valid: Abi -> bool, depth: (Tree, seq<byte>) -> nat,
                                   core: (Tree, seq<byte>) -> Option<V>, first: nat)
    ensures Codec(valid, TreeDecoder(depth, core, first)).FollowsEdges()
  {
    hide Unfold;
    var run := TreeDecoder(depth, core, first);
    forall a: Abi, b: Abi, kind: string, bytes: seq<byte> | SameType(a, b, kind)
      ensures run(a, kind, bytes) == run(b, kind, bytes)
    {
      assert Unfold(a, kind, first) == Unfold(b, kind, first);
      var n := depth(Unfold(a, kind, first), bytes);
      assert Unfold(a, kind, n) == Unfold(b, kind, n);
    }
  }

  /** Looks `first` deep, and then as deep as what it saw calls for. */
  function TreeDecoder<V>(depth: (Tree, seq<byte>) -> nat, core: (Tree, seq<byte>) -> Option<V>, first: nat):
    (Abi, string, seq<byte>) -> Option<V>
  {
    (abi: Abi, kind: string, bytes: seq<byte>) =>
      core(Unfold(abi, kind, depth(Unfold(abi, kind, first), bytes)), bytes)
  }

  type Key = (nat, nat)

  datatype Entry = PrunedTo(abi: Abi) | Full

  class WireDecoder<V(==)> {
    const codec: Codec<V>
    /** The ABI each key stands for; it never changes. */
    ghost const abiOf: Key -> Abi
    var entries: map<(Key, string), Entry>

    constructor (codec: Codec<V>, ghost abiOf: Key -> Abi)
      requires codec.FollowsEdges()
      ensures Valid() && this.codec == codec && this.abiOf == abiOf && entries == map[]
    {
      this.codec, this.abiOf, entries := codec, abiOf, map[];
    }

    /** A pruned entry is the pruning of its key's ABI, and the codec accepts both. */
    ghost predicate Valid()
      reads this
    {
      codec.FollowsEdges() && forall e :: e in entries && entries[e].PrunedTo? ==> Trusted(e, entries[e].abi)
    }

    ghost predicate Trusted(e: (Key, string), p: Abi) {
      Pruned(abiOf(e.0), e.1) == Some(p) && codec.valid(p) && codec.valid(abiOf(e.0))
    }

    /** On every call, cached or not, the result is the full ABI's; a failure caches nothing. */
    method Decode(key: Key, abi: Abi, kind: string, bytes: seq<byte>) returns (r: Option<V>)
      requires Valid() && abi == abiOf(key)
      modifies this
      ensures Valid()
      ensures r == DecodeValue(codec, abi, kind, bytes)
      ensures r.None? ==> entries == old(entries)
      ensures r.Some? ==> entries.Keys == old(entries.Keys) + {(key, kind)}
    {
      hide Pruned; hide Unfold; hide Codec.FollowsEdges;
      if (key, kind) in entries {
        match entries[(key, kind)] {
          case PrunedTo(p) =>
            assert Trusted((key, kind), p);
            PrunedDecodesSame(codec, abi, kind, bytes);
            r := DecodeValue(codec, p, kind, bytes);
          case Full => r := DecodeValue(codec, abi, kind, bytes);
        }
        return;
      }
      r := DecodeValue(codec, abi, kind, bytes);
      if r.None? { return; }
      var entry := Full;
      var pruned := Prune(abi, kind);
      if pruned.Some? {
        var again := DecodeValue(codec, pruned.value, kind, bytes);
        if again == r { entry := PrunedTo(pruned.value); }
      }
      entries := entries[(key, kind) := entry];
    }
  }
}
