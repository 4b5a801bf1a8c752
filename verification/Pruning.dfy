/** The worklist that collects what a root type reaches, and what the result is good for. */
module Pruning {
  import opened Bytes
  import opened TypeNames
  import opened Abis

  ghost predicate Needed(abi: Abi, root: string, k: string) {
    Reaches(abi, root, k) && !IsProtobuf(k)
  }

  ghost predicate NeedsProtobuf(abi: Abi, root: string) {
    exists k :: Reaches(abi, root, k) && IsProtobuf(k)
  }

  /** Every definition the root reaches is well formed, and what must be copied is there. */
  ghost predicate Prunable(abi: Abi, root: string) {
    && (forall k :: Needed(abi, root, k) ==> Mentions(abi, k).Some?)
    && abi.version.Some? && (NeedsProtobuf(abi, root) ==> abi.protobuf.Some?)
  }

  // Finitely many names are mentioned.

  ghost function AliasNames(xs: seq<Alias>): set<string> {
    set x | x in xs && x.target.Some? :: BaseType(x.target.value)
  }

  ghost function BaseNames(xs: seq<Struct>): set<string> {
    set x | x in xs && x.base.Some? :: BaseType(x.base.value)
  }

  ghost function FieldNames(xs: seq<Struct>): set<string> {
    set x, f | x in xs && f in x.fields && f.kind.Some? :: BaseType(f.kind.value)
  }

  ghost function VariantNames(xs: seq<Variant>): set<string> {
    set x, t | x in xs && x.types.Some? && t in x.types.value && t.Some? :: BaseType(t.value)
  }

  ghost function Universe(abi: Abi, root: string): set<string> {
    {BaseType(root)} + AliasNames(abi.aliases) + BaseNames(abi.structs) + FieldNames(abi.structs)
      + VariantNames(abi.variants)
  }

  lemma StructMentions(s: Struct, t: string, xs: seq<Struct>)
    requires s in xs && All(Kinds(s.fields)).Some? && t in BaseOf(s) + All(Kinds(s.fields)).value
    ensures BaseType(t) in BaseNames(xs) + FieldNames(xs)
  {
    hide BaseType;
    var kinds := All(Kinds(s.fields)).value;
    if t !in BaseOf(s) {
      var i :| 0 <= i < |kinds| && kinds[i] == t;
      assert s.fields[i] in s.fields && s.fields[i].kind == Some(t);
    }
  }

  lemma MentionsInUniverse(abi: Abi, root: string, k: string, t: string)
    requires Mentions(abi, k).Some? && t in Mentions(abi, k).value
    ensures BaseType(t) in Universe(abi, root)
  {
    hide BaseType; hide Named;
    if AliasOf(abi, k).Some? {
      assert AliasOf(abi, k).value in abi.aliases;
    } else if StructOf(abi, k).Some? {
      StructMentions(StructOf(abi, k).value, t, abi.structs);
    } else {
      var v := VariantOf(abi, k).value;
      var i :| 0 <= i < |v.types.value| && v.types.value[i] == Some(t);
      assert v in abi.variants && v.types.value[i] in v.types.value;
    }
  }

  lemma ReachesInUniverse(abi: Abi, root: string, k: string)
    requires Reaches(abi, root, k)
    ensures k in Universe(abi, root)
  {
    hide BaseType; hide Mentions;
    var p :| Path(abi, root, p) && p[|p| - 1] == k;
    if |p| > 1 {
      assert Edge(abi, p[|p| - 2], p[|p| - 2 + 1]);
      var t :| t in Mentions(abi, p[|p| - 2]).value && BaseType(t) == k;
      MentionsInUniverse(abi, root, p[|p| - 2], t);
    }
  }

  ghost function NeededSet(abi: Abi, root: string): set<string> {
    set k | k in Universe(abi, root) && Needed(abi, root, k)
  }

  lemma NeededSetIsAll(abi: Abi, root: string, k: string)
    ensures k in NeededSet(abi, root) <==> Needed(abi, root, k)
  {
    hide Universe; hide Reaches;
    if Needed(abi, root, k) { ReachesInUniverse(abi, root, k); }
  }

  /** What pruning is to give, stated on reachability alone. */
  ghost function Pruned(abi: Abi, root: string): Option<Abi> {
    if Prunable(abi, root) then Some(Restrict(abi, NeededSet(abi, root), NeedsProtobuf(abi, root))) else None
  }

  // The worklist.

  predicate Covered(keep: set<string>, protobuf: bool, t: string) {
    if IsProtobuf(BaseType(t)) then protobuf else BaseType(t) in keep
  }

  predicate Pending(keep: set<string>, protobuf: bool, work: seq<string>, t: string) {
    Covered(keep, protobuf, t) || t in work
  }

  /** All found is needed, and all it mentions is covered or still to be looked at. */
  ghost predicate Inv(abi: Abi, root: string, keep: set<string>, protobuf: bool, work: seq<string>) {
    && WorkReaches(abi, root, work)
    && (forall k :: k in keep ==> Needed(abi, root, k) && Mentions(abi, k).Some?)
    && (forall k, t :: k in keep && t in Mentions(abi, k).value ==> Pending(keep, protobuf, work, t))
    && Pending(keep, protobuf, work, root)
    && (protobuf ==> NeedsProtobuf(abi, root))
  }

  lemma InvStart(abi: Abi, root: string)
    ensures Inv(abi, root, {}, false, [root])
  {
    hide BaseType; hide Mentions; hide Reaches;
    ReachesRoot(abi, root);
  }

  /** A name met again, or a protobuf type: nothing to add. */
  lemma InvDrop(abi: Abi, root: string, keep: set<string>, protobuf: bool, proto': bool, work: seq<string>, t: string)
    requires Inv(abi, root, keep, protobuf, work + [t]) && (protobuf ==> proto') && Covered(keep, proto', t)
    requires proto' ==> protobuf || IsProtobuf(BaseType(t))
    ensures Inv(abi, root, keep, proto', work)
  {
    hide BaseType; hide Mentions; hide Reaches;
    assert t in work + [t];
    assert Reaches(abi, root, BaseType(t));
    assert forall u :: u in work ==> u in work + [t];
    assert forall u :: Pending(keep, protobuf, work + [t], u) ==> Pending(keep, proto', work, u);
  }

  lemma PendingGrows(keep: set<string>, protobuf: bool, work: seq<string>, t: string, more: seq<string>, u: string)
    requires Pending(keep, protobuf, work + [t], u) && !IsProtobuf(BaseType(t))
    ensures Pending(keep + {BaseType(t)}, protobuf, work + more, u)
  {
    hide BaseType;
  }

  ghost predicate WorkReaches(abi: Abi, root: string, work: seq<string>) {
    forall t :: t in work ==> Reaches(abi, root, BaseType(t))
  }

  lemma WorkGrows(abi: Abi, root: string, work: seq<string>, t: string)
    requires WorkReaches(abi, root, work + [t]) && !IsProtobuf(BaseType(t)) && Mentions(abi, BaseType(t)).Some?
    ensures WorkReaches(abi, root, work + Mentions(abi, BaseType(t)).value) && Reaches(abi, root, BaseType(t))
  {
    hide BaseType; hide Mentions; hide Reaches; hide IsProtobuf;
    var m := Mentions(abi, BaseType(t)).value;
    assert t in work + [t];
    forall u | u in work + m
      ensures Reaches(abi, root, BaseType(u))
    {
      if u in work { assert u in work + [t]; } else { ReachesOn(abi, root, BaseType(t), u); }
    }
  }

  /** A new name: all it mentions goes to the worklist. */
  lemma InvGrow(abi: Abi, root: string, keep: set<string>, protobuf: bool, work: seq<string>, t: string)
    requires Inv(abi, root, keep, protobuf, work + [t]) && !IsProtobuf(BaseType(t))
    requires Mentions(abi, BaseType(t)).Some?
    ensures Inv(abi, root, keep + {BaseType(t)}, protobuf, work + Mentions(abi, BaseType(t)).value)
  {
    hide BaseType; hide Mentions; hide Reaches; hide Pending; hide IsProtobuf; hide NeedsProtobuf; hide WorkReaches;
    var k, m := BaseType(t), Mentions(abi, BaseType(t)).value;
    WorkGrows(abi, root, work, t);
    forall a, u | a in keep + {k} && u in Mentions(abi, a).value
      ensures Pending(keep + {k}, protobuf, work + m, u)
    {
      if a == k {
        PendingPushed(keep + {k}, protobuf, work, m, u);
      } else {
        PendingGrows(keep, protobuf, work, t, m, u);
      }
    }
    PendingGrows(keep, protobuf, work, t, m, root);
  }

  lemma PendingPushed(keep: set<string>, protobuf: bool, work: seq<string>, more: seq<string>, u: string)
    requires u in more
    ensures Pending(keep, protobuf, work + more, u)
  {
    hide BaseType;
  }

  lemma {:induction false} PathIsCovered(abi: Abi, root: string, keep: set<string>, protobuf: bool,
                                         p: seq<string>, i: nat)
    requires Inv(abi, root, keep, protobuf, []) && Path(abi, root, p) && i < |p|
    ensures if IsProtobuf(p[i]) then protobuf else p[i] in keep
    decreases i
  {
    hide BaseType; hide Mentions; hide Reaches; hide Needed;
    if i > 0 {
      PathIsCovered(abi, root, keep, protobuf, p, i - 1);
      assert Edge(abi, p[i - 1], p[i - 1 + 1]);
      var t :| t in Mentions(abi, p[i - 1]).value && BaseType(t) == p[i];
      assert Pending(keep, protobuf, [], t);
    }
  }

  lemma ReachIsCovered(abi: Abi, root: string, keep: set<string>, protobuf: bool, k: string)
    requires Inv(abi, root, keep, protobuf, []) && Reaches(abi, root, k)
    ensures if IsProtobuf(k) then protobuf else k in keep
  {
    hide BaseType; hide Mentions; hide Inv; hide Edge;
    var p :| Path(abi, root, p) && p[|p| - 1] == k;
    PathIsCovered(abi, root, keep, protobuf, p, |p| - 1);
  }

  /** With nothing left to look at, exactly what is needed has been found. */
  lemma InvEnd(abi: Abi, root: string, keep: set<string>, protobuf: bool)
    requires Inv(abi, root, keep, protobuf, [])
    ensures keep == NeededSet(abi, root) && protobuf == NeedsProtobuf(abi, root)
    ensures forall k :: Needed(abi, root, k) ==> Mentions(abi, k).Some?
  {
    hide BaseType; hide Mentions; hide Universe; hide Reaches;
    forall k | Reaches(abi, root, k)
      ensures if IsProtobuf(k) then protobuf else k in keep
    {
      ReachIsCovered(abi, root, keep, protobuf, k);
    }
    forall k
      ensures k in NeededSet(abi, root) <==> k in keep
    {
      NeededSetIsAll(abi, root, k);
    }
  }

  method FindMentions(abi: Abi, k: string) returns (m: Option<seq<string>>)
    ensures m == Mentions(abi, k)
  {
    hide Named;
    var alias := AliasOf(abi, k);
    if alias.Some? {
      if alias.value.target.None? { return None; }
      return Some([alias.value.target.value]);
    }
    var s := StructOf(abi, k);
    if s.Some? {
      var kinds := Collect(Kinds(s.value.fields));
      if kinds.None? { return None; }
      return Some(BaseOf(s.value) + kinds.value);
    }
    var v := VariantOf(abi, k);
    if v.Some? {
      if v.value.types.None? { return None; }
      m := Collect(v.value.types.value);
      return;
    }
    return Some([]);
  }

  method Collect(xs: seq<Option<string>>) returns (r: Option<seq<string>>)
    ensures r == All(xs)
  {
    hide All;
    var out := [];
    for i := 0 to |xs|
      invariant |out| == i && forall j :: 0 <= j < i ==> xs[j] == Some(out[j])
    {
      if xs[i].None? { return None; }
      out := out + [xs[i].value];
    }
    assert All(xs).value == out;
    return Some(out);
  }

  /** prune: the worklist gives the ABI restricted to what the root reaches, or fails when that is malformed. */
  method Prune(abi: Abi, root: string) returns (r: Option<Abi>)
    ensures r == Pruned(abi, root)
  {
    hide BaseType; hide Mentions; hide Inv; hide Universe; hide Restrict; hide NeededSet; hide NeedsProtobuf;
    hide Reaches;
    var keep: set<string>, protobuf, work := {}, false, [root];
    InvStart(abi, root);
    while work != []
      invariant Inv(abi, root, keep, protobuf, work)
      decreases Universe(abi, root) - keep, |work|
    {
      var name := work[|work| - 1];
      assert work == work[..|work| - 1] + [name];
      work := work[..|work| - 1];
      InvReaches(abi, root, keep, protobuf, work, name);
      var kind := FindBaseType(name);
      if IsProtobuf(kind) {
        InvDrop(abi, root, keep, protobuf, true, work, name);
        protobuf := true;
      } else if kind in keep {
        InvDrop(abi, root, keep, protobuf, protobuf, work, name);
      } else {
        var m := FindMentions(abi, kind);
        if m.None? { return None; }
        InvGrow(abi, root, keep, protobuf, work, name);
        keep := keep + {kind};
        work := work + m.value;
      }
    }
    InvEnd(abi, root, keep, protobuf);
    if abi.version.None? || (protobuf && abi.protobuf.None?) { return None; }
    return Some(Restrict(abi, keep, protobuf));
  }

  lemma InvReaches(abi: Abi, root: string, keep: set<string>, protobuf: bool, work: seq<string>, t: string)
    requires Inv(abi, root, keep, protobuf, work + [t])
    ensures Reaches(abi, root, BaseType(t)) && BaseType(t) in Universe(abi, root)
  {
    hide BaseType; hide Mentions; hide Universe; hide Reaches;
    assert t in work + [t];
    ReachesInUniverse(abi, root, BaseType(t));
  }
}
