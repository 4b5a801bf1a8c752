/** The ABI as the pruner sees it. A part that is missing or of the wrong JSON type is `None`. */
module Abis {
  import opened Bytes
  import opened TypeNames

  datatype Alias = Alias(name: Option<string>, target: Option<string>)
  datatype Field = Field(name: string, kind: Option<string>)
  datatype Struct = Struct(name: Option<string>, base: Option<string>, fields: seq<Field>)
  datatype Variant = Variant(name: Option<string>, types: Option<seq<Option<string>>>)
  datatype Enum = Enum(name: Option<string>, kind: string, values: seq<(string, int)>)

  datatype Abi = Abi(version: Option<string>, aliases: seq<Alias>, structs: seq<Struct>, variants: seq<Variant>,
                     enums: seq<Enum>, protobuf: Option<seq<byte>>)

  /** The last record of that name: what indexing a section by name leaves. */
  function Named<T>(xs: seq<T>, name: T -> Option<string>, k: string): (r: Option<T>)
    ensures r.Some? ==> r.value in xs && name(r.value) == Some(k)
  {
    if xs == [] then None
    else if name(xs[|xs| - 1]) == Some(k) then Some(xs[|xs| - 1])
    else Named(xs[..|xs| - 1], name, k)
  }

  const AliasName := (x: Alias) => x.name
  const StructName := (x: Struct) => x.name
  const VariantName := (x: Variant) => x.name
  const EnumName := (x: Enum) => x.name

  function AliasOf(abi: Abi, k: string): Option<Alias> { Named(abi.aliases, AliasName, k) }
  function StructOf(abi: Abi, k: string): Option<Struct> { Named(abi.structs, StructName, k) }
  function VariantOf(abi: Abi, k: string): Option<Variant> { Named(abi.variants, VariantName, k) }
  function EnumOf(abi: Abi, k: string): Option<Enum> { Named(abi.enums, EnumName, k) }

  /** All of `xs`, or nothing when one is missing. */
  function All(xs: seq<Option<string>>): (r: Option<seq<string>>)
    ensures r.Some? <==> forall i :: 0 <= i < |xs| ==> xs[i].Some?
    ensures r.Some? ==> |r.value| == |xs| && forall i :: 0 <= i < |xs| ==> r.value[i] == xs[i].value
  {
    if xs == [] then Some([]) else
    var x :- xs[0];
    var rest :- All(xs[1..]);
    Some([x] + rest)
  }

  function BaseOf(s: Struct): seq<string> {
    if s.base.Some? && s.base.value != "" then [s.base.value] else []
  }

  function Kinds(fields: seq<Field>): seq<Option<string>> {
    seq(|fields|, i requires 0 <= i < |fields| => fields[i].kind)
  }

  /** The type names the definition of `k` mentions; `None` when it is malformed. */
  function Mentions(abi: Abi, k: string): Option<seq<string>> {
    if AliasOf(abi, k).Some? then
      var t :- AliasOf(abi, k).value.target;
      Some([t])
    else if StructOf(abi, k).Some? then
      var s := StructOf(abi, k).value;
      var kinds :- All(Kinds(s.fields));
      Some(BaseOf(s) + kinds)
    else if VariantOf(abi, k).Some? then
      var types :- VariantOf(abi, k).value.types;
      All(types)
    else Some([])
  }

  /** The edges, one kind at a time: an alias shadows a struct, and a struct a variant, of the same name. */
  predicate RefersTo(abi: Abi, k: string, t: string) {
    match (AliasOf(abi, k), StructOf(abi, k), VariantOf(abi, k))
    case (Some(a), _, _) => a.target == Some(t)
    case (None, Some(s), _) =>
      (t != "" && s.base == Some(t)) || exists i :: 0 <= i < |s.fields| && s.fields[i].kind == Some(t)
    case (None, None, Some(v)) => v.types.Some? && exists i :: 0 <= i < |v.types.value| && v.types.value[i] == Some(t)
    case (None, None, None) => false
  }

  lemma MentionsAreEdges(abi: Abi, k: string, t: string)
    requires Mentions(abi, k).Some?
    ensures t in Mentions(abi, k).value <==> RefersTo(abi, k, t)
  {
    hide Named;
    if AliasOf(abi, k).None? && StructOf(abi, k).Some? {
      var s := StructOf(abi, k).value;
      InAll(Kinds(s.fields), t);
      assert forall i :: 0 <= i < |s.fields| ==> Kinds(s.fields)[i] == s.fields[i].kind;
      if t in All(Kinds(s.fields)).value {
        var i :| 0 <= i < |s.fields| && Kinds(s.fields)[i] == Some(t);
        assert s.fields[i].kind == Some(t);
      }
    } else if AliasOf(abi, k).None? && VariantOf(abi, k).Some? {
      InAll(VariantOf(abi, k).value.types.value, t);
    }
  }

  lemma InAll(xs: seq<Option<string>>, t: string)
    requires All(xs).Some?
    ensures t in All(xs).value <==> exists i :: 0 <= i < |xs| && xs[i] == Some(t)
  {
    var r := All(xs).value;
    hide All;
    if i :| 0 <= i < |xs| && xs[i] == Some(t) {
      assert r[i] == t;
    }
  }

  predicate IsProtobuf(k: string) {
    "protobuf::" <= k
  }

  // What a root type reaches.

  ghost predicate Edge(abi: Abi, a: string, b: string) {
    !IsProtobuf(a) && Mentions(abi, a).Some? && exists t :: t in Mentions(abi, a).value && BaseType(t) == b
  }

  ghost predicate Path(abi: Abi, root: string, p: seq<string>) {
    p != [] && p[0] == BaseType(root) && forall i :: 0 <= i < |p| - 1 ==> Edge(abi, p[i], p[i + 1])
  }

  ghost predicate Reaches(abi: Abi, root: string, k: string) {
    exists p :: Path(abi, root, p) && p[|p| - 1] == k
  }

  lemma ReachesRoot(abi: Abi, root: string)
    ensures Reaches(abi, root, BaseType(root))
  {
    hide BaseType;
    assert Path(abi, root, [BaseType(root)]);
  }

  lemma ReachesOn(abi: Abi, root: string, a: string, t: string)
    requires Reaches(abi, root, a) && !IsProtobuf(a) && Mentions(abi, a).Some? && t in Mentions(abi, a).value
    ensures Reaches(abi, root, BaseType(t))
  {
    hide BaseType; hide Mentions;
    var p :| Path(abi, root, p) && p[|p| - 1] == a;
    var q := p + [BaseType(t)];
    assert Edge(abi, a, BaseType(t));
    assert Path(abi, root, q);
  }

  // The result.

  function Filter<T>(xs: seq<T>, name: T -> Option<string>, keep: set<string>): seq<T> {
    if xs == [] then [] else
    Filter(xs[..|xs| - 1], name, keep)
    + if name(xs[|xs| - 1]).Some? && name(xs[|xs| - 1]).value in keep then [xs[|xs| - 1]] else []
  }

  /** The kept records of each section, in order. */
  function Restrict(abi: Abi, keep: set<string>, protobuf: bool): Abi {
    Abi(abi.version, Filter(abi.aliases, AliasName, keep), Filter(abi.structs, StructName, keep),
        Filter(abi.variants, VariantName, keep), Filter(abi.enums, EnumName, keep),
        if protobuf then abi.protobuf else None)
  }

  lemma {:induction false} NamedInFilter<T>(xs: seq<T>, name: T -> Option<string>, keep: set<string>, k: string)
    ensures Named(Filter(xs, name, keep), name, k) == if k in keep then Named(xs, name, k) else None
    decreases |xs|
  {
    if xs != [] {
      var init, x := xs[..|xs| - 1], xs[|xs| - 1];
      NamedInFilter(init, name, keep, k);
      var f := Filter(init, name, keep);
      if name(x).Some? && name(x).value in keep {
        assert (f + [x])[..|f|] == f;
      } else {
        assert f + [] == f;
      }
    }
  }

  /** A kept name resolves in the restricted ABI as in the full one; no other name does. */
  lemma RestrictResolves(abi: Abi, keep: set<string>, protobuf: bool, k: string)
    ensures var r := Restrict(abi, keep, protobuf);
            if k in keep
            then AliasOf(r, k) == AliasOf(abi, k) && StructOf(r, k) == StructOf(abi, k)
                 && VariantOf(r, k) == VariantOf(abi, k) && EnumOf(r, k) == EnumOf(abi, k)
            else AliasOf(r, k) == None && StructOf(r, k) == None && VariantOf(r, k) == None && EnumOf(r, k) == None
  {
    NamedInFilter(abi.aliases, AliasName, keep, k);
    NamedInFilter(abi.structs, StructName, keep, k);
    NamedInFilter(abi.variants, VariantName, keep, k);
    NamedInFilter(abi.enums, EnumName, keep, k);
  }
}
