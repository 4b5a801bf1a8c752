/** Type names, and the element type under their suffixes. */
module TypeNames {
  import opened Bytes

  function LastIndexOf(s: string, c: char): (i: Option<nat>)
    ensures i.Some? ==> i.value < |s| && s[i.value] == c && c !in s[i.value + 1..]
    ensures i.None? ==> c !in s
  {
    if s == [] then None else
    if s[|s| - 1] == c then Some(|s| - 1) else
    var i :- LastIndexOf(s[..|s| - 1], c);
    assert s[i + 1..] == s[..|s| - 1][i + 1..] + [s[|s| - 1]];
    Some(i)
  }

  predicate EndsWith(s: string, c: char) {
    s != [] && s[|s| - 1] == c
  }

  predicate EndsEmptyBrackets(s: string) {
    EndsWith(s, ']') && EndsWith(s[..|s| - 1], '[')
  }

  /** One suffix less, when there is one. */
  function Strip(kind: string): (r: Option<string>)
    ensures r.Some? ==> |r.value| < |kind|
  {
    if EndsWith(kind, '$') || EndsWith(kind, '?') then Some(kind[..|kind| - 1])
    else if EndsEmptyBrackets(kind) then Some(kind[..|kind| - 2])
    else if EndsWith(kind, ']') then
      var i :- LastIndexOf(kind, '[');
      Some(kind[..i])
    else None
  }

  /** The element type under all suffixes. */
  function BaseType(kind: string): string
    decreases |kind|
  {
    match Strip(kind)
    case None => kind
    case Some(k) => BaseType(k)
  }

  method FindBaseType(name: string) returns (kind: string)
    ensures kind == BaseType(name)
  {
    kind := name;
    while true
      invariant BaseType(kind) == BaseType(name)
      decreases |kind|
    {
      if EndsWith(kind, '$') || EndsWith(kind, '?') {
        kind := kind[..|kind| - 1];
      } else if EndsEmptyBrackets(kind) {
        kind := kind[..|kind| - 2];
      } else if EndsWith(kind, ']') {
        var i := LastIndexOf(kind, '[');
        if i.None? { return; }
        kind := kind[..i.value];
      } else {
        return;
      }
    }
  }

  /** `$`, `?`, `[]` or `[N]`. */
  predicate IsSuffix(s: string) {
    s == "$" || s == "?" || (|s| >= 2 && s[0] == '[' && s[|s| - 1] == ']' && '[' !in s[1..])
  }

  function Joined(suffixes: seq<string>): string {
    if suffixes == [] then "" else suffixes[0] + Joined(suffixes[1..])
  }

  lemma LastIndexIsUnique(s: string, c: char, i: nat)
    requires i < |s| && s[i] == c && c !in s[i + 1..]
    ensures LastIndexOf(s, c) == Some(i)
  {
    var r := LastIndexOf(s, c);
    assert s[i] in s;
    var j := r.value;
    LaterIsIn(s, j, i);
    LaterIsIn(s, i, j);
  }

  lemma StripSuffix(kind: string, suffix: string)
    requires IsSuffix(suffix)
    ensures Strip(kind + suffix) == Some(kind)
  {
    var s := kind + suffix;
    assert s[|s| - 1] == suffix[|suffix| - 1];
    if suffix == "$" || suffix == "?" {
      assert s[..|s| - 1] == kind;
    } else {
      assert s[|kind| + 1..] == suffix[1..];
      LastIndexIsUnique(s, '[', |kind|);
      assert s[..|kind|] == kind;
      assert |suffix| > 2 ==> s[|s| - 2] == suffix[1..][|suffix| - 3];
    }
  }

  /** However many suffixes a name carries, the type under them is found. */
  lemma {:induction false} BaseTypeUnderSuffixes(base: string, suffixes: seq<string>)
    requires Strip(base).None? && forall i :: 0 <= i < |suffixes| ==> IsSuffix(suffixes[i])
    ensures BaseType(base + Joined(suffixes)) == base
    decreases |suffixes|
  {
    if suffixes == [] {
      assert base + Joined(suffixes) == base;
    } else {
      var init, last := suffixes[..|suffixes| - 1], suffixes[|suffixes| - 1];
      BaseTypeUnderSuffixes(base, init);
      JoinedSnoc(init, last);
      assert suffixes == init + [last];
      assert base + Joined(suffixes) == (base + Joined(init)) + last;
      StripSuffix(base + Joined(init), last);
    }
  }

  lemma {:induction false} JoinedSnoc(suffixes: seq<string>, last: string)
    ensures Joined(suffixes + [last]) == Joined(suffixes) + last
    decreases |suffixes|
  {
    if suffixes == [] {
      assert Joined([last]) == last + Joined([]);
    } else {
      JoinedSnoc(suffixes[1..], last);
      assert (suffixes + [last])[1..] == suffixes[1..] + [last];
    }
  }
}
