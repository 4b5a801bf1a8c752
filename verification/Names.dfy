/** The 64-bit `name` encoding: twelve 5-bit symbols and a 4-bit one, trailing dots not written. */
module Names {
  import opened Bytes

  const CHARMAP: string := ".12345abcdefghijklmnopqrstuvwxyz"

  /** The symbol of a character, as the encoder's three ranges give it. */
  function Sym(c: char): (r: Option<nat>)
    ensures r.Some? ==> r.value < 32 && CHARMAP[r.value] == c
  {
    if c == '.' then Some(0)
    else if '1' <= c <= '5' then Some((c as int - '1' as int) + 1)
    else if 'a' <= c <= 'z' then Some((c as int - 'a' as int) + 6)
    else None
  }

  lemma SymOfChar(d: nat)
    requires d < 32
    ensures Sym(CHARMAP[d]) == Some(d)
  {
  }

  function Pow32(n: nat): (r: nat)
    ensures r > 0
  {
    if n == 0 then 1 else 32 * Pow32(n - 1)
  }

  lemma Pow32Facts()
    ensures Pow32(12) * 16 == U64
  {
    assert Pow32(4) == 0x10_0000;
    assert Pow32(8) == 0x100_0000_0000;
  }

  /** The number with base-32 digits `ds`, most significant first. */
  function Num32(ds: seq<nat>): nat {
    if ds == [] then 0 else Num32(ds[..|ds| - 1]) * 32 + ds[|ds| - 1]
  }

  function Digits32(n: nat, v: nat): (ds: seq<nat>)
    ensures |ds| == n && forall i :: 0 <= i < n ==> ds[i] < 32
  {
    if n == 0 then [] else Digits32(n - 1, v / 32) + [v % 32]
  }

  lemma {:induction false} DigitsOfNum(ds: seq<nat>)
    requires forall i :: 0 <= i < |ds| ==> ds[i] < 32
    ensures Digits32(|ds|, Num32(ds)) == ds && Num32(ds) < Pow32(|ds|)
  {
    if ds != [] {
      var init, d := ds[..|ds| - 1], ds[|ds| - 1];
      DigitsOfNum(init);
      LowDigit(Num32(init), d);
      assert ds == init + [d];
      LessThanNext(Num32(init), d, Pow32(|init|));
    }
  }

  lemma LowDigit(q: nat, d: nat)
    requires d < 32
    ensures (q * 32 + d) / 32 == q && (q * 32 + d) % 32 == d
  {
  }

  lemma LessThanNext(q: nat, d: nat, p: nat)
    requires q < p && d < 32
    ensures q * 32 + d < 32 * p
  {
  }

  lemma {:induction false} NumOfDigits(n: nat, v: nat)
    requires v < Pow32(n)
    ensures Num32(Digits32(n, v)) == v
  {
    if n != 0 {
      NumOfDigits(n - 1, v / 32);
      assert Digits32(n, v)[..n - 1] == Digits32(n - 1, v / 32);
    }
  }

  /** The thirteen symbols of a name value. */
  function Symbols(v: nat): (ds: seq<nat>)
    ensures |ds| == 13 && ds[12] < 16 && forall i :: 0 <= i < 13 ==> ds[i] < 32
  {
    Digits32(12, v / 16) + [v % 16]
  }

  function ValueOf(ds: seq<nat>): nat
    requires |ds| == 13
  {
    Num32(ds[..12]) * 16 + ds[12]
  }

  lemma SymbolsRoundTrip(v: nat, ds: seq<nat>)
    requires v < U64 && |ds| == 13 && ds[12] < 16 && forall i :: 0 <= i < 13 ==> ds[i] < 32
    ensures ValueOf(Symbols(v)) == v
    ensures Symbols(ValueOf(ds)) == ds && ValueOf(ds) < U64
  {
    hide Pow32; hide Num32; hide Digits32;
    Pow32Facts();
    NumOfDigits(12, v / 16);
    assert Symbols(v)[..12] == Digits32(12, v / 16);
    DigitsOfNum(ds[..12]);
    assert ds == ds[..12] + [ds[12]];
  }

  function Trim(s: string): string {
    if s != "" && s[|s| - 1] == '.' then Trim(s[..|s| - 1]) else s
  }

  function Text(ds: seq<nat>): (s: string)
    requires forall i :: 0 <= i < |ds| ==> ds[i] < 32
    ensures |s| == |ds| && forall i :: 0 <= i < |ds| ==> s[i] == CHARMAP[ds[i]]
  {
    seq(|ds|, i requires 0 <= i < |ds| => CHARMAP[ds[i]])
  }

  function NameToString(v: nat): string {
    Trim(Text(Symbols(v)))
  }

  predicate Encodable(s: string) {
    && 0 < |s| <= 13
    && (forall i :: 0 <= i < |s| ==> Sym(s[i]).Some?)
    && (|s| == 13 ==> Sym(s[12]).value < 16)
  }

  /** The symbols of a text, padded with zero symbols to thirteen. */
  function PaddedSymbols(s: string): (ds: seq<nat>)
    requires |s| <= 13 && forall i :: 0 <= i < |s| ==> Sym(s[i]).Some?
    ensures |ds| == 13
    ensures forall i :: 0 <= i < 13 ==> ds[i] < 32 && CHARMAP[ds[i]] == (if i < |s| then s[i] else '.')
  {
    seq<nat>(13, i requires 0 <= i < 13 => if i < |s| then Sym(s[i]).value else 0)
  }

  function StringToName(s: string): Option<nat> {
    if Encodable(s) then Some(ValueOf(PaddedSymbols(s))) else None
  }

  /** A name everyone knows, digit by digit. */
  lemma KnownName()
    ensures StringToName("eosio") == Some(6138663577826885632)
  {
    hide Num32;
    assert Sym('e') == Some(10) && Sym('o') == Some(20) && Sym('s') == Some(24) && Sym('i') == Some(14);
    var ds := PaddedSymbols("eosio");
    assert ds == [10, 20, 24, 14, 20, 0, 0, 0, 0, 0, 0, 0, 0];
    assert ds[..12] == [10, 20, 24, 14, 20, 0, 0, 0, 0, 0, 0, 0];
    KnownDigits();
  }

  lemma KnownDigits()
    ensures Num32([10, 20, 24, 14, 20, 0, 0, 0, 0, 0, 0, 0]) == 383666473614180352
  {
    hide Num32;
    var ds := [10, 20, 24, 14, 20, 0, 0, 0, 0, 0, 0, 0];
    Last32(ds, 0);
    Last32(ds, 1);
    Last32(ds, 2);
    Last32(ds, 3);
    Last32(ds, 4);
    Last32(ds, 5);
    Last32(ds, 6);
    Last32(ds, 7);
    Last32(ds, 8);
    Last32(ds, 9);
    Last32(ds, 10);
    Last32(ds, 11);
    assert ds[..12] == ds;
  }

  lemma Last32(ds: seq<nat>, i: nat)
    requires i < |ds|
    ensures Num32(ds[..i + 1]) == Num32(ds[..i]) * 32 + ds[i] && Num32(ds[..0]) == 0
  {
    assert ds[..i + 1][..i] == ds[..i];
  }

  predicate Canonical(s: string) {
    s == "" || s[|s| - 1] != '.'
  }

  lemma {:induction false} TrimIsCanonical(s: string)
    ensures Canonical(Trim(s)) && Trim(s) <= s
    ensures forall i :: |Trim(s)| <= i < |s| ==> s[i] == '.'
  {
    if s != "" && s[|s| - 1] == '.' {
      TrimIsCanonical(s[..|s| - 1]);
    }
  }

  /** A text that agrees with `s` up to trailing dots and is canonical is `Trim(s)`. */
  lemma TrimIsUnique(s: string, t: string)
    requires t <= s && Canonical(t) && forall i :: |t| <= i < |s| ==> s[i] == '.'
    ensures Trim(s) == t
  {
    TrimIsCanonical(s);
    assert |Trim(s)| == |t|;
  }

  lemma PaddingOfText(s: string, ds: seq<nat>)
    requires |ds| == 13 && forall i :: 0 <= i < 13 ==> ds[i] < 32
    requires |s| <= 13 && s <= Text(ds)
    requires forall i :: |s| <= i < 13 ==> ds[i] == 0
    ensures forall i :: 0 <= i < |s| ==> Sym(s[i]).Some?
    ensures PaddedSymbols(s) == ds
  {
    forall i | 0 <= i < |s|
      ensures Sym(s[i]) == Some(ds[i])
    {
      SymOfChar(ds[i]);
    }
  }

  /** Rendering a value and encoding the text gives the value back, unless it is 0: its text is
      empty, which the encoder refuses. */
  lemma EncodeOfRendered(v: nat)
    requires v < U64
    ensures StringToName(NameToString(v)) == if v == 0 then None else Some(v)
  {
    hide Num32; hide Digits32;
    var ds := Symbols(v);
    var s := NameToString(v);
    TrimIsCanonical(Text(ds));
    SymbolsRoundTrip(v, ds);
    forall i | |s| <= i < 13
      ensures ds[i] == 0
    {
      SymOfChar(ds[i]);
    }
    PaddingOfText(s, ds);
    ZeroSymbols();
    SymbolsRoundTrip(0, ds);
    if s == "" {
      assert ds == Symbols(0);
    } else {
      assert Text(ds)[|s| - 1] != '.';
    }
  }

  lemma ZeroSymbols()
    ensures forall i :: 0 <= i < 13 ==> Symbols(0)[i] == 0
  {
    ZeroDigits(12);
  }

  lemma {:induction false} ZeroDigits(n: nat)
    ensures forall i :: 0 <= i < n ==> Digits32(n, 0)[i] == 0
  {
    if n != 0 { ZeroDigits(n - 1); }
  }

  /** Encoding a text and rendering the value gives the text back exactly when it has no trailing
      dot; in general the trailing dots are lost. */
  lemma RenderOfEncoded(s: string)
    requires Encodable(s)
    ensures NameToString(StringToName(s).value) == Trim(s)
    ensures NameToString(StringToName(s).value) == s <==> Canonical(s)
  {
    hide Num32; hide Digits32;
    var ds := PaddedSymbols(s);
    assert ds[12] < 16;
    SymbolsRoundTrip(0, ds);
    TrimIsCanonical(s);
    var t := Text(ds);
    assert s <= t;
    TrimIsUnique(t, Trim(s));
    if Canonical(s) { TrimIsUnique(s, s); }
  }

  /** On canonical names the encoding is injective. */
  lemma EncodingIsInjective(s: string, t: string)
    requires Encodable(s) && Encodable(t) && Canonical(s) && Canonical(t)
    requires StringToName(s) == StringToName(t)
    ensures s == t
  {
    RenderOfEncoded(s);
    RenderOfEncoded(t);
  }

  // The loops.

  function Shift(v: nat, k: nat): nat {
    if k == 0 then v else Shift(v / 32, k - 1)
  }

  lemma {:induction false} ShiftOnce(v: nat, k: nat)
    ensures Shift(v, k) / 32 == Shift(v, k + 1)
  {
    if k > 0 { ShiftOnce(v / 32, k - 1); }
  }

  lemma {:induction false} DigitAt(n: nat, v: nat, k: nat)
    requires k < n
    ensures Digits32(n, v)[n - 1 - k] == Shift(v, k) % 32
  {
    if k > 0 { DigitAt(n - 1, v / 32, k - 1); }
  }

  /** What is left after `i` symbols, and the next one. */
  function Left(value: nat, i: nat): nat {
    if i == 0 then value else Shift(value / 16, i - 1)
  }

  function Base(i: nat): (b: nat)
    ensures b > 0
  {
    if i == 0 then 16 else 32
  }

  lemma Peel(value: nat, i: nat)
    requires i < 13
    ensures Left(value, i) % Base(i) == Symbols(value)[12 - i] && Left(value, i) / Base(i) == Left(value, i + 1)
  {
    hide Digits32; hide Shift;
    if i > 0 {
      DigitAt(12, value / 16, i - 1);
      ShiftOnce(value / 16, i - 1);
    } else {
      ShiftNone(value / 16);
    }
  }

  lemma ShiftNone(v: nat)
    ensures Shift(v, 0) == v
  {
  }

  /** Symbols are peeled off the low end into a thirteen-character buffer. */
  method FillSymbols(value: nat) returns (s: array<char>)
    ensures fresh(s) && s.Length == 13 && s[..] == Text(Symbols(value))
  {
    hide Symbols; hide Left; hide Base;
    s := new char[13](_ => '.');
    var tmp := value;
    assert Left(value, 0) == value by { LeftNone(value); }
    for i := 0 to 13
      invariant tmp == Left(value, i)
      invariant forall k :: 13 - i <= k < 13 ==> s[k] == CHARMAP[Symbols(value)[k]]
    {
      Peel(value, i);
      s[12 - i] := CHARMAP[tmp % Base(i)];
      tmp := tmp / Base(i);
    }
  }

  lemma LeftNone(value: nat)
    ensures Left(value, 0) == value
  {
  }

  /** `name_to_string`: the symbols of the value, trailing dots dropped. */
  method RenderName(value: nat) returns (r: string)
    requires value < U64
    ensures r == NameToString(value)
  {
    hide Symbols; hide Trim;
    var s := FillSymbols(value);
    var end := 13;
    while end > 0 && s[end - 1] == '.'
      invariant 0 <= end <= 13
      invariant forall i :: end <= i < 13 ==> s[i] == '.'
    {
      end := end - 1;
    }
    r := s[..end];
    TrimIsUnique(s[..], r);
  }

  /** `sym << (64 - 5 * (i + 1))`. */
  function PlaceOf(i: nat): nat
    requires i < 12
  {
    Pow32(11 - i) * 16
  }

  lemma NextPlace(ds: seq<nat>, d: nat)
    requires |ds| < 12
    ensures Num32(ds + [d]) * Pow32(11 - |ds|) * 16 == Num32(ds) * Pow32(12 - |ds|) * 16 + d * PlaceOf(|ds|)
  {
    hide Num32; hide Pow32;
    NumSnoc(ds, d);
    PowStep(11 - |ds|);
    Distribute(Num32(ds), d, Pow32(11 - |ds|));
  }

  lemma NumSnoc(ds: seq<nat>, d: nat)
    ensures Num32(ds + [d]) == Num32(ds) * 32 + d
  {
    assert (ds + [d])[..|ds|] == ds;
  }

  lemma PowStep(n: nat)
    ensures Pow32(n + 1) == 32 * Pow32(n)
  {
  }

  lemma Distribute(n: nat, d: nat, p: nat)
    ensures (n * 32 + d) * p * 16 == n * (32 * p) * 16 + d * (p * 16)
  {
    assert (n * 32 + d) * p == n * 32 * p + d * p;
  }

  lemma {:induction false} TrailingZeros(ds: seq<nat>, i: nat)
    requires i <= |ds| <= 12 && forall k :: i <= k < |ds| ==> ds[k] == 0
    ensures Num32(ds) == Num32(ds[..i]) * Pow32(|ds| - i)
  {
    if i == |ds| {
      assert ds[..i] == ds && Pow32(0) == 1;
    } else {
      hide Num32; hide Pow32;
      var before := ds[..|ds| - 1];
      TrailingZeros(before, i);
      assert before[..i] == ds[..i] && ds == before + [0];
      NumSnoc(before, 0);
      PowStep(|ds| - i - 1);
      Regroup(Num32(ds[..i]), Pow32(|ds| - i - 1));
    }
  }

  lemma Regroup(n: nat, p: nat)
    ensures n * p * 32 == n * (32 * p)
  {
  }

  /** `string_to_name`: each symbol is placed in its own bits, so the `or` is a sum. */
  method EncodeName(s: string) returns (r: Option<nat>)
    ensures r == StringToName(s)
  {
    hide Sym; hide PlaceOf; hide Digits32; hide Num32; hide Pow32;
    if s == "" || |s| > 13 { return None; }
    var value := 0;
    ghost var ds: seq<nat> := [];
    ZeroPlaces();
    for i := 0 to |s|
      invariant |ds| == i && forall k :: 0 <= k < i ==> Sym(s[k]) == Some(ds[k])
      invariant i <= 12 ==> value == Num32(ds) * Pow32(12 - i) * 16
      invariant i == 13 ==> ds[12] < 16 && value == Num32(ds[..12]) * 16 + ds[12]
    {
      var sym := Sym(s[i]);
      if sym.None? { return None; }
      if i < 12 {
        value := value + sym.value * PlaceOf(i);
        NextPlace(ds, sym.value);
      } else {
        if sym.value > 15 { return None; }
        value := value + sym.value;
        PowZero();
        assert (ds + [sym.value])[..12] == ds;
      }
      ds := ds + [sym.value];
    }
    PadsTo(s, ds, value);
    return Some(value);
  }

  lemma ZeroPlaces()
    ensures 0 == Num32([]) * Pow32(12) * 16
  {
  }

  lemma PowZero()
    ensures Pow32(0) == 1
  {
  }

  lemma PadsTo(s: string, ds: seq<nat>, value: nat)
    requires |s| == |ds| <= 13 && forall k :: 0 <= k < |s| ==> Sym(s[k]) == Some(ds[k])
    requires |ds| <= 12 ==> value == Num32(ds) * Pow32(12 - |ds|) * 16
    requires |ds| == 13 ==> value == Num32(ds[..12]) * 16 + ds[12]
    ensures value == ValueOf(PaddedSymbols(s))
  {
    hide Num32; hide Pow32;
    var ps := PaddedSymbols(s);
    PaddedIs(s, ds);
    hide PaddedSymbols;
    if |s| == 13 {
      assert ps == ds;
    } else {
      TrailingZeros(ps[..12], |s|);
      assert ps[..12][..|s|] == ds;
    }
  }

  lemma PaddedIs(s: string, ds: seq<nat>)
    requires |s| == |ds| <= 13 && forall k :: 0 <= k < |s| ==> Sym(s[k]) == Some(ds[k])
    ensures PaddedSymbols(s)[..|s|] == ds && forall k :: |s| <= k < 13 ==> PaddedSymbols(s)[k] == 0
  {
    hide Sym;
  }
}
