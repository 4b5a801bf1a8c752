/** Rendered times read back: the text of a slot is its instant, character by character. */
module TimestampText {
  import opened Bytes
  import opened Timestamp

  predicate Digits(s: string) {
    forall i :: 0 <= i < |s| ==> '0' <= s[i] <= '9'
  }

  /** The number a run of decimal digits stands for. */
  function Number(s: string): nat
    requires Digits(s)
  {
    if s == "" then 0 else Number(s[..|s| - 1]) * 10 + (s[|s| - 1] as int - '0' as int)
  }

  predicate Reads(t: string, from: nat, to: nat, v: int) {
    from <= to <= |t| && Digits(t[from..to]) && Number(t[from..to]) == v
  }

  /** `YYYY-MM-DDThh:mm:ss.mmm` */
  predicate ReadsAs(t: string, d: Date, hour: nat, minute: nat, second: nat, milli: nat) {
    && |t| == 23 && t[4] == '-' && t[7] == '-' && t[10] == 'T' && t[13] == ':' && t[16] == ':' && t[19] == '.'
    && Reads(t, 0, 4, d.year) && Reads(t, 5, 7, d.month) && Reads(t, 8, 10, d.day)
    && Reads(t, 11, 13, hour) && Reads(t, 14, 16, minute) && Reads(t, 17, 19, second) && Reads(t, 20, 23, milli)
  }

  lemma {:induction false} PadIsNumber(v: nat, w: nat)
    requires v < Pow10(w)
    ensures Digits(Pad(v, w)) && Number(Pad(v, w)) == v
  {
    if w > 0 {
      PadIsNumber(v / 10, w - 1);
      assert Pad(v, w)[..w - 1] == Pad(v / 10, w - 1);
    }
  }

  /** Where field `k` starts. */
  function Offset(fs: seq<Field>, k: nat): nat
    requires k <= |fs|
  {
    if k == 0 then 0 else fs[0].w + |fs[0].sep| + Offset(fs[1..], k - 1)
  }

  lemma Shifted(head: string, rest: string, i: nat, j: nat)
    requires i <= j <= |rest|
    ensures (head + rest)[|head| + i..|head| + j] == rest[i..j]
  {
  }

  lemma HeadStands(p: string, s: string, rest: string)
    ensures (p + (s + rest))[..|p|] == p && (p + (s + rest))[|p|..|p| + |s|] == s && p + (s + rest) == (p + s) + rest
  {
  }

  /** Field `k` of the text `t`, at `o`. */
  predicate StandsAt(t: string, f: Field, o: nat)
    requires f.v < Pow10(f.w)
  {
    && o + f.w + |f.sep| <= |t| && t[o..o + f.w] == Pad(f.v, f.w)
    && t[o + f.w..o + f.w + |f.sep|] == f.sep
  }

  lemma ShiftField(head: string, rest: string, f: Field, o: nat)
    requires f.v < Pow10(f.w) && StandsAt(rest, f, o)
    ensures StandsAt(head + rest, f, |head| + o)
  {
    hide Pad; hide Pow10;
    Shifted(head, rest, o, o + f.w);
    Shifted(head, rest, o + f.w, o + f.w + |f.sep|);
  }

  lemma {:induction false} FieldStands(fs: seq<Field>, k: nat)
    requires Fits(fs) && k < |fs|
    ensures StandsAt(Render(fs), fs[k], Offset(fs, k)) && Offset(fs, k + 1) == Offset(fs, k) + fs[k].w + |fs[k].sep|
    ensures k == |fs| - 1 ==> |Render(fs)| == Offset(fs, k + 1)
  {
    var f, rest := fs[0], Render(fs[1..]);
    var p := Pad(f.v, f.w);
    assert Render(fs) == p + (f.sep + rest);
    HeadStands(p, f.sep, rest);
    if k == 0 {
      assert Offset(fs[1..], 0) == 0;
      if |fs| == 1 { assert fs[1..] == []; }
    } else {
      assert fs[1..][k - 1] == fs[k];
      FieldStands(fs[1..], k - 1);
      hide Pad; hide Render; hide StandsAt;
      assert |p + f.sep| == f.w + |f.sep|;
      ShiftField(p + f.sep, rest, fs[k], Offset(fs[1..], k - 1));
    }
  }

  lemma FieldReads(fs: seq<Field>, k: nat)
    requires Fits(fs) && k < |fs|
    ensures Reads(Render(fs), Offset(fs, k), Offset(fs, k) + fs[k].w, fs[k].v)
    ensures Offset(fs, k + 1) == Offset(fs, k) + fs[k].w + |fs[k].sep| <= |Render(fs)|
    ensures |fs[k].sep| == 1 ==> Render(fs)[Offset(fs, k) + fs[k].w] == fs[k].sep[0]
    ensures k == |fs| - 1 ==> |Render(fs)| == Offset(fs, k + 1)
  {
    hide Render; hide Pad; hide Offset;
    FieldStands(fs, k);
    PadIsNumber(fs[k].v, fs[k].w);
    var o, f, t := Offset(fs, k), fs[k], Render(fs);
    if |f.sep| == 1 { assert t[o + f.w] == t[o + f.w..o + f.w + |f.sep|][0]; }
  }

  /** The shape of a timestamp with a four-digit year. */
  lemma SevenFields(fs: seq<Field>)
    requires Fits(fs) && |fs| == 7 && fs[0].w == 4 && fs[6].w == 3 && fs[6].sep == ""
    requires fs[1].w == fs[2].w == fs[3].w == fs[4].w == fs[5].w == 2
    requires fs[0].sep == "-" && fs[1].sep == "-" && fs[2].sep == "T"
    requires fs[3].sep == ":" && fs[4].sep == ":" && fs[5].sep == "."
    ensures
      var t := Render(fs);
      && |t| == 23 && t[4] == '-' && t[7] == '-' && t[10] == 'T' && t[13] == ':' && t[16] == ':' && t[19] == '.'
      && Reads(t, 0, 4, fs[0].v) && Reads(t, 5, 7, fs[1].v) && Reads(t, 8, 10, fs[2].v)
      && Reads(t, 11, 13, fs[3].v) && Reads(t, 14, 16, fs[4].v) && Reads(t, 17, 19, fs[5].v)
      && Reads(t, 20, 23, fs[6].v)
  {
    hide Render; hide Fits; hide Reads;
    assert Offset(fs, 0) == 0;
    hide Offset;
    FieldReads(fs, 0);
    FieldReads(fs, 1);
    FieldReads(fs, 2);
    FieldReads(fs, 3);
    FieldReads(fs, 4);
    FieldReads(fs, 5);
    FieldReads(fs, 6);
  }

  lemma InstantIsWhole(ms: int)
    ensures Days(ms) * 86400000 + TimeOfDay(ms) * 1000 + ms % 1000 == ms
    ensures
      var tod := TimeOfDay(ms);
      tod == tod / 3600 * 3600 + tod / 60 % 60 * 60 + tod % 60 && tod / 3600 < 24
  {
  }

  /** Under every profile of four-digit years, the text of every slot reads as the date and time of its instant. */
  lemma TextIsTheInstant(p: Profile, slot: nat) returns (d: Date, hour: nat, minute: nat, second: nat, milli: nat)
    requires p.slotMs > 0 && FourDigitYears(p) && slot < U32
    ensures ReadsAs(SlotToIso(p, slot), d, hour, minute, second, milli)
    ensures d.Valid() && hour < 24 && minute < 60 && second < 60 && milli < 1000
    ensures DayNumber(d) * 86400000 + hour * 3600000 + minute * 60000 + second * 1000 + milli == UnixMs(p, slot)
  {
    hide DateOfDays; hide DayNumber; hide Render; hide Reads; hide Date.Valid;
    var ms := UnixMs(p, slot);
    YearsFollow(p, 0, slot);
    YearsFollow(p, slot, U32 - 1);
    DateIsRight(Days(ms));
    d := DateOfDays(Days(ms));
    var tod := TimeOfDay(ms);
    hour, minute, second, milli := tod / 3600, tod / 60 % 60, tod % 60, ms % 1000;
    InstantIsWhole(ms);
    FieldsFit(ms);
    FieldsOf(ms);
    SevenFields(Fields(ms));
    assert SlotToIso(p, slot) == Render(Fields(ms));
  }

  lemma FieldsOf(ms: int)
    requires 0 <= YearOf(ms) <= 9999
    ensures
      var fs, d, tod := Fields(ms), DateOfDays(Days(ms)), TimeOfDay(ms);
      && fs[0] == Field(d.year, 4, "-") && fs[1].w == 2 && fs[1].v == d.month && fs[2].w == 2 && fs[2].v == d.day
      && fs[1].sep == "-" && fs[2].sep == "T" && fs[3] == Field(tod / 3600, 2, ":")
      && fs[4] == Field(tod / 60 % 60, 2, ":") && fs[5] == Field(tod % 60, 2, ".") && fs[6] == Field(ms % 1000, 3, "")
  {
    hide DateOfDays;
    assert Pow10(4) == 10000;
  }
}
