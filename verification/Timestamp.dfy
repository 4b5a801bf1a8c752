/** Block slots rendered as ISO timestamps, against the Gregorian calendar counted day by day. */
module Timestamp {
  import opened Bytes

  // The calendar (leap rule as in Appendix C of RFC 3339).

  predicate Leap(y: int) {
    y % 4 == 0 && (y % 100 != 0 || y % 400 == 0)
  }

  function YearLength(y: int): int {
    if Leap(y) then 366 else 365
  }

  function MonthLength(y: int, m: int): int
    requires 1 <= m <= 12
  {
    if m == 2 then (if Leap(y) then 29 else 28)
    else if m == 4 || m == 6 || m == 9 || m == 11 then 30
    else 31
  }

  datatype Date = Date(year: int, month: int, day: int) {
    predicate Valid() {
      1 <= month <= 12 && 1 <= day <= MonthLength(year, month)
    }
  }

  /** Days from 1 January 1970 to 1 January of `y`, year by year. */
  function YearStart(y: int): int
    decreases if y >= 1970 then y - 1970 else 1970 - y
  {
    if y == 1970 then 0
    else if y > 1970 then YearStart(y - 1) + YearLength(y - 1)
    else YearStart(y + 1) - YearLength(y)
  }

  /** Days of `y` before month `m`, month by month. */
  function MonthStart(y: int, m: int): int
    requires 1 <= m <= 12
    decreases m
  {
    if m == 1 then 0 else MonthStart(y, m - 1) + MonthLength(y, m - 1)
  }

  /** The number of days from 1 January 1970 to `d`. */
  function DayNumber(d: Date): int
    requires d.Valid()
  {
    YearStart(d.year) + MonthStart(d.year, d.month) + d.day - 1
  }

  // The algorithm: years run from March, in eras of 400 years.

  function TruncDiv(a: int, b: int): int
    requires b > 0
  {
    if a >= 0 then a / b else -(-a / b)
  }

  function EraOf(z: int): int {
    TruncDiv(if z >= 0 then z else z - 146096, 146097)
  }

  function YearOfEra(doe: int): int {
    (doe - doe / 1460 + doe / 36524 - doe / 146096) / 365
  }

  /** Days of the first `k` March years of an era. */
  function MarchYears(k: int): int {
    365 * k + k / 4 - k / 100
  }

  function DateOfDays(days: int): Date {
    var z := days + 719468;
    var era := EraOf(z);
    var doe := z - era * 146097;
    var yoe := YearOfEra(doe);
    var doy := doe - (365 * yoe + yoe / 4 - yoe / 100);
    var mp := (5 * doy + 2) / 153;
    var day := doy - (153 * mp + 2) / 5 + 1;
    var month := mp + (if mp < 10 then 3 else -9);
    var year := yoe + era * 400 + (if month <= 2 then 1 else 0);
    Date(year, month, day)
  }

  lemma EraIsFloor(z: int)
    ensures 0 <= z - EraOf(z) * 146097 < 146097
  {
  }

  /** Day `r` of March year `k` of an era exists: `r` is 365 only when the year ends on 29 February. */
  predicate InMarchYear(k: int, r: int) {
    0 <= k < 400 && 0 <= r <= 365 && (r == 365 ==> Leap(k + 1))
  }

  /** Every day of an era lies in some March year. */
  lemma {:induction false} MarchYearOf(doe: int, k: int) returns (y: int)
    requires 0 <= k < 400 && 0 <= doe < 146097 && (k == 399 || doe < MarchYears(k + 1))
    ensures InMarchYear(y, doe - MarchYears(y))
    decreases k
  {
    if doe >= MarchYears(k) {
      y := k;
      NextMarchYear(k);
    } else {
      y := MarchYearOf(doe, k - 1);
    }
  }

  lemma NextMarchYear(k: int)
    requires 0 <= k < 400
    ensures MarchYears(k + 1) - MarchYears(k) == (if Leap(k + 1) && k != 399 then 366 else 365)
  {
    CeilSteps(k - 3);
    CeilSteps(k - 99);
    Shift4(k - 3, 1);
    Shift100(k - 99, 1);
    Multiples(k + 1);
  }

  /** Centuries, fours and years of a March year. */
  lemma MarchYearParts(k: int, c: int, q: int, s: int)
    requires k == 100 * c + 4 * q + s && 0 <= c <= 3 && 0 <= q <= 24 && 0 <= s <= 3
    ensures MarchYears(k) == 36524 * c + 1460 * q + 365 * s + q
  {
    assert k / 4 == 25 * c + q && k / 100 == c;
  }

  lemma FoursOfEra(c: int, q: int, s: int, r: int)
    requires 0 <= c <= 3 && 0 <= q <= 24 && 0 <= s <= 3 && 0 <= r <= 365 && (r == 365 ==> s == 3)
    ensures
      var doe := 36524 * c + 1460 * q + 365 * s + q + r;
      doe / 1460 == 25 * c + q || (doe / 1460 == 25 * c + q + 1 && 365 * s + q + r >= 1460 - 24 * c)
  {
    var doe := 36524 * c + 1460 * q + 365 * s + q + r;
    assert doe == 1460 * (25 * c + q) + (24 * c + 365 * s + q + r);
  }

  lemma LeapParts(k: int, c: int, q: int, s: int)
    requires k == 100 * c + 4 * q + s && 0 <= c <= 3 && 0 <= q <= 24 && 0 <= s <= 3 && Leap(k + 1)
    ensures s == 3 && (q == 24 ==> c == 3)
  {
  }

  lemma DivBy365(k: int, x: int)
    requires 0 <= x < 365
    ensures (365 * k + x) / 365 == k
  {
  }

  /** The closed formula finds that March year. */
  lemma YearOfEraIsRight(k: int, r: int)
    requires InMarchYear(k, r)
    ensures YearOfEra(MarchYears(k) + r) == k
  {
    hide Leap;
    var c := k / 100;
    var j := k - 100 * c;
    var q := j / 4;
    var s := j - 4 * q;
    if r == 365 { LeapParts(k, c, q, s); }
    MarchYearParts(k, c, q, s);
    hide MarchYears;
    FoursOfEra(c, q, s, r);
    LastDayOfEra(c, q, s, r);
    var doe := MarchYears(k) + r;
    DivBy365(k, r - (doe / 1460 - 25 * c - q));
  }

  lemma LastDayOfEra(c: int, q: int, s: int, r: int)
    requires 0 <= c <= 3 && 0 <= q <= 24 && 0 <= s <= 3 && 0 <= r <= 365
    requires r == 365 ==> s == 3 && (q == 24 ==> c == 3)
    ensures
      var doe := 36524 * c + 1460 * q + 365 * s + q + r;
      doe / 36524 - doe / 146096 == c
  {
  }

  /** Days before January of `y` and before March of `y`, in closed form. */
  function YearStartClosed(y: int): int {
    365 * y + (y + 3) / 4 - (y + 99) / 100 + (y + 399) / 400 - 719528
  }

  lemma ClosedStep(y: int)
    ensures YearStartClosed(y + 1) == YearStartClosed(y) + YearLength(y)
  {
    CeilSteps(y);
    Multiples(y);
  }

  /** A rounded-up quotient grows exactly at the multiples. */
  lemma CeilSteps(y: int)
    ensures (y + 1 + 3) / 4 == (y + 3) / 4 + if y % 4 == 0 then 1 else 0
    ensures (y + 1 + 99) / 100 == (y + 99) / 100 + if y % 100 == 0 then 1 else 0
    ensures (y + 1 + 399) / 400 == (y + 399) / 400 + if y % 400 == 0 then 1 else 0
  {
    Shift4(y % 4 + 3, y / 4);
    Shift4(y % 4 + 4, y / 4);
    Shift100(y % 100 + 99, y / 100);
    Shift100(y % 100 + 100, y / 100);
    Shift400(y % 400 + 399, y / 400);
    Shift400(y % 400 + 400, y / 400);
  }

  lemma Multiples(y: int)
    ensures y % 400 == 0 ==> y % 100 == 0
    ensures y % 100 == 0 ==> y % 4 == 0
  {
    Shift100(y % 400, 4 * (y / 400));
    Shift4(y % 100, 25 * (y / 100));
  }

  lemma {:induction false} YearStartIsClosed(y: int)
    ensures YearStart(y) == YearStartClosed(y)
    decreases if y >= 1970 then y - 1970 else 1970 - y
  {
    if y > 1970 {
      YearStartIsClosed(y - 1);
      ClosedStep(y - 1);
    } else if y < 1970 {
      YearStartIsClosed(y + 1);
      ClosedStep(y);
    }
  }

  /** Month `mp` of a March year: where it starts, and the calendar month it is. */
  lemma MarchMonth(y: int, r: int)
    requires 0 <= r <= 365 && (r == 365 ==> Leap(y + 1))
    ensures
      var mp := (5 * r + 2) / 153;
      var day := r - (153 * mp + 2) / 5 + 1;
      var d := if mp < 10 then Date(y, mp + 3, day) else Date(y + 1, mp - 9, day);
      0 <= mp <= 11 && d.Valid()
      && MonthStart(d.year, d.month) + day - 1 ==
         if mp < 10 then 59 + (if Leap(y) then 1 else 0) + r else r - 306
  {
    var mp := (5 * r + 2) / 153;
    MonthStarts(y);
    MonthStarts(y + 1);
  }

  lemma MonthStarts(y: int)
    ensures MonthStart(y, 1) == 0 && MonthStart(y, 2) == 31
    ensures
      var b := 59 + if Leap(y) then 1 else 0;
      MonthStart(y, 3) == b && MonthStart(y, 4) == b + 31 && MonthStart(y, 5) == b + 61
      && MonthStart(y, 6) == b + 92 && MonthStart(y, 7) == b + 122 && MonthStart(y, 8) == b + 153
      && MonthStart(y, 9) == b + 184 && MonthStart(y, 10) == b + 214 && MonthStart(y, 11) == b + 245
      && MonthStart(y, 12) == b + 275
  {
    assert MonthStart(y, 3) == MonthStart(y, 2) + MonthLength(y, 2);
    assert MonthStart(y, 5) == MonthStart(y, 4) + MonthLength(y, 4);
    assert MonthStart(y, 7) == MonthStart(y, 6) + MonthLength(y, 6);
    assert MonthStart(y, 9) == MonthStart(y, 8) + MonthLength(y, 8);
    assert MonthStart(y, 11) == MonthStart(y, 10) + MonthLength(y, 10);
  }

  /** The March years of an era follow the calendar's leap rule wherever the era lies. */
  lemma LeapInEra(era: int, k: int)
    ensures Leap(k + era * 400) == Leap(k)
  {
    EraShift(k, era);
  }

  /** Moving by whole eras moves every quotient by a fixed step. */
  lemma EraShift(x: int, era: int)
    ensures (x + era * 400) / 4 == x / 4 + 100 * era && (x + era * 400) % 4 == x % 4
    ensures (x + era * 400) / 100 == x / 100 + 4 * era && (x + era * 400) % 100 == x % 100
    ensures (x + era * 400) / 400 == x / 400 + era && (x + era * 400) % 400 == x % 400
  {
    Shift4(x, 100 * era);
    Shift100(x, 4 * era);
    Shift400(x, era);
  }

  lemma Shift4(x: int, e: int)
    ensures (x + e * 4) / 4 == x / 4 + e && (x + e * 4) % 4 == x % 4
  {
    assert x + e * 4 == 4 * (x / 4 + e) + x % 4;
  }

  lemma Shift100(x: int, e: int)
    ensures (x + e * 100) / 100 == x / 100 + e && (x + e * 100) % 100 == x % 100
  {
    assert x + e * 100 == 100 * (x / 100 + e) + x % 100;
  }

  lemma Shift400(x: int, e: int)
    ensures (x + e * 400) / 400 == x / 400 + e && (x + e * 400) % 400 == x % 400
  {
    assert x + e * 400 == 400 * (x / 400 + e) + x % 400;
  }

  /** Where a day of a March year lies in the calendar's count. */
  lemma MarchYearStart(era: int, k: int)
    requires 0 <= k < 400
    ensures
      var y := k + era * 400;
      var z := era * 146097 + MarchYears(k);
      YearStartClosed(y) + 59 + (if Leap(y) then 1 else 0) == z - 719468
      && YearStartClosed(y + 1) - 306 == z - 719468
  {
    EraShift(k + 3, era);
    EraShift(k + 99, era);
    EraShift(k + 399, era);
    LeapInEra(era, k);
    FirstEra(k);
    ClosedStep(k + era * 400);
  }

  lemma FirstEra(k: int)
    requires 0 <= k < 400
    ensures (k + 3) / 4 - (k + 99) / 100 + (k + 399) / 400 + (if Leap(k) then 1 else 0) == k / 4 - k / 100 + 1
  {
    CeilSteps(k);
    Shift4(k, 1);
    Shift100(k, 1);
    Shift400(k, 1);
    Multiples(k);
  }

  /**
   For every day count, before or after the epoch, the algorithm gives a valid Gregorian date that
   many days from 1 January 1970.
   */
  lemma DateIsRight(days: int)
    ensures DateOfDays(days).Valid() && DayNumber(DateOfDays(days)) == days
  {
    hide Leap; hide YearOfEra; hide EraOf; hide MonthLength; hide MonthStart; hide YearStartClosed;
    hide MarchYears; hide YearStart;
    var z := days + 719468;
    var era := EraOf(z);
    EraIsFloor(z);
    var doe := z - era * 146097;
    var k := MarchYearOf(doe, 399);
    var r := doe - MarchYears(k);
    YearOfEraIsRight(k, r);
    assert doe - (365 * k + k / 4 - k / 100) == r by { MarchYearsIs(k); }
    var y := k + era * 400;
    LeapInEra(era, k + 1);
    MarchMonth(y, r);
    MarchYearStart(era, k);
    YearStartIsClosed(y);
    YearStartIsClosed(y + 1);
  }

  lemma MarchYearsIs(k: int)
    ensures MarchYears(k) == 365 * k + k / 4 - k / 100
  {
  }

  // Order of dates.

  predicate DateLess(a: Date, b: Date) {
    a.year < b.year || (a.year == b.year && (a.month < b.month || (a.month == b.month && a.day < b.day)))
  }

  lemma {:induction false} YearsGrow(x: int, y: int)
    requires x <= y
    ensures YearStart(x) <= YearStart(y)
    decreases y - x
  {
    if x < y {
      YearStartIsClosed(x);
      YearStartIsClosed(x + 1);
      ClosedStep(x);
      YearsGrow(x + 1, y);
    }
  }

  lemma InsideItsYear(d: Date)
    requires d.Valid()
    ensures 0 <= MonthStart(d.year, d.month) + d.day - 1 < YearLength(d.year)
  {
    MonthStarts(d.year);
  }

  lemma MonthsGrow(a: Date, b: Date)
    requires a.Valid() && b.Valid() && a.year == b.year && a.month < b.month
    ensures MonthStart(a.year, a.month) + a.day - 1 < MonthStart(b.year, b.month)
  {
    MonthStarts(a.year);
  }

  /** Dates are ordered as their day numbers are. */
  lemma LaterDay(a: Date, b: Date)
    requires a.Valid() && b.Valid() && DayNumber(a) < DayNumber(b)
    ensures DateLess(a, b)
  {
    hide MonthStart; hide YearStart; hide MonthLength;
    if b.year < a.year {
      YearsGrow(b.year + 1, a.year);
      YearStartIsClosed(b.year);
      YearStartIsClosed(b.year + 1);
      ClosedStep(b.year);
      InsideItsYear(a);
      InsideItsYear(b);
    } else if b.year == a.year && b.month < a.month {
      MonthsGrow(b, a);
    }
  }

  // Rendering.

  /** Milliseconds of the epoch and of one slot. */
  datatype Profile = Profile(epoch: int, slotMs: int)

  const ANTELOPE: Profile := Profile(946_684_800_000, 500)

  function UnixMs(p: Profile, slot: nat): int {
    p.epoch + slot * p.slotMs
  }

  function Days(ms: int): int {
    ms / 1000 / 86400
  }

  function TimeOfDay(ms: int): nat {
    ms / 1000 % 86400
  }

  function Pow10(n: nat): (r: nat)
    ensures r > 0
  {
    if n == 0 then 1 else 10 * Pow10(n - 1)
  }

  /** `v` in exactly `w` decimal digits. */
  function Pad(v: nat, w: nat): (s: string)
    requires v < Pow10(w)
    ensures |s| == w
  {
    if w == 0 then "" else Pad(v / 10, w - 1) + [Digit(v % 10)]
  }

  /** A zero-padded number and the text after it. */
  datatype Field = Field(v: nat, w: nat, sep: string)

  predicate Fits(fs: seq<Field>) {
    forall i :: 0 <= i < |fs| ==> fs[i].v < Pow10(fs[i].w)
  }

  function Render(fs: seq<Field>): string
    requires Fits(fs)
  {
    if fs == [] then "" else Pad(fs[0].v, fs[0].w) + (fs[0].sep + Render(fs[1..]))
  }

  /** The least width, from `w` on, that holds `v`. */
  function WidthFrom(v: nat, w: nat): (r: nat)
    ensures r >= w && v < Pow10(r)
    decreases Max(v + 1 - Pow10(w), 0)
  {
    if v < Pow10(w) then w else WidthFrom(v, w + 1)
  }

  function YearOf(ms: int): int {
    DateOfDays(Days(ms)).year
  }

  function Sign(ms: int): string {
    if YearOf(ms) < 0 then "-" else ""
  }

  /** The numbers of a timestamp, after the sign: a year takes four characters, or more if it must. */
  function Fields(ms: int): (fs: seq<Field>)
    ensures |fs| == 7
  {
    var d, tod := DateOfDays(Days(ms)), TimeOfDay(ms);
    DateIsRight(Days(ms));
    var year: nat := if d.year >= 0 then d.year else -d.year;
    [Field(year, WidthFrom(year, if d.year >= 0 then 4 else 3), "-"), Field(d.month, 2, "-"), Field(d.day, 2, "T"),
     Field(tod / 3600, 2, ":"), Field(tod / 60 % 60, 2, ":"), Field(tod % 60, 2, "."), Field(ms % 1000, 3, "")]
  }

  /** Years from 0 on that print in the same number of characters. */
  predicate SameWidth(x: int, y: int) {
    YearOf(x) >= 0 && YearOf(y) >= 0 && WidthFrom(YearOf(x), 4) == WidthFrom(YearOf(y), 4)
  }

  lemma FieldsFit(ms: int)
    ensures Fits(Fields(ms))
  {
    hide DateOfDays; hide WidthFrom;
    DateIsRight(Days(ms));
    assert Pow10(2) == 100 && Pow10(3) == 1000;
  }

  function SlotToIso(p: Profile, slot: nat): string {
    var ms := UnixMs(p, slot);
    FieldsFit(ms);
    Sign(ms) + Render(Fields(ms))
  }

  // Order of texts.

  predicate Less(s: string, t: string) {
    t != "" && (s == "" || s[0] < t[0] || (s[0] == t[0] && Less(s[1..], t[1..])))
  }

  lemma {:induction false} LessAfter(p: string, s: string, t: string)
    requires Less(s, t)
    ensures Less(p + s, p + t)
  {
    if p == "" {
      assert p + s == s && p + t == t;
    } else {
      LessAfter(p[1..], s, t);
      assert (p + s)[1..] == p[1..] + s && (p + t)[1..] == p[1..] + t;
    }
  }

  lemma {:induction false} PadLess(v: nat, u: nat, w: nat, s: string, t: string)
    requires v < u < Pow10(w)
    ensures Less(Pad(v, w) + s, Pad(u, w) + t)
    decreases w
  {
    hide Less;
    var p, q, d, e := Pad(v / 10, w - 1), Pad(u / 10, w - 1), [Digit(v % 10)], [Digit(u % 10)];
    assert Pad(v, w) + s == p + (d + s) && Pad(u, w) + t == q + (e + t);
    if v / 10 < u / 10 {
      PadLess(v / 10, u / 10, w - 1, d + s, e + t);
    } else {
      LessAtOnce(v % 10, u % 10, s, t);
      LessAfter(p, d + s, e + t);
    }
  }

  lemma LessAtOnce(d: nat, e: nat, s: string, t: string)
    requires d < e < 10
    ensures Less([Digit(d)] + s, [Digit(e)] + t)
  {
  }

  /** Two timestamps of the same shape, the first smaller at the first number where they differ. */
  predicate FieldsLess(a: seq<Field>, b: seq<Field>) {
    && a != [] && b != [] && a[0].w == b[0].w && a[0].sep == b[0].sep
    && (a[0].v < b[0].v || (a[0].v == b[0].v && FieldsLess(a[1..], b[1..])))
  }

  lemma {:induction false} RenderLess(a: seq<Field>, b: seq<Field>)
    requires Fits(a) && Fits(b) && FieldsLess(a, b)
    ensures Less(Render(a), Render(b))
  {
    hide Pad; hide Less;
    if a[0].v < b[0].v {
      PadLess(a[0].v, b[0].v, a[0].w, a[0].sep + Render(a[1..]), b[0].sep + Render(b[1..]));
    } else {
      RenderLess(a[1..], b[1..]);
      LessAfter(a[0].sep, Render(a[1..]), Render(b[1..]));
      LessAfter(Pad(a[0].v, a[0].w), a[0].sep + Render(a[1..]), a[0].sep + Render(b[1..]));
    }
  }

  lemma ClockLess(s: nat, t: nat)
    requires s < t < 86400
    ensures s / 3600 < t / 3600
      || (s / 3600 == t / 3600 && (s / 60 % 60 < t / 60 % 60 || (s / 60 % 60 == t / 60 % 60 && s % 60 < t % 60)))
  {
  }

  lemma LaterFields(x: int, y: int)
    requires x < y && (SameWidth(x, y) || YearOf(x) == YearOf(y))
    ensures FieldsLess(Fields(x), Fields(y))
  {
    hide DateOfDays; hide DayNumber; hide WidthFrom;
    var a, b := Fields(x), Fields(y);
    DateIsRight(Days(x));
    DateIsRight(Days(y));
    var i: nat;
    if Days(x) < Days(y) {
      LaterDay(DateOfDays(Days(x)), DateOfDays(Days(y)));
      i := if a[0].v < b[0].v then 0 else if a[1].v < b[1].v then 1 else 2;
    } else if TimeOfDay(x) < TimeOfDay(y) {
      ClockLess(TimeOfDay(x), TimeOfDay(y));
      i := if a[3].v < b[3].v then 3 else if a[4].v < b[4].v then 4 else 5;
    } else {
      i := 6;
    }
    FirstDifference(a, b, i);
  }

  lemma {:induction false} FirstDifference(a: seq<Field>, b: seq<Field>, i: nat)
    requires |a| == |b| && i < |a| && forall k :: 0 <= k < |a| ==> a[k].w == b[k].w && a[k].sep == b[k].sep
    requires a[i].v < b[i].v && forall k :: 0 <= k < i ==> a[k].v == b[k].v
    ensures FieldsLess(a, b)
    decreases i
  {
    if i > 0 { FirstDifference(a[1..], b[1..], i - 1); }
  }

  /** The date, time of day and millisecond a slot renders as. */
  function Instant(p: Profile, slot: nat): (Date, int, int) {
    var ms := UnixMs(p, slot);
    (DateOfDays(Days(ms)), TimeOfDay(ms), ms % 1000)
  }

  /** The instant is strictly monotone in the slot, for every profile and every slot. */
  lemma LaterSlotIsLater(p: Profile, s: nat, t: nat)
    requires p.slotMs > 0 && s < t
    ensures
      var (d, c, m) := Instant(p, s);
      var (e, k, n) := Instant(p, t);
      DateLess(d, e) || (d == e && (c < k || (c == k && m < n)))
  {
    hide DateOfDays; hide DayNumber;
    assert s * p.slotMs < t * p.slotMs;
    var x, y := UnixMs(p, s), UnixMs(p, t);
    DateIsRight(Days(x));
    DateIsRight(Days(y));
    if Days(x) < Days(y) { LaterDay(DateOfDays(Days(x)), DateOfDays(Days(y))); }
  }

  function Signed(negative: bool, f: Field): string
    requires f.v < Pow10(f.w)
  {
    (if negative then "-" else "") + (Pad(f.v, f.w) + "-")
  }

  /** What a timestamp starts with: the sign, the year and the dash after it. */
  function YearText(ms: int): string {
    FieldsFit(ms);
    Signed(YearOf(ms) < 0, Fields(ms)[0])
  }

  /** Of two different years neither text starts the other. */
  lemma YearsPart(x: int, y: int)
    requires YearOf(x) != YearOf(y)
    ensures !(YearText(x) <= YearText(y))
  {
    hide DateOfDays; hide WidthFrom; hide Pad; hide Fits;
    FieldsFit(x);
    FieldsFit(y);
    var a, b := Fields(x)[0], Fields(y)[0];
    if YearText(x) <= YearText(y) { SameStart(YearOf(x) < 0, YearOf(y) < 0, a, b); }
  }

  lemma SameStart(m: bool, n: bool, a: Field, b: Field)
    requires a.v < Pow10(a.w) && b.v < Pow10(b.w) && a.w > 0 && b.w > 0 && Signed(m, a) <= Signed(n, b)
    ensures m == n && a.v == b.v
  {
    hide Pad;
    var s, t := Pad(a.v, a.w), Pad(b.v, b.w);
    PadIsDigits(a.v, a.w);
    PadIsDigits(b.v, b.w);
    assert Signed(m, a)[0] == if m then '-' else s[0];
    assert Signed(n, b)[0] == if n then '-' else t[0];
    SameDigits(s, t, if m then 1 else 0, Signed(m, a), Signed(n, b));
    PadIsInjective(a.v, b.v, a.w);
  }

  lemma SameDigits(s: string, t: string, n: nat, x: string, y: string)
    requires n + |s| < |x| && n + |t| < |y| && x[n..n + |s|] == s && y[n..n + |t|] == t
    requires x <= y && x[n + |s|] == '-' && |y| == n + |t| + 1 && '-' !in t
    ensures s == t
  {
    assert forall i :: 0 <= i < |t| ==> y[n + i] == t[i];
    assert y[n + |s|] == '-';
    assert x[n..n + |s|] == y[n..n + |s|];
  }

  lemma {:induction false} PadIsDigits(v: nat, w: nat)
    requires v < Pow10(w)
    ensures forall i :: 0 <= i < w ==> '0' <= Pad(v, w)[i] <= '9'
  {
    if w > 0 { PadIsDigits(v / 10, w - 1); }
  }

  lemma {:induction false} PadIsInjective(v: nat, u: nat, w: nat)
    requires v < Pow10(w) && u < Pow10(w) && Pad(v, w) == Pad(u, w)
    ensures v == u
  {
    if w > 0 {
      assert Pad(v, w)[..w - 1] == Pad(v / 10, w - 1) && Pad(u, w)[..w - 1] == Pad(u / 10, w - 1);
      assert Pad(v, w)[w - 1] == Digit(v % 10) && Pad(u, w)[w - 1] == Digit(u % 10);
      PadIsInjective(v / 10, u / 10, w - 1);
    }
  }

  /** Texts that part before either ends compare as their heads do. */
  lemma {:induction false} HeadsDecide(a: string, b: string, s: string, t: string)
    requires !(a <= b) && !(b <= a)
    ensures Less(a + s, b + t) <==> Less(a, b)
  {
    if a[0] == b[0] {
      assert (a + s)[1..] == a[1..] + s && (b + t)[1..] == b[1..] + t;
      assert a[1..] <= b[1..] ==> a <= b;
      assert b[1..] <= a[1..] ==> b <= a;
      HeadsDecide(a[1..], b[1..], s, t);
    }
  }

  /** The text sorts by time exactly when the two years are the same or their texts sort so. */
  lemma RendersLaterExactly(p: Profile, s: nat, t: nat)
    requires p.slotMs > 0 && s < t
    ensures
      var x, y := UnixMs(p, s), UnixMs(p, t);
      Less(SlotToIso(p, s), SlotToIso(p, t)) <==> YearOf(x) == YearOf(y) || Less(YearText(x), YearText(y))
  {
    hide Fields; hide YearOf; hide Less; hide FieldsLess; hide Pad;
    assert s * p.slotMs < t * p.slotMs;
    var x, y := UnixMs(p, s), UnixMs(p, t);
    FieldsFit(x);
    FieldsFit(y);
    if YearOf(x) == YearOf(y) {
      LaterFields(x, y);
      RenderLess(Fields(x), Fields(y));
      LessAfter(Sign(x), Render(Fields(x)), Render(Fields(y)));
    } else {
      YearsPart(x, y);
      YearsPart(y, x);
      YearLeads(p, s);
      YearLeads(p, t);
      HeadsDecide(YearText(x), YearText(y), Render(Fields(x)[1..]), Render(Fields(y)[1..]));
    }
  }

  lemma YearLeads(p: Profile, slot: nat)
    ensures
      var ms := UnixMs(p, slot);
      Fits(Fields(ms)[1..]) && SlotToIso(p, slot) == YearText(ms) + Render(Fields(ms)[1..])
  {
    hide Pad;
    var ms := UnixMs(p, slot);
    FieldsFit(ms);
    assert Fields(ms)[0].sep == "-";
  }

  /** So it does between any years from 0 on that print in the same number of characters. */
  lemma LaterSlotRendersLater(p: Profile, s: nat, t: nat)
    requires p.slotMs > 0 && s < t && SameWidth(UnixMs(p, s), UnixMs(p, t))
    ensures Less(SlotToIso(p, s), SlotToIso(p, t))
  {
    hide Fields; hide Render; hide FieldsLess; hide WidthFrom; hide YearOf;
    assert s * p.slotMs < t * p.slotMs;
    var x, y := UnixMs(p, s), UnixMs(p, t);
    LaterFields(x, y);
    FieldsFit(x);
    FieldsFit(y);
    RenderLess(Fields(x), Fields(y));
    assert Sign(x) == "" && Sign(y) == "";
    assert "" + Render(Fields(x)) == Render(Fields(x)) && "" + Render(Fields(y)) == Render(Fields(y));
  }

  /** Every slot of the profile lies in the years 0 to 9999, as profiles promise. */
  predicate FourDigitYears(p: Profile) {
    YearOf(UnixMs(p, 0)) >= 0 && YearOf(UnixMs(p, U32 - 1)) <= 9999
  }

  lemma YearsFollow(p: Profile, s: nat, t: nat)
    requires p.slotMs > 0 && s <= t
    ensures YearOf(UnixMs(p, s)) <= YearOf(UnixMs(p, t))
  {
    hide DateOfDays;
    if s < t { LaterSlotIsLater(p, s, t); }
  }

  /** Under such a profile the text sorts by time, for every pair of slots. */
  lemma ProfileTimesSort(p: Profile, s: nat, t: nat)
    requires p.slotMs > 0 && FourDigitYears(p) && s < t < U32
    ensures Less(SlotToIso(p, s), SlotToIso(p, t))
  {
    hide YearOf; hide SlotToIso; hide Less;
    YearsFollow(p, 0, s);
    YearsFollow(p, s, t);
    YearsFollow(p, t, U32 - 1);
    assert Pow10(4) == 10000;
    LaterSlotRendersLater(p, s, t);
  }

  /** The promise is needed: were there a profile that left the year 9999, its year 10000 would sort before it. */
  lemma WiderYearSortsEarlier()
    ensures
      var p := Profile(253402300799500, 500);
      YearOf(UnixMs(p, 0)) == 9999 && YearOf(UnixMs(p, 1)) == 10000 && !Less(SlotToIso(p, 0), SlotToIso(p, 1))
  {
    hide DateOfDays; hide YearText; hide SlotToIso; hide YearOf;
    var p := Profile(253402300799500, 500);
    var x, y := UnixMs(p, 0), UnixMs(p, 1);
    RendersLaterExactly(p, 0, 1);
    YearsAround();
    YearTextOf(x, 9999);
    YearTextOf(y, 10000);
  }

  lemma YearsAround()
    ensures YearOf(253402300799500) == 9999 && YearOf(253402300800000) == 10000
  {
    hide DateOfDays;
    assert Days(253402300799500) == 2932896 && Days(253402300800000) == 2932897;
    LastOf9999();
    FirstOf10000();
  }

  lemma LastOf9999()
    ensures DateOfDays(2932896) == Date(9999, 12, 31)
  {
  }

  lemma FirstOf10000()
    ensures DateOfDays(2932897) == Date(10000, 1, 1)
  {
  }

  lemma YearTextOf(ms: int, year: nat)
    requires YearOf(ms) == year && (year == 9999 || year == 10000)
    ensures YearText(ms) != "" && YearText(ms)[0] == if year == 9999 then '9' else '1'
  {
    hide DateOfDays; hide Pad;
    assert Pow10(4) == 10000 && Pow10(5) == 100000;
    assert WidthFrom(9999, 4) == 4 && WidthFrom(10000, 4) == 5;
    FirstDigits();
  }

  lemma FirstDigits()
    ensures 9999 < Pow10(4) && 10000 < Pow10(5) && Pad(9999, 4)[0] == '9' && Pad(10000, 5)[0] == '1'
  {
    assert Pow10(4) == 10000 && Pow10(5) == 100000;
    assert Pad(9, 1) == "9" && Pad(99, 2) == "99" && Pad(999, 3) == "999";
    assert Pad(1, 1) == "1" && Pad(10, 2) == "10" && Pad(100, 3) == "100" && Pad(1000, 4) == "1000";
  }

  /** Every u32 slot of the Antelope profile lies in the years 2000 to 2068. */
  lemma AntelopeYears(slot: nat)
    requires slot < U32
    ensures 2000 <= DateOfDays(Days(UnixMs(ANTELOPE, slot))).year <= 2068
  {
    hide DateOfDays; hide YearStart; hide MonthStart;
    var d := DateOfDays(Days(UnixMs(ANTELOPE, slot)));
    DateIsRight(Days(UnixMs(ANTELOPE, slot)));
    InsideItsYear(d);
    YearStartIsClosed(2000);
    YearStartIsClosed(2069);
    if d.year < 2000 {
      YearsGrow(d.year + 1, 2000);
      YearStartIsClosed(d.year);
      YearStartIsClosed(d.year + 1);
      ClosedStep(d.year);
    } else if d.year > 2068 {
      YearsGrow(2069, d.year);
    }
  }

  /** So its times sort as its slots do. */
  lemma AntelopeTimesSort(s: nat, t: nat)
    requires s < t < U32
    ensures Less(SlotToIso(ANTELOPE, s), SlotToIso(ANTELOPE, t))
  {
    hide DateOfDays; hide Less; hide SlotToIso;
    AntelopeYears(0);
    AntelopeYears(U32 - 1);
    ProfileTimesSort(ANTELOPE, s, t);
  }
}
