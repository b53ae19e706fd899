/** UTC times and their RFC 3339 text with a trimmed nanosecond fraction, which is
    what `DateFmt` writes into the expiry bucket. The bucket compares that text byte
    by byte; the lemmas below say exactly what order on times this amounts to. */
module Timestamps {
  import opened ByteOrder
  import opened Decimal

  const NANOS := 1_000_000_000

  /** A civil UTC date and time of day. Go has no leap second. */
  datatype Civil = Civil(year: nat, month: nat, day: nat, hour: nat, minute: nat, second: nat, nano: nat) {
    /** The four-digit years are the ones the `date-fullyear` rule of RFC 3339 allows. */
    predicate Valid() {
      && year <= 9999
      && 1 <= month <= 12
      && 1 <= day <= DaysInMonth(year, month)
      && hour < 24 && minute < 60 && second < 60 && nano < NANOS
    }
  }

  type Time = c: Civil | c.Valid() witness Civil(1, 1, 1, 0, 0, 0, 0)

  // ---------- The instant a civil time denotes ----------

  predicate LeapYear(year: nat) {
    year % 4 == 0 && (year % 100 != 0 || year % 400 == 0)
  }

  function DaysInMonth(year: nat, month: nat): (d: nat)
    ensures 28 <= d <= 31
  {
    if month == 2 then (if LeapYear(year) then 29 else 28)
    else if month in {4, 6, 9, 11} then 30
    else 31
  }

  /** Days of the year that come before the given month; month 13 is the whole year. */
  function DaysBeforeMonth(year: nat, month: nat): nat {
    if month <= 1 then 0 else DaysBeforeMonth(year, month - 1) + DaysInMonth(year, month - 1)
  }

  function DaysBeforeYear(year: nat): nat {
    if year == 0 then 0 else DaysBeforeYear(year - 1) + DaysBeforeMonth(year - 1, 13)
  }

  function Days(t: Time): nat {
    DaysBeforeYear(t.year) + DaysBeforeMonth(t.year, t.month) + t.day - 1
  }

  /** Whole seconds since the start of year 0. */
  function Seconds(t: Time): nat {
    ((Days(t) * 24 + t.hour) * 60 + t.minute) * 60 + t.second
  }

  /** Nanoseconds since the start of year 0: the instant itself. */
  function Instant(t: Time): nat {
    Seconds(t) * NANOS + t.nano
  }

  lemma {:induction false} MonthsAdvance(year: nat, m: nat, n: nat)
    requires 1 <= m < n
    ensures DaysBeforeMonth(year, m) + DaysInMonth(year, m) <= DaysBeforeMonth(year, n)
    decreases n
  {
    if m < n - 1 {
      MonthsAdvance(year, m, n - 1);
    }
  }

  lemma {:induction false} YearsAdvance(y: nat, z: nat)
    requires y < z
    ensures DaysBeforeYear(y) + DaysBeforeMonth(y, 13) <= DaysBeforeYear(z)
    decreases z
  {
    if y < z - 1 {
      YearsAdvance(y, z - 1);
    }
  }

  lemma DayWithinYear(t: Time)
    ensures DaysBeforeMonth(t.year, t.month) + t.day <= DaysBeforeMonth(t.year, 13)
  {
    MonthsAdvance(t.year, t.month, 13);
  }

  predicate EarlierDay(a: Time, b: Time) {
    a.year < b.year || (a.year == b.year
    && (a.month < b.month || (a.month == b.month && a.day < b.day)))
  }

  predicate SameDay(a: Time, b: Time) {
    a.year == b.year && a.month == b.month && a.day == b.day
  }

  predicate EarlierClock(a: Time, b: Time) {
    a.hour < b.hour || (a.hour == b.hour
    && (a.minute < b.minute || (a.minute == b.minute && a.second < b.second)))
  }

  /** The fields down to the second, compared from the year on. */
  predicate EarlierSecond(a: Time, b: Time) {
    EarlierDay(a, b) || (SameDay(a, b) && EarlierClock(a, b))
  }

  predicate SameSecond(a: Time, b: Time) {
    SameDay(a, b) && a.hour == b.hour && a.minute == b.minute && a.second == b.second
  }

  lemma EarlierDayCounts(a: Time, b: Time)
    requires EarlierDay(a, b)
    ensures Days(a) < Days(b)
  {
    if a.year < b.year {
      DayWithinYear(a);
      YearsAdvance(a.year, b.year);
    } else if a.month < b.month {
      MonthsAdvance(a.year, a.month, b.month);
    }
  }

  /** Comparing the fields is comparing the instants, cut to whole seconds. */
  lemma FieldsOrderSeconds(a: Time, b: Time)
    ensures EarlierSecond(a, b) <==> Seconds(a) < Seconds(b)
    ensures SameSecond(a, b) <==> Seconds(a) == Seconds(b)
  {
    if EarlierDay(a, b) {
      EarlierDayCounts(a, b);
    } else if EarlierDay(b, a) {
      EarlierDayCounts(b, a);
    } else {
      assert SameDay(a, b);
    }
  }

  // ---------- The text ----------

  /** The last `width` decimal digits of `n`. */
  function Digits(n: nat, width: nat): (s: string)
    ensures |s| == width
    ensures forall i :: 0 <= i < width ==> '0' <= s[i] <= '9'
  {
    if width == 0 then "" else Digits(n / 10, width - 1) + [DigitOf(n % 10)]
  }

  function TrimZeros(s: string): (t: string)
    ensures |t| <= |s| && t == s[..|t|]
    ensures t == "" || t[|t| - 1] != '0'
    ensures forall i :: |t| <= i < |s| ==> s[i] == '0'
  {
    if s == "" || s[|s| - 1] != '0' then s else TrimZeros(s[..|s| - 1])
  }

  /** The fraction digits that are left after trailing zeros are cut. */
  function Fraction(nano: nat): string {
    TrimZeros(Digits(nano, 9))
  }

  function FractionText(nano: nat): string {
    (if nano == 0 then "" else "." + Fraction(nano)) + "Z"
  }

  function ClockText(t: Time): string {
    Digits(t.hour, 2) + (":" + (Digits(t.minute, 2) + (":" + (Digits(t.second, 2) + FractionText(t.nano)))))
  }

  /** `t.Format(time.RFC3339Nano)` for a UTC time. */
  function Format(t: Time): string {
    Digits(t.year, 4) + ("-" + (Digits(t.month, 2) + ("-" + (Digits(t.day, 2) + ("T" + ClockText(t))))))
  }

  function Pow10(w: nat): nat {
    if w == 0 then 1 else 10 * Pow10(w - 1)
  }

  lemma {:induction false} DigitsBelow(x: nat, y: nat, w: nat, r: string, s: string)
    requires x < y < Pow10(w)
    ensures Below(Digits(x, w) + r, Digits(y, w) + s)
    decreases w
  {
    var dx, dy := [DigitOf(x % 10)], [DigitOf(y % 10)];
    assert Digits(x, w) + r == Digits(x / 10, w - 1) + (dx + r);
    assert Digits(y, w) + s == Digits(y / 10, w - 1) + (dy + s);
    if x / 10 == y / 10 {
      CommonPrefix(Digits(x / 10, w - 1), dx + r, dy + s);
    } else {
      DigitsBelow(x / 10, y / 10, w - 1, dx + r, dy + s);
    }
  }

  /** A field of fixed width decides the order of the text from it on. */
  lemma FieldOrder(x: nat, y: nat, w: nat, r: string, s: string)
    requires x < Pow10(w) && y < Pow10(w)
    ensures Below(Digits(x, w) + r, Digits(y, w) + s) <==> x < y || (x == y && Below(r, s))
  {
    Trichotomy(Digits(x, w) + r, Digits(y, w) + s);
    if x < y {
      DigitsBelow(x, y, w, r, s);
    } else if y < x {
      DigitsBelow(y, x, w, s, r);
    } else {
      CommonPrefix(Digits(x, w), r, s);
    }
  }

  lemma ClockOrder(a: Time, b: Time)
    ensures Below(ClockText(a), ClockText(b))
       <==> EarlierClock(a, b)
            || (a.hour == b.hour && a.minute == b.minute && a.second == b.second
                && Below(FractionText(a.nano), FractionText(b.nano)))
  {
    var a3, b3 := FractionText(a.nano), FractionText(b.nano);
    var a2, b2 := Digits(a.second, 2) + a3, Digits(b.second, 2) + b3;
    var a1, b1 := Digits(a.minute, 2) + (":" + a2), Digits(b.minute, 2) + (":" + b2);
    assert Pow10(2) == 100;
    FieldOrder(a.second, b.second, 2, a3, b3);
    CommonPrefix(":", a2, b2);
    FieldOrder(a.minute, b.minute, 2, ":" + a2, ":" + b2);
    CommonPrefix(":", a1, b1);
    FieldOrder(a.hour, b.hour, 2, ":" + a1, ":" + b1);
  }

  lemma FormatOrder(a: Time, b: Time)
    ensures Below(Format(a), Format(b))
       <==> EarlierSecond(a, b)
            || (SameSecond(a, b) && Below(FractionText(a.nano), FractionText(b.nano)))
  {
    var a3, b3 := ClockText(a), ClockText(b);
    var a2, b2 := Digits(a.day, 2) + ("T" + a3), Digits(b.day, 2) + ("T" + b3);
    var a1, b1 := Digits(a.month, 2) + ("-" + a2), Digits(b.month, 2) + ("-" + b2);
    assert Pow10(2) == 100;
    assert Pow10(4) == 100 * Pow10(2);
    ClockOrder(a, b);
    CommonPrefix("T", a3, b3);
    FieldOrder(a.day, b.day, 2, "T" + a3, "T" + b3);
    CommonPrefix("-", a2, b2);
    FieldOrder(a.month, b.month, 2, "-" + a2, "-" + b2);
    CommonPrefix("-", a1, b1);
    FieldOrder(a.year, b.year, 4, "-" + a1, "-" + b1);
  }

  // ---------- What the text and the calendar mean ----------

  lemma {:induction false} DigitsMean(n: nat, width: nat)
    requires n < Pow10(width)
    ensures AllDigits(Digits(n, width)) && Value(Digits(n, width)) == n
    decreases width
  {
    if width > 0 {
      DigitsMean(n / 10, width - 1);
      var s := Digits(n, width);
      assert s[..width - 1] == Digits(n / 10, width - 1);
    }
  }

  lemma ZeroAdded(x: nat, y: nat, p: nat)
    requires x == y * p
    ensures 10 * x == y * (10 * p)
  {
  }

  lemma {:induction false} TrailingZeros(s: string, n: nat)
    requires n <= |s| && AllDigits(s) && forall i | n <= i < |s| :: s[i] == '0'
    ensures AllDigits(s[..n]) && Value(s) == Value(s[..n]) * Pow10(|s| - n)
    decreases |s|
  {
    if n == |s| {
      assert s[..n] == s;
    } else {
      var shorter := s[..|s| - 1];
      assert AllDigits(shorter) && shorter[..n] == s[..n];
      TrailingZeros(shorter, n);
      ZeroAdded(Value(shorter), Value(s[..n]), Pow10(|shorter| - n));
      assert Pow10(|s| - n) == 10 * Pow10(|shorter| - n);
      assert Value(s) == 10 * Value(shorter);
    }
  }

  /** A fraction has no zero at its end and stands for the nanoseconds. */
  lemma FractionMeans(nano: nat, width: nat)
    requires nano < Pow10(width) && width == 9
    ensures var f := Fraction(nano);
            && |f| <= 9 && AllDigits(f) && Value(f) * Pow10(9 - |f|) == nano
            && (f == "" <==> nano == 0) && (f != "" ==> f[|f| - 1] != '0')
  {
    var digits, f := Digits(nano, width), Fraction(nano);
    DigitsMean(nano, width);
    TrailingZeros(digits, |f|);
    assert f == "" ==> Value(f) == 0;
    assert nano == 0 && f != "" ==> Value(f) == 0 by {
      if nano == 0 { assert Pow10(9 - |f|) > 0 by { PowerIsPositive(9 - |f|); } }
    }
    if nano == 0 && f != "" {
      ValueOfNonZero(f);
      assert false;
    }
  }

  lemma {:induction false} PowerIsPositive(w: nat)
    ensures Pow10(w) > 0
  {
    if w > 0 { PowerIsPositive(w - 1); }
  }

  lemma ValueOfNonZero(f: string)
    requires f != "" && AllDigits(f) && f[|f| - 1] != '0'
    ensures Value(f) > 0
  {
  }

  /** One field of fixed width and the separator behind it. */
  lemma FieldReads(n: nat, width: nat, separator: char, rest: string, s: string)
    requires n < Pow10(width) && s == Digits(n, width) + ([separator] + rest)
    ensures |s| > width && AllDigits(s[..width]) && Value(s[..width]) == n
    ensures s[width] == separator && s[width + 1..] == rest
  {
    DigitsMean(n, width);
    assert s[..width] == Digits(n, width);
  }

  /** The stamp read back: the date, a T, the clock, a fraction unless it is zero, and a Z, as the
      `date-time` rule of section 5.6 of RFC 3339 has it. */
  ghost predicate Reads(t: Time, s: string) {
    && |s| >= 20 && s[4] == '-' && s[7] == '-' && s[10] == 'T' && s[13] == ':' && s[16] == ':' && s[|s| - 1] == 'Z'
    && AllDigits(s[..4]) && AllDigits(s[5..7]) && AllDigits(s[8..10])
    && AllDigits(s[11..13]) && AllDigits(s[14..16]) && AllDigits(s[17..19])
    && Value(s[..4]) == t.year && Value(s[5..7]) == t.month && Value(s[8..10]) == t.day
    && Value(s[11..13]) == t.hour && Value(s[14..16]) == t.minute && Value(s[17..19]) == t.second
    && (t.nano == 0 ==> |s| == 20)
    && (t.nano > 0 ==>
          && 22 <= |s| <= 30 && s[19] == '.' && AllDigits(s[20..|s| - 1]) && s[|s| - 2] != '0'
          && Value(s[20..|s| - 1]) * Pow10(30 - |s|) == t.nano)
  }

  lemma ClockReads(t: Time, s: string)
    requires s == ClockText(t)
    ensures |s| >= 9 && s[2] == ':' && s[5] == ':' && s[8..] == FractionText(t.nano)
    ensures AllDigits(s[..2]) && AllDigits(s[3..5]) && AllDigits(s[6..8])
    ensures Value(s[..2]) == t.hour && Value(s[3..5]) == t.minute && Value(s[6..8]) == t.second
  {
    var r3 := Digits(t.second, 2) + FractionText(t.nano);
    var r2 := Digits(t.minute, 2) + (":" + r3);
    assert Pow10(2) == 100;
    FieldReads(t.hour, 2, ':', r2, s);
    FieldReads(t.minute, 2, ':', r3, r2);
    DigitsMean(t.second, 2);
    assert s[3..] == r2 && r2[3..] == r3;
    assert s[3..5] == r2[..2] && s[6..8] == r3[..2] == Digits(t.second, 2);
    assert s[8..] == r3[2..] == FractionText(t.nano);
    assert s[5] == r2[2];
  }

  lemma DateReads(t: Time, s: string)
    requires s == Format(t)
    ensures |s| >= 20 && s[4] == '-' && s[7] == '-' && s[10] == 'T' && s[11..] == ClockText(t)
    ensures AllDigits(s[..4]) && AllDigits(s[5..7]) && AllDigits(s[8..10])
    ensures Value(s[..4]) == t.year && Value(s[5..7]) == t.month && Value(s[8..10]) == t.day
  {
    var r3 := Digits(t.day, 2) + ("T" + ClockText(t));
    var r2 := Digits(t.month, 2) + ("-" + r3);
    assert Pow10(2) == 100;
    assert Pow10(4) == 100 * Pow10(2);
    FieldReads(t.year, 4, '-', r2, s);
    FieldReads(t.month, 2, '-', r3, r2);
    FieldReads(t.day, 2, 'T', ClockText(t), r3);
    ClockReads(t, ClockText(t));
    DateSlices(s, r2, r3);
  }

  lemma DateSlices(s: string, r2: string, r3: string)
    requires |s| >= 5 && s[5..] == r2 && |r2| >= 3 && r2[3..] == r3 && |r3| >= 3
    ensures |s| == |r3| + 8 && s[5..7] == r2[..2] && s[8..10] == r3[..2]
    ensures s[7] == r2[2] && s[10] == r3[2] && s[11..] == r3[3..]
  {
    assert s[8..] == s[5..][3..];
    assert s[5..7] == s[5..][..2] && s[8..10] == s[8..][..2];
    assert s[7] == s[5..][2] && s[10] == s[8..][2];
    assert s[11..] == s[8..][3..];
  }

  lemma FractionReads(nano: nat, s: string)
    requires nano < NANOS && |s| >= 19 && s[19..] == FractionText(nano)
    ensures |s| >= 20 && s[|s| - 1] == 'Z' && (nano == 0 ==> |s| == 20)
    ensures nano > 0 ==>
              && 22 <= |s| <= 30 && s[19] == '.' && AllDigits(s[20..|s| - 1]) && s[|s| - 2] != '0'
              && Value(s[20..|s| - 1]) * Pow10(30 - |s|) == nano
  {
    var tail, f := s[19..], Fraction(nano);
    NineDigitsSuffice();
    FractionMeans(nano, 9);
    assert s[|s| - 1] == tail[|tail| - 1];
    if nano > 0 {
      assert tail == "." + f + "Z";
      assert s[20..|s| - 1] == tail[1..|tail| - 1] == f;
      assert s[19] == tail[0] && s[|s| - 2] == f[|f| - 1];
    }
  }

  lemma FormatReads(t: Time)
    ensures Reads(t, Format(t))
  {
    var s, clock := Format(t), ClockText(t);
    DateReads(t, s);
    ClockReads(t, clock);
    SameSlices(s, clock);
    FractionReads(t.nano, s);
  }

  lemma SameSlices(s: string, clock: string)
    requires |s| >= 11 && |clock| >= 8 && s[11..] == clock
    ensures s[11..13] == clock[..2] && s[14..16] == clock[3..5] && s[17..19] == clock[6..8]
    ensures s[13] == clock[2] && s[16] == clock[5] && s[19..] == clock[8..]
  {
    assert s[13] == s[11..][2] && s[16] == s[11..][5];
    assert s[11..13] == s[11..][..2] && s[14..16] == s[11..][3..5] && s[17..19] == s[11..][6..8];
  }

  lemma MonthBegins(year: nat, month: nat)
    requires month >= 1
    ensures DaysBeforeMonth(year, month + 1) == DaysBeforeMonth(year, month) + DaysInMonth(year, month)
  {
  }

  /** The months of the Gregorian calendar. */
  lemma MonthLengths(year: nat)
    ensures DaysInMonth(year, 1) == DaysInMonth(year, 3) == DaysInMonth(year, 5) == DaysInMonth(year, 7) == 31
    ensures DaysInMonth(year, 8) == DaysInMonth(year, 10) == DaysInMonth(year, 12) == 31
    ensures DaysInMonth(year, 4) == DaysInMonth(year, 6) == DaysInMonth(year, 9) == DaysInMonth(year, 11) == 30
    ensures DaysInMonth(year, 2) == if year % 400 == 0 || (year % 4 == 0 && year % 100 != 0) then 29 else 28
    ensures DaysBeforeMonth(year, 13) == 365 + (if year % 400 == 0 || (year % 4 == 0 && year % 100 != 0) then 1 else 0)
  {
    MonthBegins(year, 1);
    MonthBegins(year, 2);
    MonthBegins(year, 3);
    MonthBegins(year, 4);
    MonthBegins(year, 5);
    MonthBegins(year, 6);
    MonthBegins(year, 7);
    MonthBegins(year, 8);
    MonthBegins(year, 9);
    MonthBegins(year, 10);
    MonthBegins(year, 11);
    MonthBegins(year, 12);
  }

  /** The leap days before a year. */
  function LeapDays(year: nat): int {
    (year + 3) / 4 - (year + 99) / 100 + (year + 399) / 400
  }

  lemma FourthYear(q: nat, r: nat)
    requires r < 4
    ensures (4 * q + r + 4) / 4 == q + 1 && (4 * q + r + 3) / 4 == q + (if r == 0 then 0 else 1)
  {
  }

  lemma HundredthYear(q: nat, r: nat)
    requires r < 100
    ensures (100 * q + r + 100) / 100 == q + 1 && (100 * q + r + 99) / 100 == q + (if r == 0 then 0 else 1)
  {
  }

  lemma FourHundredthYear(q: nat, r: nat)
    requires r < 400
    ensures (400 * q + r + 400) / 400 == q + 1 && (400 * q + r + 399) / 400 == q + (if r == 0 then 0 else 1)
  {
  }

  lemma Multiples(y: nat)
    ensures y % 400 == 0 ==> y % 100 == 0
    ensures y % 100 == 0 ==> y % 4 == 0
  {
    if y % 400 == 0 { assert y == 100 * (4 * (y / 400)); }
    if y % 100 == 0 { assert y == 4 * (25 * (y / 100)); }
  }

  lemma OneMoreLeapDay(y: nat)
    ensures LeapDays(y + 1) == LeapDays(y) + (if y % 400 == 0 || (y % 4 == 0 && y % 100 != 0) then 1 else 0)
  {
    Multiples(y);
    FourthYear(y / 4, y % 4);
    HundredthYear(y / 100, y % 100);
    FourHundredthYear(y / 400, y % 400);
  }

  lemma NextYear(y: nat)
    ensures DaysBeforeYear(y + 1) == DaysBeforeYear(y) + 365 + LeapDays(y + 1) - LeapDays(y)
  {
    MonthLengths(y);
    OneMoreLeapDay(y);
  }

  /** The days before a year, counted without looking at the years one by one. */
  lemma {:induction false} YearsClosedForm(year: nat)
    ensures DaysBeforeYear(year) == 365 * year + LeapDays(year)
  {
    if year > 0 {
      YearsClosedForm(year - 1);
      NextYear(year - 1);
    }
  }

  /** The day a time falls on, counted from the start of year 0; that of the year 1970, from which
      Unix time counts, is 719528. */
  lemma DaysCount(t: Time)
    ensures Days(t) == 365 * t.year + LeapDays(t.year) + DaysBeforeMonth(t.year, t.month) + t.day - 1
    ensures 365 * 1970 + LeapDays(1970) == 719528
  {
    YearsClosedForm(t.year);
  }

  // ---------- Fractions within one second ----------

  lemma {:induction false} PrefixBelowItsExtension(p: string, q: string, c: char)
    requires ProperPrefix(p, q)
    requires forall i :: 0 <= i < |q| ==> q[i] < c
    ensures Below(q + [c], p + [c])
  {
    if |p| > 0 {
      PrefixBelowItsExtension(p[1..], q[1..], c);
      assert (q + [c])[1..] == q[1..] + [c] && (p + [c])[1..] == p[1..] + [c];
    }
  }

  lemma {:induction false} NothingBelowZeros(s: string, z: string)
    requires |s| == |z|
    requires forall i :: 0 <= i < |s| ==> '0' <= s[i]
    requires forall i :: 0 <= i < |z| ==> z[i] == '0'
    ensures !Below(s, z)
  {
    if s != "" {
      NothingBelowZeros(s[1..], z[1..]);
    }
  }

  lemma {:induction false} PrefixPaddedWithZeros(p: string, q: string, x: string, y: string)
    requires ProperPrefix(p, q) && |p + x| == |q + y|
    requires forall i :: 0 <= i < |q + y| ==> '0' <= (q + y)[i]
    requires forall i :: 0 <= i < |x| ==> x[i] == '0'
    ensures !Below(q + y, p + x)
  {
    if p == "" {
      assert p + x == x;
      NothingBelowZeros(q + y, x);
    } else {
      assert (q + y)[1..] == q[1..] + y && (p + x)[1..] == p[1..] + x;
      PrefixPaddedWithZeros(p[1..], q[1..], x, y);
    }
  }

  lemma {:induction false} ProperPrefixLonger(p: string, q: string)
    requires ProperPrefix(p, q)
    ensures |p| < |q|
  {
    if p != "" {
      ProperPrefixLonger(p[1..], q[1..]);
    }
  }

  lemma {:induction false} ZeroDigits(w: nat)
    ensures forall i :: 0 <= i < w ==> Digits(0, w)[i] == '0'
  {
    if w > 0 { ZeroDigits(w - 1); }
  }

  lemma DigitsOrder(m: nat, n: nat, w: nat)
    requires m < Pow10(w) && n < Pow10(w)
    ensures Below(Digits(m, w), Digits(n, w)) <==> m < n
    ensures Digits(m, w) == Digits(n, w) ==> m == n
  {
    assert Digits(m, w) + "" == Digits(m, w) && Digits(n, w) + "" == Digits(n, w);
    FieldOrder(m, n, w, "", "");
    FieldOrder(n, m, w, "", "");
    Trichotomy(Digits(m, w), Digits(n, w));
  }

  lemma TrimmedToNothing(n: nat, w: nat)
    requires n < Pow10(w)
    ensures n == 0 <==> TrimZeros(Digits(n, w)) == ""
  {
    ZeroDigits(w);
    if TrimZeros(Digits(n, w)) == "" {
      assert Digits(n, w) == Digits(0, w);
      DigitsOrder(n, 0, w);
    }
  }

  lemma NineDigitsSuffice()
    ensures Pow10(9) == NANOS
  {
    assert Pow10(3) == 1000;
    assert Pow10(6) == 1000 * Pow10(3);
    assert Pow10(9) == 1000 * Pow10(6);
  }

  lemma FractionDigits(n: nat)
    requires n < NANOS
    ensures Digits(n, 9) == Fraction(n) + Digits(n, 9)[|Fraction(n)|..]
    ensures n == 0 <==> Fraction(n) == ""
  {
    NineDigitsSuffice();
    TrimmedToNothing(n, 9);
  }

  /** Nine digits carry the whole nanosecond count and order it. */
  lemma NineDigits(m: nat, n: nat)
    requires m < NANOS && n < NANOS
    ensures Below(Digits(m, 9), Digits(n, 9)) <==> m < n
    ensures Digits(m, 9) == Digits(n, 9) ==> m == n
  {
    NineDigitsSuffice();
    DigitsOrder(m, n, 9);
  }

  /** A fraction that another one extends is the earlier of the two. */
  lemma PrefixIsEarlier(m: nat, n: nat)
    requires m < NANOS && n < NANOS && ProperPrefix(Fraction(m), Fraction(n))
    ensures m < n
  {
    FractionDigits(m);
    FractionDigits(n);
    ProperPrefixLonger(Fraction(m), Fraction(n));
    var zm, zn := Digits(m, 9)[|Fraction(m)|..], Digits(n, 9)[|Fraction(n)|..];
    PrefixPaddedWithZeros(Fraction(m), Fraction(n), zm, zn);
    NineDigits(n, m);
  }

  lemma PrefixComesAfter(m: nat, n: nat)
    requires m < NANOS && n < NANOS && ProperPrefix(Fraction(m), Fraction(n))
    ensures Below(FractionText(n), FractionText(m)) && !ProperPrefix(Fraction(n), Fraction(m))
  {
    var p, q := Fraction(m), Fraction(n);
    FractionDigits(m);
    FractionDigits(n);
    ProperPrefixLonger(p, q);
    if ProperPrefix(q, p) { ProperPrefixLonger(q, p); }
    if m != 0 {
      PrefixBelowItsExtension(p, q, 'Z');
      CommonPrefix(".", q + "Z", p + "Z");
      assert FractionText(m) == "." + (p + "Z") && FractionText(n) == "." + (q + "Z");
    }
  }

  lemma SameFraction(m: nat, n: nat)
    requires m < NANOS && n < NANOS && Fraction(m) == Fraction(n)
    ensures m == n
  {
    FractionDigits(m);
    FractionDigits(n);
    assert Digits(m, 9)[|Fraction(m)|..] == Digits(n, 9)[|Fraction(n)|..];
    NineDigits(m, n);
  }

  /** The text order of two fractions: a proper prefix comes after what extends it,
      everything else is in numeric order. */
  lemma FractionOrder(m: nat, n: nat)
    requires m < NANOS && n < NANOS
    ensures Below(FractionText(m), FractionText(n))
       <==> ProperPrefix(Fraction(n), Fraction(m)) || (!ProperPrefix(Fraction(m), Fraction(n)) && m < n)
  {
    Trichotomy(FractionText(m), FractionText(n));
    if ProperPrefix(Fraction(m), Fraction(n)) {
      PrefixComesAfter(m, n);
    } else if ProperPrefix(Fraction(n), Fraction(m)) {
      PrefixComesAfter(n, m);
    } else if Fraction(m) == Fraction(n) {
      SameFraction(m, n);
    } else {
      FractionsDiverge(m, n);
    }
  }

  lemma FractionsDiverge(m: nat, n: nat)
    requires m < NANOS && n < NANOS && Fraction(m) != Fraction(n)
    requires !ProperPrefix(Fraction(m), Fraction(n)) && !ProperPrefix(Fraction(n), Fraction(m))
    ensures Below(FractionText(m), FractionText(n)) <==> m < n
  {
    var p, q := Fraction(m), Fraction(n);
    FractionDigits(m);
    FractionDigits(n);
    NineDigits(m, n);
    Diverging(p, q, "Z", "Z", Digits(m, 9)[|p|..], Digits(n, 9)[|q|..]);
    CommonPrefix(".", p + "Z", q + "Z");
    assert FractionText(m) == "." + (p + "Z") && FractionText(n) == "." + (q + "Z");
  }

  // ---------- Main results ----------

  /** The byte order of two stamps, exactly: whole seconds first; inside one second a
      trimmed fraction that is a proper prefix of the other sorts after it. */
  lemma StampOrder(a: Time, b: Time)
    ensures AtMost(Format(a), Format(b))
       <==> Seconds(a) < Seconds(b)
            || (Seconds(a) == Seconds(b)
                && !ProperPrefix(Fraction(a.nano), Fraction(b.nano))
                && (ProperPrefix(Fraction(b.nano), Fraction(a.nano)) || a.nano <= b.nano))
  {
    FormatOrder(b, a);
    FieldsOrderSeconds(a, b);
    FieldsOrderSeconds(b, a);
    FractionOrder(b.nano, a.nano);
  }

  /** Inside one second the byte order is the time order exactly when neither trimmed
      fraction is a proper prefix of the other. */
  lemma StampOrderWithinSecond(a: Time, b: Time)
    requires Seconds(a) == Seconds(b)
    ensures (AtMost(Format(a), Format(b)) <==> Instant(a) <= Instant(b))
       <==> !ProperPrefix(Fraction(a.nano), Fraction(b.nano)) && !ProperPrefix(Fraction(b.nano), Fraction(a.nano))
  {
    StampOrder(a, b);
    if ProperPrefix(Fraction(a.nano), Fraction(b.nano)) {
      PrefixIsEarlier(a.nano, b.nano);
    } else if ProperPrefix(Fraction(b.nano), Fraction(a.nano)) {
      PrefixIsEarlier(b.nano, a.nano);
    }
  }

  /** Whole seconds are never misplaced. */
  lemma StampOrderAcrossSeconds(a: Time, b: Time)
    ensures Seconds(a) < Seconds(b) ==> AtMost(Format(a), Format(b))
    ensures Seconds(b) < Seconds(a) ==> !AtMost(Format(a), Format(b))
  {
    StampOrder(a, b);
  }

  /** So the byte order misplaces two times only if they are less than a second apart. */
  lemma StampErrorUnderOneSecond(a: Time, b: Time)
    ensures Instant(a) + NANOS <= Instant(b) ==> AtMost(Format(a), Format(b))
    ensures AtMost(Format(a), Format(b)) ==> Instant(a) < Instant(b) + NANOS
  {
    StampOrder(a, b);
  }

  /** The error is real: half past a second is written before the second itself. */
  lemma StampOrderCanFail()
    ensures exists a: Time, b: Time :: Instant(a) < Instant(b) && !AtMost(Format(a), Format(b))
  {
    var a: Time := Civil(2021, 6, 1, 12, 0, 0, 0);
    var b: Time := Civil(2021, 6, 1, 12, 0, 0, 500_000_000);
    StampOrder(a, b);
    FractionDigits(0);
    FractionDigits(500_000_000);
    assert Instant(a) < Instant(b) && !AtMost(Format(a), Format(b));
  }

  /** Two times have the same stamp only if they are the same instant. */
  lemma StampInjective(a: Time, b: Time)
    requires Format(a) == Format(b)
    ensures a == b
  {
    StampOrder(a, b);
    StampOrder(b, a);
    Trichotomy(Format(a), Format(b));
    FieldsOrderSeconds(a, b);
    if a.nano < b.nano && ProperPrefix(Fraction(a.nano), Fraction(b.nano)) {
      PrefixIsEarlier(a.nano, b.nano);
    }
  }
}
