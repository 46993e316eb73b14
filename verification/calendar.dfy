/**
 * Calendar days, standing in for the local-midnight JavaScript `Date` objects the pages
 * build from `YYYY-MM-DD` strings, compare, step through and format.
 */
module Calendar {
  import opened Text

  /** A Gregorian calendar day; `month` runs from 1 to 12. */
  datatype Day = Day(year: nat, month: nat, day: nat)

  predicate IsLeapYear(y: nat) {
    y % 4 == 0 && (y % 100 != 0 || y % 400 == 0)
  }

  function DaysInMonth(y: nat, m: nat): (n: nat)
    requires 1 <= m <= 12
    ensures 28 <= n <= 31
    ensures n == 29 <==> m == 2 && IsLeapYear(y)
  {
    if m == 2 then (if IsLeapYear(y) then 29 else 28)
    else if m == 4 || m == 6 || m == 9 || m == 11 then 30
    else 31
  }

  predicate ValidDay(d: Day) {
    1 <= d.month <= 12 && 1 <= d.day <= DaysInMonth(d.year, d.month)
  }

  /** Chronological order; on local-midnight dates it is the order of their timestamps. */
  predicate DayLe(a: Day, b: Day) {
    a.year < b.year || (a.year == b.year && (a.month < b.month || (a.month == b.month && a.day <= b.day)))
  }

  predicate DayLt(a: Day, b: Day) {
    DayLe(a, b) && a != b
  }

  /** `DayLe` is a total order. */
  lemma {:induction false} DayLeTotalOrder()
    ensures forall a: Day :: DayLe(a, a)
    ensures forall a: Day, b: Day :: DayLe(a, b) || DayLe(b, a)
    ensures forall a: Day, b: Day, c: Day :: DayLe(a, b) && DayLe(b, c) ==> DayLe(a, c)
    ensures forall a: Day, b: Day :: DayLe(a, b) && DayLe(b, a) ==> a == b
  {
  }

  /** The next calendar day (`cursor.setDate(cursor.getDate() + 1)`): no valid day lies between. */
  function NextDay(d: Day): (r: Day)
    requires ValidDay(d)
    ensures ValidDay(r) && DayLt(d, r)
    ensures forall x :: ValidDay(x) && DayLt(d, x) ==> DayLe(r, x)
  {
    if d.day < DaysInMonth(d.year, d.month) then Day(d.year, d.month, d.day + 1)
    else if d.month < 12 then Day(d.year, d.month + 1, 1)
    else Day(d.year + 1, 1, 1)
  }

  // ---------------------------------------------------------------------------
  // RFC 3339 full-date strings and toISODate
  // ---------------------------------------------------------------------------

  /** `YYYY-MM-DD` naming an existing Gregorian day (the `full-date` production of RFC 3339, section 5.6). */
  predicate IsFullDate(s: string) {
    && |s| == 10
    && AllDigits(s[0..4]) && s[4] == '-' && AllDigits(s[5..7]) && s[7] == '-' && AllDigits(s[8..10])
    && ValidDay(Day(DigitsValue(s[0..4]), DigitsValue(s[5..7]), DigitsValue(s[8..10])))
  }

  /** The day a `full-date` names (what `new Date(`${value}T00:00:00`)` denotes). */
  function ParseFullDate(s: string): (d: Day)
    requires IsFullDate(s)
    ensures ValidDay(d)
  {
    Day(DigitsValue(s[0..4]), DigitsValue(s[5..7]), DigitsValue(s[8..10]))
  }

  /** Two-digit zero padding: `String(n).padStart(2, "0")`. */
  function Pad2(n: nat): string {
    PadStart(Decimal(n), 2, '0')
  }

  /** `toISODate`: the year unpadded, month and day padded to two digits. */
  function ToISODate(d: Day): (s: string)
  {
    Decimal(d.year) + "-" + Pad2(d.month) + "-" + Pad2(d.day)
  }

  lemma {:induction false} Pad2Value(n: nat)
    requires n < 100
    ensures |Pad2(n)| == 2 && AllDigits(Pad2(n)) && DigitsValue(Pad2(n)) == n
  {
    DecimalLength(n);
    var p := Pad2(n);
    if n < 10 {
      assert p == ['0', DigitChar(n)];
      assert p[..1] == ['0'] && ['0'][..0] == [];
    } else {
      DecimalValue(n);
    }
  }

  lemma {:induction false} Pad2OfDigits(t: string)
    requires |t| == 2 && AllDigits(t) && DigitsValue(t) >= 1
    ensures Pad2(DigitsValue(t)) == t
  {
    assert t[..1][..0] == [];
    assert DigitsValue(t[..1]) == DigitValue(t[0]);
    assert DigitsValue(t) == DigitValue(t[0]) * 10 + DigitValue(t[1]);
    if t[0] == '0' {
      assert DigitsValue(t) == DigitValue(t[1]);
      assert Decimal(DigitsValue(t)) == [t[1]];
    } else {
      DecimalOfDigits(t);
    }
  }

  /** The three fields of a `full-date`, read back by position. */
  lemma {:induction false} IsoFields(y: string, m: string, d: string)
    requires |y| == 4 && |m| == 2 && |d| == 2
    ensures var s := y + "-" + m + "-" + d;
      |s| == 10 && s[0..4] == y && s[4] == '-' && s[5..7] == m && s[7] == '-' && s[8..10] == d
  {
  }

  /** A day with a four-digit year survives `toISODate` followed by parsing. */
  lemma {:induction false} IsoRoundTrip(d: Day)
    requires ValidDay(d) && 1000 <= d.year <= 9999
    ensures IsFullDate(ToISODate(d)) && ParseFullDate(ToISODate(d)) == d
  {
    var y, m, dd := Decimal(d.year), Pad2(d.month), Pad2(d.day);
    DecimalLength(d.year);
    DecimalValue(d.year);
    Pad2Value(d.month);
    Pad2Value(d.day);
    IsoFields(y, m, dd);
    var s := ToISODate(d);
    assert s == y + "-" + m + "-" + dd;
    assert DigitsValue(s[0..4]) == d.year;
    assert DigitsValue(s[5..7]) == d.month;
    assert DigitsValue(s[8..10]) == d.day;
  }

  /** A `full-date` whose year has no leading zero survives parsing followed by `toISODate`. */
  lemma {:induction false} IsoRoundTripString(s: string)
    requires IsFullDate(s) && s[0] != '0'
    ensures ToISODate(ParseFullDate(s)) == s
  {
    var y, m, d := s[0..4], s[5..7], s[8..10];
    assert ParseFullDate(s) == Day(DigitsValue(y), DigitsValue(m), DigitsValue(d));
    DecimalOfDigits(y);
    Pad2OfDigits(m);
    Pad2OfDigits(d);
    IsoSplit(s);
  }

  /** A string of length ten with hyphens at 4 and 7 is its three fields joined by hyphens. */
  lemma {:induction false} IsoSplit(s: string)
    requires |s| == 10 && s[4] == '-' && s[7] == '-'
    ensures s == s[0..4] + "-" + s[5..7] + "-" + s[8..10]
  {
  }

  /** Two strings built as `year-MM-DD` with two-character month and day fields agree field by field. */
  lemma {:induction false} IsoFieldsUnique(y: string, m: string, d: string, y': string, m': string, d': string)
    requires |m| == 2 && |d| == 2 && |m'| == 2 && |d'| == 2
    requires y + "-" + m + "-" + d == y' + "-" + m' + "-" + d'
    ensures y == y' && m == m' && d == d'
  {
    var s := y + "-" + m + "-" + d;
    var n := |y|;
    assert |s| == n + 6 && |s| == |y'| + 6;
    assert s[..n] == y && s[..n] == y';
    assert s[n + 1..n + 3] == m && s[n + 1..n + 3] == m';
    assert s[n + 4..] == d && s[n + 4..] == d';
  }

  /** Distinct days get distinct `toISODate` keys, so a map keyed by day is a map keyed by its ISO string. */
  lemma {:induction false} ToISODateInjective(a: Day, b: Day)
    requires ValidDay(a) && ValidDay(b) && ToISODate(a) == ToISODate(b)
    ensures a == b
  {
    Pad2Value(a.month);
    Pad2Value(a.day);
    Pad2Value(b.month);
    Pad2Value(b.day);
    IsoFieldsUnique(Decimal(a.year), Pad2(a.month), Pad2(a.day), Decimal(b.year), Pad2(b.month), Pad2(b.day));
    DecimalInjective(a.year, b.year);
  }

  // ---------------------------------------------------------------------------
  // Months: the `${year}-${monthIndex}` keys of the calendar's month selector
  // ---------------------------------------------------------------------------

  /** A month as the calendar selector keys it: `monthIndex` is 0-based, as `getMonth()` returns. */
  datatype MonthKey = MonthKey(year: nat, monthIndex: nat)

  function MonthOf(d: Day): (m: MonthKey)
    requires ValidDay(d)
    ensures m.monthIndex < 12
  {
    MonthKey(d.year, d.month - 1)
  }

  /** The selector's order: by year, then by month index. */
  predicate MonthLe(a: MonthKey, b: MonthKey) {
    a.year < b.year || (a.year == b.year && a.monthIndex <= b.monthIndex)
  }

  lemma {:induction false} MonthLeTotalOrder()
    ensures forall a: MonthKey :: MonthLe(a, a)
    ensures forall a: MonthKey, b: MonthKey :: MonthLe(a, b) || MonthLe(b, a)
    ensures forall a: MonthKey, b: MonthKey, c: MonthKey :: MonthLe(a, b) && MonthLe(b, c) ==> MonthLe(a, c)
    ensures forall a: MonthKey, b: MonthKey :: MonthLe(a, b) && MonthLe(b, a) ==> a == b
  {
  }

  // ---------------------------------------------------------------------------
  // The display formatter: en-US, short month, numeric day and year
  // ---------------------------------------------------------------------------

  function MonthAbbrev(m: nat): (r: string)
    requires 1 <= m <= 12
    ensures |r| == 3
  {
    ["Jan", "Feb", "Mar", "Apr", "May", "Jun", "Jul", "Aug", "Sep", "Oct", "Nov", "Dec"][m - 1]
  }

  /** Inverse of `MonthAbbrev`. */
  function MonthNumber(abbrev: string): nat {
    if abbrev == "Jan" then 1 else if abbrev == "Feb" then 2 else if abbrev == "Mar" then 3
    else if abbrev == "Apr" then 4 else if abbrev == "May" then 5 else if abbrev == "Jun" then 6
    else if abbrev == "Jul" then 7 else if abbrev == "Aug" then 8 else if abbrev == "Sep" then 9
    else if abbrev == "Oct" then 10 else if abbrev == "Nov" then 11 else if abbrev == "Dec" then 12
    else 0
  }

  lemma {:induction false} MonthAbbrevInverse(m: nat)
    requires 1 <= m <= 12
    ensures MonthNumber(MonthAbbrev(m)) == m
  {
  }

  /** `dateFormatter.format(day)`, e.g. "Mar 14, 2026". */
  function FormatDay(d: Day): (r: string)
    requires ValidDay(d)
    ensures |r| >= 8
    ensures forall i :: 0 <= i < |r| ==> r[i] as int < 128
  {
    MonthAbbrev(d.month) + " " + Decimal(d.day) + ", " + Decimal(d.year)
  }

  /** The month name and the text after the space that follows it. */
  lemma {:induction false} FormatDayParts(d: Day)
    requires ValidDay(d)
    ensures FormatDay(d)[..3] == MonthAbbrev(d.month)
    ensures FormatDay(d)[4..] == Decimal(d.day) + [','] + (" " + Decimal(d.year))
  {
    var mon, day, year := MonthAbbrev(d.month), Decimal(d.day), Decimal(d.year);
    var rest := day + [','] + (" " + year);
    assert FormatDay(d) == mon + [' '] + rest;
    assert (mon + [' '] + rest)[..3] == mon;
    assert (mon + [' '] + rest)[4..] == rest;
  }

  /** Distinct days are displayed differently. */
  lemma {:induction false} FormatDayInjective(a: Day, b: Day)
    requires ValidDay(a) && ValidDay(b) && FormatDay(a) == FormatDay(b)
    ensures a == b
  {
    FormatDayParts(a);
    FormatDayParts(b);
    MonthAbbrevInverse(a.month);
    MonthAbbrevInverse(b.month);
    SplitAtSeparator(Decimal(a.day), ',', " " + Decimal(a.year), Decimal(b.day), " " + Decimal(b.year));
    assert Decimal(a.year) == (" " + Decimal(a.year))[1..];
    assert Decimal(b.year) == (" " + Decimal(b.year))[1..];
    DecimalInjective(a.day, b.day);
    DecimalInjective(a.year, b.year);
  }

  // ---------------------------------------------------------------------------
  // Instants: the clock reading `new Date()` and `stripTime`
  // ---------------------------------------------------------------------------

  /** A local date-time: a day and the milliseconds elapsed since its midnight. */
  datatype Instant = Instant(day: Day, millis: nat)

  predicate InstantLe(a: Instant, b: Instant) {
    DayLt(a.day, b.day) || (a.day == b.day && a.millis <= b.millis)
  }

  /** The local midnight starting day `d`, as `new Date(`${iso}T00:00:00`)` gives. */
  function Midnight(d: Day): Instant {
    Instant(d, 0)
  }

  /** `stripTime`: the latest midnight not after `t`. */
  function StripTime(t: Instant): (r: Instant)
    ensures InstantLe(r, t)
    ensures exists d :: r == Midnight(d)
    ensures forall d :: InstantLe(Midnight(d), t) ==> InstantLe(Midnight(d), r)
  {
    assert Instant(t.day, 0) == Midnight(t.day);
    Instant(t.day, 0)
  }

  /** Comparing a midnight with a stripped clock reading compares days: the time of day never matters. */
  lemma {:induction false} MidnightNotBeforeStripped(d: Day, now: Instant)
    ensures InstantLe(StripTime(now), Midnight(d)) <==> DayLe(now.day, d)
  {
  }
}
