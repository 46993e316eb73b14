/**
 * Date fields and their labels, from assets/js/data.js: `parseDate`, `formatDate`,
 * `formatDateRange`, `isUpcoming` and `formatCity`.
 */
module Labels {
  import opened Wrappers
  import opened Text
  import opened Calendar

  /** A date field as the data file holds it: absent (""), the sentinel "TBD", or a full-date. */
  predicate IsDateField(value: string) {
    value == "" || value == "TBD" || IsFullDate(value)
  }

  /** `parseDate`: no day for an absent or "TBD" value, otherwise the day the full-date names. */
  function ParseDate(value: string): (r: Option<Day>)
    requires IsDateField(value)
    ensures r.None? <==> value == "" || value == "TBD"
    ensures r.Some? ==> ValidDay(r.value)
  {
    if value == "" || value == "TBD" then None else Some(ParseFullDate(value))
  }

  /** A full-date with a four-digit year parses to the day `toISODate` writes back as the same text. */
  lemma {:induction false} ParseDateIso(value: string)
    requires IsFullDate(value) && value[0] != '0'
    ensures ParseDate(value).Some? && ToISODate(ParseDate(value).value) == value
  {
    assert value != "" && value != "TBD" by {
      assert |value| == 10;
    }
    IsoRoundTripString(value);
  }

  /** `formatDate`: the formatted day, or "TBD" when there is none. */
  function FormatDate(value: string): (r: string)
    requires IsDateField(value)
    ensures r == "TBD" <==> ParseDate(value).None?
  {
    match ParseDate(value)
    case None => "TBD"
    case Some(d) => FormatDay(d)
  }

  /** The en dash between the two ends of a range. */
  const EnDash: char := '\U{2013}'

  /** `formatDateRange` on parsed bounds: five cases. */
  function RangeLabel(start: Option<Day>, end: Option<Day>): string
    requires start.Some? ==> ValidDay(start.value)
    requires end.Some? ==> ValidDay(end.value)
  {
    match (start, end)
    case (None, None) => "Dates TBD"
    case (Some(s), None) => "Starts " + FormatDay(s)
    case (None, Some(e)) => "Ends " + FormatDay(e)
    case (Some(s), Some(e)) =>
      if s == e then FormatDay(s) else FormatDay(s) + " " + [EnDash] + " " + FormatDay(e)
  }

  function FormatDateRange(startValue: string, endValue: string): string
    requires IsDateField(startValue) && IsDateField(endValue)
  {
    RangeLabel(ParseDate(startValue), ParseDate(endValue))
  }

  // ---------------------------------------------------------------------------
  // The range label determines the bounds it was made from
  // ---------------------------------------------------------------------------

  /** Which of the five cases produced a label, read from its first characters and the dash. */
  datatype RangeShape = NoBounds | StartOnly | EndOnly | SingleDay | TwoDays

  predicate IsMonthAbbrev(s: string) {
    exists m :: 1 <= m <= 12 && MonthAbbrev(m) == s
  }

  lemma {:induction false} FormatDayHead(d: Day)
    requires ValidDay(d)
    ensures FormatDay(d)[..3] == MonthAbbrev(d.month) && IsMonthAbbrev(FormatDay(d)[..3])
    ensures EnDash !in FormatDay(d)
  {
  }

  function ShapeOf(shown: string): RangeShape {
    if |shown| >= 3 && shown[..3] == "Dat" then NoBounds
    else if |shown| >= 3 && shown[..3] == "Sta" then StartOnly
    else if |shown| >= 3 && shown[..3] == "End" then EndOnly
    else if EnDash in shown then TwoDays
    else SingleDay
  }

  lemma {:induction false} NotMonthAbbrevs()
    ensures !IsMonthAbbrev("Dat") && !IsMonthAbbrev("Sta") && !IsMonthAbbrev("End")
  {
    forall m | 1 <= m <= 12
      ensures MonthAbbrev(m) != "Dat" && MonthAbbrev(m) != "Sta" && MonthAbbrev(m) != "End"
    {
    }
  }

  lemma {:induction false} ShapeOfLabel(start: Option<Day>, end: Option<Day>)
    requires start.Some? ==> ValidDay(start.value)
    requires end.Some? ==> ValidDay(end.value)
    ensures ShapeOf(RangeLabel(start, end)) ==
      match (start, end)
      case (None, None) => NoBounds
      case (Some(_), None) => StartOnly
      case (None, Some(_)) => EndOnly
      case (Some(s), Some(e)) => if s == e then SingleDay else TwoDays
  {
    NotMonthAbbrevs();
    var shown := RangeLabel(start, end);
    match (start, end)
    case (None, None) =>
    case (Some(s), None) =>
      assert shown[..3] == "Sta";
    case (None, Some(e)) =>
      assert shown[..3] == "End";
    case (Some(s), Some(e)) =>
      FormatDayHead(s);
      assert shown[..3] == FormatDay(s)[..3];
      if s == e {
        assert EnDash !in shown;
      } else {
        assert shown[|FormatDay(s)| + 1] == EnDash;
      }
  }

  /** The text on either side of " – " is recovered when neither left side holds a dash. */
  lemma {:induction false} SplitAroundDash(x: string, y: string, x': string, y': string)
    requires EnDash !in x && EnDash !in x'
    requires x + " " + [EnDash] + " " + y == x' + " " + [EnDash] + " " + y'
    ensures x == x' && y == y'
  {
    assert x + " " + [EnDash] + " " + y == (x + " ") + [EnDash] + (" " + y);
    assert x' + " " + [EnDash] + " " + y' == (x' + " ") + [EnDash] + (" " + y');
    SplitAtSeparator(x + " ", EnDash, " " + y, x' + " ", " " + y');
    assert x == (x + " ")[..|x|] && x' == (x' + " ")[..|x'|];
    assert y == (" " + y)[1..] && y' == (" " + y')[1..];
  }

  lemma {:induction false} TwoDaysInjective(a: Day, c: Day, b: Day, d: Day)
    requires ValidDay(a) && ValidDay(b) && ValidDay(c) && ValidDay(d)
    requires FormatDay(a) + " " + [EnDash] + " " + FormatDay(c) == FormatDay(b) + " " + [EnDash] + " " + FormatDay(d)
    ensures a == b && c == d
  {
    FormatDayHead(a);
    FormatDayHead(b);
    SplitAroundDash(FormatDay(a), FormatDay(c), FormatDay(b), FormatDay(d));
    FormatDayInjective(a, b);
    FormatDayInjective(c, d);
  }

  lemma {:induction false} PrefixedInjective(prefix: string, a: Day, b: Day)
    requires ValidDay(a) && ValidDay(b) && prefix + FormatDay(a) == prefix + FormatDay(b)
    ensures a == b
  {
    assert FormatDay(a) == (prefix + FormatDay(a))[|prefix|..];
    assert FormatDay(b) == (prefix + FormatDay(b))[|prefix|..];
    FormatDayInjective(a, b);
  }

  /**
   * Distinct parsed bounds never share a label (an equal start and end is one day):
   * the label shown for a season identifies its dates.
   */
  lemma {:induction false} RangeLabelInjective(s1: Option<Day>, e1: Option<Day>, s2: Option<Day>, e2: Option<Day>)
    requires s1.Some? ==> ValidDay(s1.value)
    requires e1.Some? ==> ValidDay(e1.value)
    requires s2.Some? ==> ValidDay(s2.value)
    requires e2.Some? ==> ValidDay(e2.value)
    requires RangeLabel(s1, e1) == RangeLabel(s2, e2)
    ensures s1 == s2 && e1 == e2
  {
    ShapeOfLabel(s1, e1);
    ShapeOfLabel(s2, e2);
    match (s1, e1)
    case (None, None) =>
    case (Some(a), None) =>
      PrefixedInjective("Starts ", a, s2.value);
    case (None, Some(a)) =>
      PrefixedInjective("Ends ", a, e2.value);
    case (Some(a), Some(c)) =>
      if a == c {
        FormatDayInjective(a, s2.value);
      } else {
        TwoDaysInjective(a, c, s2.value, e2.value);
      }
  }

  /** Two "TBD" bounds read "Dates TBD". */
  lemma {:induction false} BothTbd()
    ensures FormatDateRange("TBD", "TBD") == "Dates TBD"
  {
  }

  // ---------------------------------------------------------------------------
  // isUpcoming and formatCity
  // ---------------------------------------------------------------------------

  /**
   * `isUpcoming`: the start (or, without one, the end) is a midnight no earlier than
   * today's; with neither bound the occurrence is not upcoming.
   */
  predicate IsUpcoming(start: Option<Day>, end: Option<Day>, now: Instant) {
    if start.Some? then InstantLe(StripTime(now), Midnight(start.value))
    else if end.Some? then InstantLe(StripTime(now), Midnight(end.value))
    else false
  }

  /** The time of day of the clock reading never matters: only today's date does. */
  lemma {:induction false} UpcomingByDay(start: Option<Day>, end: Option<Day>, now: Instant)
    ensures IsUpcoming(start, end, now) <==>
      (start.Some? && DayLe(now.day, start.value)) || (start.None? && end.Some? && DayLe(now.day, end.value))
  {
    if start.Some? {
      MidnightNotBeforeStripped(start.value, now);
    } else if end.Some? {
      MidnightNotBeforeStripped(end.value, now);
    }
  }

  /** `formatCity`: `city || "Texas"`. */
  function FormatCity(city: JsonText): (r: string)
    ensures r != ""
    ensures city.Str? && city.value != "" ==> r == city.value
    ensures city.Undefined? || city.Null? || city == Str("") ==> r == "Texas"
  {
    if city.Str? && city.value != "" then city.value else "Texas"
  }
}
