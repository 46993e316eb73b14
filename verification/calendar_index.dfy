/**
 * The calendar data of public/assets/js/list-page.js (`prepareCalendarData`): every
 * filtered record is registered under each day from its effective start to its effective
 * end, at most once per (slug, season) and day, and every month touched is listed once.
 * The per-day lists are keyed by `Day` rather than by the `YYYY-MM-DD` text
 * `toISODate` makes of it; `Calendar.ToISODateInjective` shows the two keyings agree.
 */
module CalendarIndex {
  import opened Wrappers
  import opened Calendar
  import opened Sorting
  import opened Keyed
  import opened Slug
  import opened Festivals

  // ---------------------------------------------------------------------------
  // Which days a record covers
  // ---------------------------------------------------------------------------

  /** `startDateObj || endDateObj`. */
  function EffStart(o: Occurrence): Option<Day> {
    if o.start.Some? then o.start else o.end
  }

  /** `endDateObj || start`. */
  function EffEnd(o: Occurrence): Option<Day> {
    if o.end.Some? then o.end else EffStart(o)
  }

  /** Parsed bounds are real calendar days, as `parseDate` produces them. */
  predicate DatesValid(o: Occurrence) {
    (o.start.Some? ==> ValidDay(o.start.value)) && (o.end.Some? ==> ValidDay(o.end.value))
  }

  predicate AllDatesValid(xs: seq<Occurrence>) {
    forall i :: 0 <= i < |xs| ==> DatesValid(xs[i])
  }

  /** The records `expandInstances` makes have valid bounds. */
  lemma {:induction false} ExpandedDatesValid(events: seq<Festival>)
    requires AllWellFormed(events)
    ensures AllDatesValid(ExpandInstances(events))
  {
    forall n | 0 <= n < |ExpandInstances(events)|
      ensures DatesValid(ExpandInstances(events)[n])
    {
      var k, j := ExpandedOrigin(events, n);
      ExpandInstanceFields(events[k], Slugify(events[k].name), events[k].instances[j]);
    }
  }

  /** Day `d` is one the walk from the effective start to the effective end visits. */
  predicate Covers(o: Occurrence, d: Day) {
    EffStart(o).Some? && ValidDay(d) && DayLe(EffStart(o).value, d) && DayLe(d, EffEnd(o).value)
  }

  /** A record with neither bound is never placed in the calendar. */
  lemma {:induction false} NoBoundsNoDays(o: Occurrence, d: Day)
    requires o.start.None? && o.end.None?
    ensures !Covers(o, d)
  {
  }

  /** A record with one bound is placed under that day alone. */
  lemma {:induction false} SingleBoundOneDay(o: Occurrence, d: Day)
    requires o.start.None? != o.end.None?
    requires DatesValid(o)
    ensures Covers(o, d) <==> Some(d) == (if o.start.Some? then o.start else o.end)
  {
    DayLeTotalOrder();
  }

  /** A record with both bounds is placed under exactly the days between them, inclusive. */
  lemma {:induction false} BothBoundsRange(o: Occurrence, d: Day)
    requires o.start.Some? && o.end.Some? && ValidDay(d)
    ensures Covers(o, d) <==> DayLe(o.start.value, d) && DayLe(d, o.end.value)
  {
  }

  /** A record whose end precedes its start is placed under no day. */
  lemma {:induction false} InvertedNoDays(o: Occurrence, d: Day)
    requires o.start.Some? && o.end.Some? && DayLt(o.end.value, o.start.value)
    ensures !Covers(o, d)
  {
    DayLeTotalOrder();
  }

  /** Some record of `xs` covers `d`. */
  predicate Touched(xs: seq<Occurrence>, d: Day) {
    exists i :: 0 <= i < |xs| && Covers(xs[i], d)
  }

  // ---------------------------------------------------------------------------
  // The list registered under one day
  // ---------------------------------------------------------------------------

  /** The de-duplication key `item.slug === instance.slug && item.year === instance.year`. */
  datatype SlugYear = SlugYear(slug: string, year: nat)

  function KeyOf(o: Occurrence): SlugYear {
    SlugYear(o.slug, o.year)
  }

  function CoversDay(d: Day): Occurrence -> bool {
    (o: Occurrence) => Covers(o, d)
  }

  /** The list under day `d` once every record of `xs` has been walked, in order. */
  function Bucket(xs: seq<Occurrence>, d: Day): seq<Occurrence> {
    Dedup(Filter(xs, CoversDay(d)), KeyOf)
  }

  /** Walking one more record changes the list of a day it covers by one registration. */
  lemma {:induction false} BucketSnoc(xs: seq<Occurrence>, x: Occurrence, d: Day)
    ensures Bucket(xs + [x], d) == if Covers(x, d) then Register(Bucket(xs, d), x, KeyOf) else Bucket(xs, d)
  {
    FilterAppend(xs, [x], CoversDay(d));
    var f := Filter(xs, CoversDay(d));
    if Covers(x, d) {
      assert Filter([x], CoversDay(d)) == [x];
      assert (f + [x])[..|f|] == f;
    } else {
      assert Filter([x], CoversDay(d)) == [];
      assert f + [] == f;
    }
  }

  lemma FilterNonEmpty(xs: seq<Occurrence>, d: Day)
    ensures Filter(xs, CoversDay(d)) != [] <==> Touched(xs, d)
  {
    if Touched(xs, d) {
      var i :| 0 <= i < |xs| && Covers(xs[i], d);
      assert xs[i] in xs && CoversDay(d)(xs[i]);
    }
  }

  /** A day has a non-empty list exactly when some record covers it. */
  lemma {:induction false} BucketNonEmpty(xs: seq<Occurrence>, d: Day)
    ensures Bucket(xs, d) != [] <==> Touched(xs, d)
  {
    var f := Filter(xs, CoversDay(d));
    FilterNonEmpty(xs, d);
    if f != [] {
      DedupKeys(f, KeyOf, KeyOf(f[0]));
    }
  }

  /**
   * The list under `d` holds records of `xs` covering `d`; it holds one record for each
   * (slug, season) covering `d` and no (slug, season) twice.
   */
  lemma {:induction false} BucketContents(xs: seq<Occurrence>, d: Day)
    ensures forall j :: 0 <= j < |Bucket(xs, d)| ==> Bucket(xs, d)[j] in xs && Covers(Bucket(xs, d)[j], d)
    ensures forall i :: 0 <= i < |xs| && Covers(xs[i], d) ==> HasKey(Bucket(xs, d), KeyOf, KeyOf(xs[i]))
    ensures forall j1, j2 :: 0 <= j1 < j2 < |Bucket(xs, d)| ==> KeyOf(Bucket(xs, d)[j1]) != KeyOf(Bucket(xs, d)[j2])
  {
    var f := Filter(xs, CoversDay(d));
    var r := Bucket(xs, d);
    DedupFirstOccurrences(f, KeyOf);
    DedupDistinct(f, KeyOf);
    forall j | 0 <= j < |r|
      ensures r[j] in xs && Covers(r[j], d)
    {
      var i := FirstIndex(f, KeyOf, KeyOf(r[j]));
      assert CoversDay(d)(f[i]);
    }
    forall i | 0 <= i < |xs| && Covers(xs[i], d)
      ensures HasKey(r, KeyOf, KeyOf(xs[i]))
    {
      assert xs[i] in xs && CoversDay(d)(xs[i]);
      var t :| 0 <= t < |f| && f[t] == xs[i];
      DedupKeys(f, KeyOf, KeyOf(xs[i]));
    }
  }

  // ---------------------------------------------------------------------------
  // The months touched
  // ---------------------------------------------------------------------------

  /** Month `m` holds a day that some record of `xs` covers. */
  ghost predicate MonthTouched(xs: seq<Occurrence>, m: MonthKey) {
    exists d :: ValidDay(d) && Touched(xs, d) && MonthOf(d) == m
  }

  /** The index `(dateMap, months)` the walk has built once it has walked every record of `xs`. */
  ghost predicate Indexes(dm: map<Day, seq<Occurrence>>, ms: seq<MonthKey>, xs: seq<Occurrence>) {
    && (forall d :: d in dm <==> Touched(xs, d))
    && (forall d :: d in dm ==> dm[d] == Bucket(xs, d))
    && (forall m :: m in ms <==> MonthTouched(xs, m))
    && Distinct(ms)
  }

  /** A position of the walk over `x`'s days from the effective start: the days before `cursor`. */
  predicate Walked(x: Occurrence, cursor: Day, d: Day) {
    Covers(x, d) && DayLt(d, cursor)
  }

  /** The walk's measure: a number that grows with the day. */
  function DayOrdinal(d: Day): nat {
    d.year * 372 + d.month * 31 + d.day
  }

  lemma {:induction false} DayOrdinalMonotone(a: Day, b: Day)
    requires ValidDay(a) && ValidDay(b) && DayLt(a, b)
    ensures DayOrdinal(a) < DayOrdinal(b)
  {
    if a.year < b.year {
      assert a.month * 31 + a.day < 372 + b.month * 31 + b.day;
      assert a.year * 372 + 372 <= b.year * 372;
    }
  }

  lemma {:induction false} WalkStep(x: Occurrence, cursor: Day, d: Day)
    requires ValidDay(cursor) && Covers(x, cursor)
    ensures Walked(x, NextDay(cursor), d) <==> Walked(x, cursor, d) || d == cursor
  {
    DayLeTotalOrder();
  }

  /** Lists the month of `cursor` unless it is listed (`if (!months.has(monthKey)) months.set(...)`). */
  method RecordMonth(ms: seq<MonthKey>, ghost xs: seq<Occurrence>, x: Occurrence, cursor: Day) returns (ms': seq<MonthKey>)
    requires ValidDay(cursor) && Covers(x, cursor)
    requires forall m :: m in ms <==> MonthTouched(xs, m) || exists d :: ValidDay(d) && Walked(x, cursor, d) && MonthOf(d) == m
    requires Distinct(ms)
    ensures forall m :: m in ms' <==> MonthTouched(xs, m) || exists d :: ValidDay(d) && Walked(x, NextDay(cursor), d) && MonthOf(d) == m
    ensures Distinct(ms')
  {
    forall d
      ensures Walked(x, NextDay(cursor), d) <==> Walked(x, cursor, d) || d == cursor
    {
      WalkStep(x, cursor, d);
    }
    var monthKey := MonthOf(cursor);
    ms' := ms;
    if monthKey !in ms {
      ms' := ms + [monthKey];
    }
  }

  /** Registers `x` in the list of day `cursor`, creating the list when the day has none. */
  method RecordDay(dm: map<Day, seq<Occurrence>>, ghost xs: seq<Occurrence>, x: Occurrence, cursor: Day)
    returns (dm': map<Day, seq<Occurrence>>)
    requires ValidDay(cursor) && Covers(x, cursor)
    requires forall d :: d in dm <==> Touched(xs, d) || Walked(x, cursor, d)
    requires forall d :: d in dm ==> dm[d] == if Walked(x, cursor, d) then Bucket(xs + [x], d) else Bucket(xs, d)
    ensures forall d :: d in dm' <==> Touched(xs, d) || Walked(x, NextDay(cursor), d)
    ensures forall d :: d in dm' ==> dm'[d] == if Walked(x, NextDay(cursor), d) then Bucket(xs + [x], d) else Bucket(xs, d)
  {
    forall d
      ensures Walked(x, NextDay(cursor), d) <==> Walked(x, cursor, d) || d == cursor
    {
      WalkStep(x, cursor, d);
    }
    var list: seq<Occurrence> := [];
    if cursor in dm {
      list := dm[cursor];
    }
    assert !Walked(x, cursor, cursor);
    BucketNonEmpty(xs, cursor);
    assert list == Bucket(xs, cursor);
    BucketSnoc(xs, x, cursor);
    dm' := dm[cursor := Register(list, x, KeyOf)];
  }

  /** How walking one more record `x` changes what the index must hold. */
  lemma {:induction false} SpanSnoc(xs: seq<Occurrence>, x: Occurrence)
    ensures forall d :: Touched(xs + [x], d) <==> Touched(xs, d) || Covers(x, d)
    ensures forall d :: Bucket(xs + [x], d) == if Covers(x, d) then Register(Bucket(xs, d), x, KeyOf) else Bucket(xs, d)
    ensures forall m :: MonthTouched(xs + [x], m) <==> MonthTouched(xs, m) || exists d :: ValidDay(d) && Covers(x, d) && MonthOf(d) == m
  {
    forall d
      ensures Touched(xs + [x], d) <==> Touched(xs, d) || Covers(x, d)
      ensures Bucket(xs + [x], d) == if Covers(x, d) then Register(Bucket(xs, d), x, KeyOf) else Bucket(xs, d)
    {
      BucketSnoc(xs, x, d);
      if Touched(xs + [x], d) {
        var i :| 0 <= i < |xs + [x]| && Covers((xs + [x])[i], d);
        if i < |xs| {
          assert (xs + [x])[i] == xs[i];
        }
      }
      if Touched(xs, d) {
        var i :| 0 <= i < |xs| && Covers(xs[i], d);
        assert (xs + [x])[i] == xs[i];
      }
      assert (xs + [x])[|xs|] == x;
    }
  }

  /** The `while (cursor <= last)` walk over the days of a record with a bound. */
  method WalkSpan(dm: map<Day, seq<Occurrence>>, ms: seq<MonthKey>, ghost xs: seq<Occurrence>, x: Occurrence)
    returns (dm': map<Day, seq<Occurrence>>, ms': seq<MonthKey>)
    requires DatesValid(x) && EffStart(x).Some? && Indexes(dm, ms, xs)
    ensures forall d :: d in dm' <==> Touched(xs, d) || Covers(x, d)
    ensures forall d :: d in dm' ==> dm'[d] == if Covers(x, d) then Bucket(xs + [x], d) else Bucket(xs, d)
    ensures forall m :: m in ms' <==> MonthTouched(xs, m) || exists d :: ValidDay(d) && Covers(x, d) && MonthOf(d) == m
    ensures Distinct(ms')
  {
    dm', ms' := dm, ms;
    var cursor := EffStart(x).value;
    var last := EffEnd(x).value;
    while DayLe(cursor, last)
      invariant ValidDay(cursor) && DayLe(EffStart(x).value, cursor)
      invariant forall d :: d in dm' <==> Touched(xs, d) || Walked(x, cursor, d)
      invariant forall d :: d in dm' ==> dm'[d] == if Walked(x, cursor, d) then Bucket(xs + [x], d) else Bucket(xs, d)
      invariant forall m :: m in ms' <==> MonthTouched(xs, m) || exists d :: ValidDay(d) && Walked(x, cursor, d) && MonthOf(d) == m
      invariant Distinct(ms')
      decreases DayOrdinal(last) + 1 - DayOrdinal(cursor)
    {
      ms' := RecordMonth(ms', xs, x, cursor);
      dm' := RecordDay(dm', xs, x, cursor);
      DayOrdinalMonotone(cursor, NextDay(cursor));
      if cursor != last {
        DayOrdinalMonotone(cursor, last);
      }
      cursor := NextDay(cursor);
    }
    forall d
      ensures Walked(x, cursor, d) <==> Covers(x, d)
    {
      DayLeTotalOrder();
    }
  }

  /** One record's turn in the `forEach` of `prepareCalendarData`. */
  method AddSpan(dm: map<Day, seq<Occurrence>>, ms: seq<MonthKey>, ghost xs: seq<Occurrence>, x: Occurrence)
    returns (dm': map<Day, seq<Occurrence>>, ms': seq<MonthKey>)
    requires DatesValid(x) && Indexes(dm, ms, xs)
    ensures Indexes(dm', ms', xs + [x])
  {
    SpanSnoc(xs, x);
    if EffStart(x).None? {
      dm', ms' := dm, ms;
    } else {
      dm', ms' := WalkSpan(dm, ms, xs, x);
    }
  }

  /**
   * The two maps `prepareCalendarData` fills: after the walk over every record of `xs`, a day
   * has a list exactly when some record covers it, that list is `Bucket(xs, d)`, and the
   * months listed are those holding a covered day, each once.
   */
  method BuildCalendar(xs: seq<Occurrence>) returns (dm: map<Day, seq<Occurrence>>, ms: seq<MonthKey>)
    requires AllDatesValid(xs)
    ensures Indexes(dm, ms, xs)
  {
    dm, ms := map[], [];
    var k := 0;
    while k < |xs|
      invariant 0 <= k <= |xs|
      invariant Indexes(dm, ms, xs[..k])
    {
      assert xs[..k + 1] == xs[..k] + [xs[k]];
      dm, ms := AddSpan(dm, ms, xs[..k], xs[k]);
      k := k + 1;
    }
    assert xs[..k] == xs;
  }

  // ---------------------------------------------------------------------------
  // The month list, sorted
  // ---------------------------------------------------------------------------

  function MonthId(m: MonthKey): MonthKey {
    m
  }

  /** `Array.from(months.values()).sort(...)`: by year, then by month index. */
  function SortMonths(ms: seq<MonthKey>): seq<MonthKey> {
    SortBy(ms, MonthId, MonthLe)
  }

  /** Sorting a list of distinct months gives the same months in strictly increasing order. */
  lemma {:induction false} SortMonthsStrict(ms: seq<MonthKey>)
    requires Distinct(ms)
    ensures forall m :: m in SortMonths(ms) <==> m in ms
    ensures forall i, j :: 0 <= i < j < |SortMonths(ms)| ==>
      MonthLe(SortMonths(ms)[i], SortMonths(ms)[j]) && SortMonths(ms)[i] != SortMonths(ms)[j]
  {
    var r := SortMonths(ms);
    MonthLeTotalOrder();
    SortBySorted(ms, MonthId, MonthLe);
    PermutationDistinct(r, ms);
    forall m
      ensures m in r <==> m in ms
    {
      assert m in r <==> m in multiset(r);
    }
  }
}
