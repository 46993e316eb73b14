/**
 * The directory page, public/assets/js/list-page.js: the filter `updateFiltered` applies,
 * the month selection kept across re-filtering, the day-cell summary, and the page's
 * `state` object with the handlers that update it.
 */
module ListPage {
  import opened Wrappers
  import opened Text
  import opened Slug
  import opened Calendar
  import opened Labels
  import opened Sorting
  import opened Festivals
  import opened CalendarIndex

  // ---------------------------------------------------------------------------
  // The filter predicate of updateFiltered
  // ---------------------------------------------------------------------------

  /**
   * The text the search term is looked for in: the template literal writes an absent city
   * or venue name as "undefined" (and `null` as "null").
   */
  function SearchText(o: Occurrence): string {
    ToLower(Join([o.festivalName, o.instanceDescription, Interpolated(o.city), Interpolated(o.venueName)], " "))
  }

  /**
   * A season whose city is absent is found by the search "undefined", the text the template
   * literal writes in its place, and so is kept by that search with every year and past
   * season shown.
   */
  lemma {:induction false} MissingCitySearchable(o: Occurrence, now: Instant)
    requires o.city.Undefined?
    ensures Contains(SearchText(o), "undefined")
    ensures Keep(o, "undefined", "all", true, now)
  {
    var u := Interpolated(o.city);
    var x := o.festivalName + " " + o.instanceDescription + " ";
    var y := " " + Interpolated(o.venueName);
    JoinFour(o.festivalName, o.instanceDescription, u, Interpolated(o.venueName), " ");
    assert o.festivalName + " " + (o.instanceDescription + " " + (u + " " + Interpolated(o.venueName))) == x + u + y;
    ToLowerAppend(x + u, y);
    ToLowerAppend(x, u);
    LowerUndefined(u);
    ContainsInfix(ToLower(x), u, ToLower(y));
  }

  lemma {:induction false} JoinFour(a: string, b: string, c: string, d: string, sep: string)
    ensures Join([a, b, c, d], sep) == a + sep + (b + sep + (c + sep + d))
  {
    assert [a, b, c, d][1..] == [b, c, d];
    assert [b, c, d][1..] == [c, d];
    assert [c, d][1..] == [d];
    assert Join([c, d], sep) == c + sep + d;
    assert Join([b, c, d], sep) == b + sep + (c + sep + d);
  }

  lemma {:induction false} LowerUndefined(s: string)
    requires s == "undefined"
    ensures ToLower(s) == s
  {
    ToLowerFixed(s);
  }

  /** `Boolean(instance.startDateObj || instance.endDateObj)`. */
  predicate HasConcreteDates(o: Occurrence) {
    o.start.Some? || o.end.Some?
  }

  /** Whether the filter keeps record `o`; an empty year selection counts as "all". */
  predicate Keep(o: Occurrence, search: string, year: string, showPast: bool, now: Instant) {
    var y := if year == "" then "all" else year;
    var matchesYear := y == "all" || Decimal(o.year) == y;
    var matchesSearch := search == "" || Contains(SearchText(o), search);
    if !matchesYear || !matchesSearch then false
    else if showPast then true
    else if !HasConcreteDates(o) then true
    else IsUpcoming(o.start, o.end, now)
  }

  function KeepFn(search: string, year: string, showPast: bool, now: Instant): Occurrence -> bool {
    (o: Occurrence) => Keep(o, search, year, showPast, now)
  }

  /** `state.instances.filter(...)`. */
  function FilteredOf(xs: seq<Occurrence>, search: string, year: string, showPast: bool, now: Instant): (r: seq<Occurrence>)
    ensures |r| <= |xs|
    ensures forall i :: 0 <= i < |r| ==> r[i] in xs && Keep(r[i], search, year, showPast, now)
    ensures forall o :: o in xs && Keep(o, search, year, showPast, now) ==> o in r
  {
    Filter(xs, KeepFn(search, year, showPast, now))
  }

  /**
   * With past seasons hidden, a dated record is kept exactly when it matches the year and
   * search and its effective start (the start, else the end) is today or later.
   */
  lemma {:induction false} KeepDated(o: Occurrence, search: string, year: string, now: Instant)
    requires HasConcreteDates(o)
    ensures Keep(o, search, year, false, now) <==>
      Keep(o, search, year, true, now) && DayLe(now.day, EffStart(o).value)
  {
    UpcomingByDay(o.start, o.end, now);
  }

  /** Undated records are never hidden as past. */
  lemma {:induction false} KeepUndated(o: Occurrence, search: string, year: string, showPast: bool, now: Instant)
    requires !HasConcreteDates(o)
    ensures Keep(o, search, year, showPast, now) <==> Keep(o, search, year, true, now)
  {
  }

  /**
   * Showing past seasons never removes a record: the upcoming-only list is the full list
   * filtered once more, so it is no longer.
   */
  lemma {:induction false} ShowPastWidens(xs: seq<Occurrence>, search: string, year: string, now: Instant)
    ensures FilteredOf(xs, search, year, false, now) == Filter(FilteredOf(xs, search, year, true, now), KeepFn(search, year, false, now))
    ensures |FilteredOf(xs, search, year, false, now)| <= |FilteredOf(xs, search, year, true, now)|
  {
    FilterMonotone(xs, KeepFn(search, year, false, now), KeepFn(search, year, true, now));
  }

  /** `hay.includes(needle)` holds for every prefix of a contained needle. */
  lemma {:induction false} ContainsPrefix(hay: string, p: string, q: string)
    requires IsPrefix(p, q) && Contains(hay, q)
    ensures Contains(hay, p)
  {
    if IsPrefix(q, hay) {
      assert hay[..|p|] == hay[..|q|][..|p|];
    } else {
      ContainsPrefix(hay[1..], p, q);
    }
  }

  /** Typing more of a search term never brings a record back. */
  lemma {:induction false} LongerSearchNarrows(xs: seq<Occurrence>, p: string, q: string, year: string, showPast: bool, now: Instant)
    requires IsPrefix(p, q)
    ensures FilteredOf(xs, q, year, showPast, now) == Filter(FilteredOf(xs, p, year, showPast, now), KeepFn(q, year, showPast, now))
  {
    forall o | Keep(o, q, year, showPast, now)
      ensures Keep(o, p, year, showPast, now)
    {
      if q != "" && p != "" {
        ContainsPrefix(SearchText(o), p, q);
      }
    }
    FilterMonotone(xs, KeepFn(q, year, showPast, now), KeepFn(p, year, showPast, now));
  }

  /** Selecting "all" years removes only the year constraint. */
  lemma {:induction false} AllYearsWidens(xs: seq<Occurrence>, search: string, year: string, showPast: bool, now: Instant)
    ensures FilteredOf(xs, search, year, showPast, now) == Filter(FilteredOf(xs, search, "all", showPast, now), KeepFn(search, year, showPast, now))
  {
    FilterMonotone(xs, KeepFn(search, year, showPast, now), KeepFn(search, "all", showPast, now));
  }

  // ---------------------------------------------------------------------------
  // The selected month
  // ---------------------------------------------------------------------------

  /** `prepareCalendarData`: a selected month that is no longer listed falls back to the first. */
  function KeepSelection(prev: Option<MonthKey>, months: seq<MonthKey>): Option<MonthKey> {
    if prev.Some? && prev.value !in months then (if |months| > 0 then Some(months[0]) else None)
    else prev
  }

  /** `syncMonthSelect`; without the `#month-select` element it changes nothing. */
  function SyncSelection(sel: Option<MonthKey>, months: seq<MonthKey>, hasMonthSelect: bool): Option<MonthKey> {
    if !hasMonthSelect then sel
    else if |months| == 0 then None
    else if sel.None? then Some(months[0])
    else sel
  }

  function SelectedAfter(prev: Option<MonthKey>, months: seq<MonthKey>, hasMonthSelect: bool): Option<MonthKey> {
    SyncSelection(KeepSelection(prev, months), months, hasMonthSelect)
  }

  /**
   * After re-filtering, a selected month is always a listed one; a listed previous choice is
   * kept, otherwise the first month is chosen. With the selector present, nothing is
   * selected exactly when no month is listed; without it, an unset choice stays unset.
   */
  lemma {:induction false} SelectionRule(prev: Option<MonthKey>, months: seq<MonthKey>, hasMonthSelect: bool)
    ensures var r := SelectedAfter(prev, months, hasMonthSelect);
      && (r.Some? ==> r.value in months)
      && (prev.Some? && prev.value in months ==> r == prev)
      && (prev.Some? && prev.value !in months && |months| > 0 ==> r == Some(months[0]))
      && (hasMonthSelect ==> (r.None? <==> |months| == 0))
      && (hasMonthSelect && prev.None? && |months| > 0 ==> r == Some(months[0]))
      && (!hasMonthSelect && prev.None? ==> r.None?)
  {
  }

  // ---------------------------------------------------------------------------
  // renderDayEvents
  // ---------------------------------------------------------------------------

  /** The pills of a day cell: the first three names, then "+N more" for the rest. */
  function DayEventPills(xs: seq<Occurrence>): (pills: seq<string>)
    ensures |xs| <= 3 ==> |pills| == |xs|
    ensures |xs| > 3 ==> |pills| == 4 && pills[3] == "+" + Decimal(|xs| - 3) + " more"
    ensures forall i :: 0 <= i < |pills| && i < 3 && i < |xs| ==> pills[i] == xs[i].festivalName
  {
    var top := if |xs| <= 3 then xs else xs[..3];
    var more := |xs| - |top|;
    var names := seq(|top|, i requires 0 <= i < |top| => top[i].festivalName);
    names + (if more > 0 then ["+" + Decimal(more) + " more"] else [])
  }

  // ---------------------------------------------------------------------------
  // The page state
  // ---------------------------------------------------------------------------

  function StartOf(o: Occurrence): Option<Day> {
    o.start
  }

  function YearOf(o: Occurrence): nat {
    o.year
  }

  /** `summarizeInstances` keeps the records, so their bounds stay valid. */
  lemma {:induction false} SummarizedDatesValid(xs: seq<Occurrence>)
    requires AllDatesValid(xs)
    ensures AllDatesValid(Summarize(xs, StartOf, YearOf))
  {
    SummarizePermutation(xs, StartOf, YearOf);
    PermutationKeeps(Summarize(xs, StartOf, YearOf), xs, DatesValid);
  }

  /** `summarizeInstances(expandInstances(data))`: every record valid when every festival is. */
  method ListedInstances(events: seq<Festival>) returns (xs: seq<Occurrence>)
    requires AllWellFormed(events)
    ensures xs == Summarize(ExpandInstances(events), StartOf, YearOf) && AllDatesValid(xs)
  {
    ExpandedDatesValid(events);
    SummarizedDatesValid(ExpandInstances(events));
    xs := Summarize(ExpandInstances(events), StartOf, YearOf);
  }

  class ListPageState {
    var instances: seq<Occurrence>
    var filtered: seq<Occurrence>
    var months: seq<MonthKey>
    var calendarMap: map<Day, seq<Occurrence>>
    var selectedMonthKey: Option<MonthKey>
    var search: string
    var year: string
    var showPast: bool

    ghost predicate Valid()
      reads this
    {
      AllDatesValid(instances) && AllDatesValid(filtered)
    }

    /** The calendar fields hold the index of `xs`, months in strictly increasing order. */
    ghost predicate CalendarOf(xs: seq<Occurrence>)
      reads this
    {
      && (forall d :: d in calendarMap <==> Touched(xs, d))
      && (forall d :: d in calendarMap ==> calendarMap[d] == Bucket(xs, d))
      && (forall m :: m in months <==> MonthTouched(xs, m))
      && (forall i, j :: 0 <= i < j < |months| ==> MonthLe(months[i], months[j]) && months[i] != months[j])
    }

    /** The initial `state`. */
    constructor()
      ensures Valid()
      ensures instances == [] && filtered == [] && months == [] && calendarMap == map[]
      ensures selectedMonthKey == None && search == "" && year == "all" && !showPast
    {
      instances, filtered, months, calendarMap := [], [], [], map[];
      selectedMonthKey := None;
      search, year, showPast := "", "all", false;
    }

    /** `syncMonthSelect`. */
    method SyncMonthSelect(hasMonthSelect: bool)
      modifies this
      ensures selectedMonthKey == SyncSelection(old(selectedMonthKey), months, hasMonthSelect)
      ensures instances == old(instances) && filtered == old(filtered) && months == old(months)
      ensures calendarMap == old(calendarMap) && search == old(search) && year == old(year) && showPast == old(showPast)
    {
      if !hasMonthSelect {
        return;
      }
      if |months| == 0 {
        selectedMonthKey := None;
        return;
      }
      if selectedMonthKey.None? {
        selectedMonthKey := Some(months[0]);
      }
    }

    /** `prepareCalendarData` followed by its `syncMonthSelect`. */
    method PrepareCalendarData(hasMonthSelect: bool)
      requires Valid()
      modifies this
      ensures Valid() && CalendarOf(filtered)
      ensures selectedMonthKey == SelectedAfter(old(selectedMonthKey), months, hasMonthSelect)
      ensures instances == old(instances) && filtered == old(filtered)
      ensures search == old(search) && year == old(year) && showPast == old(showPast)
    {
      var dm, ms := BuildCalendar(filtered);
      SortMonthsStrict(ms);
      months := SortMonths(ms);
      calendarMap := dm;
      if selectedMonthKey.Some? && selectedMonthKey.value !in months {
        selectedMonthKey := if |months| > 0 then Some(months[0]) else None;
      }
      SyncMonthSelect(hasMonthSelect);
    }

    /** `updateFiltered`, at clock reading `now`. */
    method UpdateFiltered(now: Instant, hasMonthSelect: bool)
      requires Valid()
      modifies this
      ensures Valid() && filtered == FilteredOf(instances, search, year, showPast, now)
      ensures CalendarOf(filtered)
      ensures selectedMonthKey == SelectedAfter(old(selectedMonthKey), months, hasMonthSelect)
      ensures instances == old(instances) && search == old(search) && year == old(year) && showPast == old(showPast)
    {
      filtered := FilteredOf(instances, search, year, showPast, now);
      PrepareCalendarData(hasMonthSelect);
    }

    /** The load step: `summarizeInstances(expandInstances(data))`, then `updateFiltered`. */
    method Load(events: seq<Festival>, now: Instant, hasMonthSelect: bool)
      requires Valid() && AllWellFormed(events)
      modifies this
      ensures Valid() && instances == Summarize(ExpandInstances(events), StartOf, YearOf)
      ensures filtered == FilteredOf(instances, search, year, showPast, now) && CalendarOf(filtered)
      ensures search == old(search) && year == old(year) && showPast == old(showPast)
      ensures selectedMonthKey == SelectedAfter(old(selectedMonthKey), months, hasMonthSelect)
    {
      var xs := ListedInstances(events);
      instances := xs;
      UpdateFiltered(now, hasMonthSelect);
    }

    /** The search box's `input` handler. */
    method SetSearch(value: string, now: Instant, hasMonthSelect: bool)
      requires Valid()
      modifies this
      ensures Valid() && search == ToLower(Trim(value)) && year == old(year) && showPast == old(showPast)
      ensures instances == old(instances) && filtered == FilteredOf(instances, search, year, showPast, now)
      ensures CalendarOf(filtered)
      ensures selectedMonthKey == SelectedAfter(old(selectedMonthKey), months, hasMonthSelect)
    {
      search := ToLower(Trim(value));
      UpdateFiltered(now, hasMonthSelect);
    }

    /** The year selector's `change` handler. */
    method SetYear(value: string, now: Instant, hasMonthSelect: bool)
      requires Valid()
      modifies this
      ensures Valid() && year == value && search == old(search) && showPast == old(showPast)
      ensures instances == old(instances) && filtered == FilteredOf(instances, search, year, showPast, now)
      ensures CalendarOf(filtered)
      ensures selectedMonthKey == SelectedAfter(old(selectedMonthKey), months, hasMonthSelect)
    {
      year := value;
      UpdateFiltered(now, hasMonthSelect);
    }

    /** The "show past" checkbox's `change` handler. */
    method SetShowPast(checked: bool, now: Instant, hasMonthSelect: bool)
      requires Valid()
      modifies this
      ensures Valid() && showPast == checked && search == old(search) && year == old(year)
      ensures instances == old(instances) && filtered == FilteredOf(instances, search, year, showPast, now)
      ensures CalendarOf(filtered)
      ensures selectedMonthKey == SelectedAfter(old(selectedMonthKey), months, hasMonthSelect)
    {
      showPast := checked;
      UpdateFiltered(now, hasMonthSelect);
    }

    /** The month selector's `change` handler: `event.target.value || null`. */
    method SelectMonth(value: Option<MonthKey>)
      modifies this
      ensures selectedMonthKey == value
      ensures instances == old(instances) && filtered == old(filtered) && months == old(months)
      ensures calendarMap == old(calendarMap) && search == old(search) && year == old(year) && showPast == old(showPast)
    {
      selectedMonthKey := value;
    }
  }
}
