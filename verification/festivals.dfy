/**
 * The festival records of assets/js/data.js: the raw data, `expandInstances` (one record
 * per season), `buildFestivalMap` (slug-keyed lookup with a description fallback chain)
 * and `summarizeInstances` (dated seasons first, by start day; undated ones by year).
 */
module Festivals {
  import opened Wrappers
  import opened Text
  import opened Calendar
  import opened Labels
  import opened Slug
  import opened Sorting
  import opened Keyed

  // ---------------------------------------------------------------------------
  // The data file
  // ---------------------------------------------------------------------------

  /**
   * One season of a festival as the data file lists it. `city` and `venue_name` keep
   * whether they are absent or `null`, since the list page's search writes them into a
   * template literal; any other absent text field is "".
   */
  datatype Instance = Instance(
    year: nat,
    startDate: string,
    endDate: string,
    city: JsonText,
    venueName: JsonText,
    address: string,
    mapsUrl: string,
    websiteUrl: string,
    costNotes: string,
    description: string)

  /** A festival entry; a missing `name` is "", which every page skips. */
  datatype Festival = Festival(name: string, summary: string, description: string, instances: seq<Instance>)

  predicate WellDated(inst: Instance) {
    IsDateField(inst.startDate) && IsDateField(inst.endDate)
  }

  predicate WellFormed(f: Festival) {
    forall j :: 0 <= j < |f.instances| ==> WellDated(f.instances[j])
  }

  predicate AllWellFormed(events: seq<Festival>) {
    forall k :: 0 <= k < |events| ==> WellFormed(events[k])
  }

  /** The value of `a || b || ... || ""` on strings: the first non-empty one. */
  function FirstNonEmpty(xs: seq<string>): (r: string)
    ensures r == "" <==> forall i :: 0 <= i < |xs| ==> xs[i] == ""
    ensures r != "" ==> exists i :: 0 <= i < |xs| && xs[i] == r && forall j :: 0 <= j < i ==> xs[j] == ""
  {
    if xs == [] then "" else if xs[0] != "" then xs[0] else FirstNonEmpty(xs[1..])
  }

  /** A fallback nested inside another one is the same as one flat chain. */
  lemma {:induction false} FirstNonEmptyNested(a: string, b: string, c: string)
    ensures FirstNonEmpty([a, FirstNonEmpty([b, c])]) == FirstNonEmpty([a, b, c])
    ensures FirstNonEmpty([FirstNonEmpty([a, b]), c]) == FirstNonEmpty([a, b, c])
  {
    assert [a, b, c][1..] == [b, c];
    assert [b, c][1..] == [c];
    assert [a, b][1..] == [b];
    assert [a, FirstNonEmpty([b, c])][1..] == [FirstNonEmpty([b, c])];
    assert [FirstNonEmpty([a, b]), c][1..] == [c];
    assert [c][1..] == [] && [b][1..] == [];
    assert [FirstNonEmpty([b, c])][1..] == [];
  }

  // ---------------------------------------------------------------------------
  // expandInstances
  // ---------------------------------------------------------------------------

  /** A per-season record of the list page. */
  datatype Occurrence = Occurrence(
    slug: string,
    festivalName: string,
    festivalDescription: string,
    instanceDescription: string,
    year: nat,
    startDate: string,
    endDate: string,
    city: JsonText,
    venueName: JsonText,
    address: string,
    mapsUrl: string,
    websiteUrl: string,
    costNotes: string,
    start: Option<Day>,
    end: Option<Day>,
    hasExactDates: bool,
    dateRangeLabel: string)

  /** The record for one season of a named festival whose slug is `slug`. */
  function ExpandInstance(f: Festival, slug: string, inst: Instance): Occurrence
    requires WellDated(inst)
  {
    var base := FirstNonEmpty([f.summary, f.description]);
    var start := ParseDate(inst.startDate);
    var end := ParseDate(inst.endDate);
    Occurrence(
      slug, f.name,
      FirstNonEmpty([base, inst.description]),
      FirstNonEmpty([inst.description, base]),
      inst.year, inst.startDate, inst.endDate, inst.city, inst.venueName, inst.address,
      inst.mapsUrl, inst.websiteUrl, inst.costNotes,
      start, end, start.Some? && end.Some?,
      RangeLabel(start, end))
  }

  /**
   * The record's name, year, dates and label come from its festival and season; its two
   * descriptions are the fallback chains season, summary, description and summary,
   * description, season; its dates are exact exactly when both bounds parse.
   */
  lemma {:induction false} ExpandInstanceFields(f: Festival, slug: string, inst: Instance)
    requires WellDated(inst)
    ensures var r := ExpandInstance(f, slug, inst);
      && r.slug == slug && r.festivalName == f.name && r.year == inst.year
      && r.start == ParseDate(inst.startDate) && r.end == ParseDate(inst.endDate)
      && (r.hasExactDates <==> r.start.Some? && r.end.Some?)
      && r.dateRangeLabel == FormatDateRange(inst.startDate, inst.endDate)
      && r.instanceDescription == FirstNonEmpty([inst.description, f.summary, f.description])
      && r.festivalDescription == FirstNonEmpty([f.summary, f.description, inst.description])
  {
    FirstNonEmptyNested(inst.description, f.summary, f.description);
    FirstNonEmptyNested(f.summary, f.description, inst.description);
  }

  /** `festival.instances.map(...)`: one record per season, in order. */
  function ExpandSeasons(f: Festival, slug: string, insts: seq<Instance>): (r: seq<Occurrence>)
    requires forall j :: 0 <= j < |insts| ==> WellDated(insts[j])
    ensures |r| == |insts|
    ensures forall j :: 0 <= j < |insts| ==> r[j] == ExpandInstance(f, slug, insts[j])
  {
    if insts == [] then [] else [ExpandInstance(f, slug, insts[0])] + ExpandSeasons(f, slug, insts[1..])
  }

  /** The records of one festival: none without a name, otherwise one per season. */
  function ExpandFestival(f: Festival): (r: seq<Occurrence>)
    requires WellFormed(f)
    ensures |r| == if f.name != "" then |f.instances| else 0
  {
    if f.name != "" then ExpandSeasons(f, Slugify(f.name), f.instances) else []
  }

  const ExpandFestivalOf: Festival --> seq<Occurrence> := f requires WellFormed(f) => ExpandFestival(f)

  /** `expandInstances`: the festivals' records flattened in festival, then season, order. */
  function ExpandInstances(events: seq<Festival>): seq<Occurrence>
    requires AllWellFormed(events)
  {
    FlatMap(events, ExpandFestivalOf)
  }

  /** The number of seasons of the named festivals. */
  function NamedSeasonCount(events: seq<Festival>): nat {
    if events == [] then 0
    else (if events[0].name != "" then |events[0].instances| else 0) + NamedSeasonCount(events[1..])
  }

  /** One record per season of every named festival. */
  lemma {:induction false} ExpandCount(events: seq<Festival>)
    requires AllWellFormed(events)
    ensures |ExpandInstances(events)| == NamedSeasonCount(events)
  {
    if events != [] {
      ExpandCount(events[1..]);
    }
  }

  /** The expansion of a concatenation of festival lists is the concatenation of their expansions. */
  lemma {:induction false} ExpandAppend(a: seq<Festival>, b: seq<Festival>)
    requires AllWellFormed(a) && AllWellFormed(b)
    ensures AllWellFormed(a + b)
    ensures ExpandInstances(a + b) == ExpandInstances(a) + ExpandInstances(b)
  {
    FlatMapAppend(a, b, ExpandFestivalOf);
  }

  /** Every record comes from season `j` of a named festival `events[k]`, and carries its slug. */
  lemma {:induction false} ExpandedOrigin(events: seq<Festival>, n: nat) returns (k: nat, j: nat)
    requires AllWellFormed(events) && n < |ExpandInstances(events)|
    ensures k < |events| && events[k].name != "" && j < |events[k].instances|
    ensures ExpandInstances(events)[n] == ExpandInstance(events[k], Slugify(events[k].name), events[k].instances[j])
  {
    k, j := FlatMapOrigin(events, ExpandFestivalOf, n);
  }

  /** Hence every record carries the name of a named festival and the slug of that name. */
  lemma {:induction false} ExpandedSlugs(events: seq<Festival>, n: nat)
    requires AllWellFormed(events) && n < |ExpandInstances(events)|
    ensures exists k :: (0 <= k < |events| && events[k].name != "" &&
      ExpandInstances(events)[n].slug == Slugify(events[k].name) &&
      ExpandInstances(events)[n].festivalName == events[k].name)
  {
    var k, j := ExpandedOrigin(events, n);
    ExpandInstanceFields(events[k], Slugify(events[k].name), events[k].instances[j]);
  }

  // ---------------------------------------------------------------------------
  // buildFestivalMap and deriveFestivalDescription
  // ---------------------------------------------------------------------------

  /** A season as the festival map stores it: the raw fields plus the parsed dates and label. */
  datatype Season = Season(info: Instance, start: Option<Day>, end: Option<Day>, dateRangeLabel: string)

  /** A festival as the festival map stores it. */
  datatype FestivalEntry = FestivalEntry(
    name: string,
    summary: string,
    slug: string,
    description: string,
    seasons: seq<Season>)

  /** A season as the map stores it: the raw fields, the parsed bounds and their label. */
  function MapSeason(inst: Instance): (r: Season)
    requires WellDated(inst)
    ensures r.info == inst && r.start == ParseDate(inst.startDate) && r.end == ParseDate(inst.endDate)
    ensures r.dateRangeLabel == RangeLabel(r.start, r.end)
  {
    Season(inst, ParseDate(inst.startDate), ParseDate(inst.endDate), FormatDateRange(inst.startDate, inst.endDate))
  }

  /** `festival.instances.map(...)` of `buildFestivalMap`. */
  function MapSeasons(insts: seq<Instance>): (r: seq<Season>)
    requires forall j :: 0 <= j < |insts| ==> WellDated(insts[j])
    ensures |r| == |insts|
    ensures forall j :: 0 <= j < |insts| ==> r[j] == MapSeason(insts[j])
  {
    if insts == [] then [] else [MapSeason(insts[0])] + MapSeasons(insts[1..])
  }

  function Descriptions(insts: seq<Instance>): (r: seq<string>)
    ensures |r| == |insts| && forall j :: 0 <= j < |insts| ==> r[j] == insts[j].description
  {
    if insts == [] then [] else [insts[0].description] + Descriptions(insts[1..])
  }

  /** The comparator `(a, b) => b.length - a.length` as an order on lengths: longer first. */
  predicate LongerFirst(a: nat, b: nat) {
    a >= b
  }

  /** `deriveFestivalDescription`: the first element after sorting longest first, or "". */
  function RichestDescription(descs: seq<string>): string {
    var sorted := SortBy(descs, Utf16Length, LongerFirst);
    if sorted == [] then "" else sorted[0]
  }

  /** The longest description wins, and among equally long ones the first; none gives "". */
  lemma {:induction false} RichestIsFirstLongest(descs: seq<string>)
    ensures descs == [] ==> RichestDescription(descs) == ""
    ensures descs != [] ==> exists i :: (0 <= i < |descs| && RichestDescription(descs) == descs[i] &&
      (forall j :: 0 <= j < |descs| ==> Utf16Length(descs[j]) <= Utf16Length(descs[i])) &&
      (forall j :: 0 <= j < i ==> Utf16Length(descs[j]) < Utf16Length(descs[i])))
  {
    if descs != [] {
      var i := SortByHead(descs, Utf16Length, LongerFirst);
      forall j | 0 <= j < |descs|
        ensures Utf16Length(descs[j]) <= Utf16Length(descs[i])
        ensures j < i ==> Utf16Length(descs[j]) < Utf16Length(descs[i])
      {
        assert LongerFirst(Utf16Length(descs[i]), Utf16Length(descs[j]));
      }
      assert RichestDescription(descs) == descs[i];
    }
  }

  /** The map entry of a named festival. */
  function Entry(f: Festival): (r: FestivalEntry)
    requires WellFormed(f)
    ensures r.slug == Slugify(f.name) && r.name == f.name
    ensures r.description == FirstNonEmpty([f.summary, f.description, RichestDescription(Descriptions(f.instances))])
    ensures r.summary == f.summary
    ensures |r.seasons| == |f.instances|
    ensures forall j :: 0 <= j < |f.instances| ==> r.seasons[j] == MapSeason(f.instances[j])
  {
    FestivalEntry(
      f.name, f.summary, Slugify(f.name),
      FirstNonEmpty([f.summary, f.description, RichestDescription(Descriptions(f.instances))]),
      MapSeasons(f.instances))
  }

  predicate Named(f: Festival) {
    f.name != ""
  }

  function SlugOf(f: Festival): string {
    Slugify(f.name)
  }

  /** `Entry` as the value function of the map. */
  const EntryOf: Festival --> FestivalEntry := f requires WellFormed(f) => Entry(f)

  /** The map `buildFestivalMap` returns, as a fold of `map.set` over the named festivals. */
  function FestivalMapOf(events: seq<Festival>): map<string, FestivalEntry>
    requires AllWellFormed(events)
  {
    IndexBy(events, Named, SlugOf, EntryOf)
  }

  /** `buildFestivalMap`: the `reduce` over the festivals, written as the loop it performs. */
  method BuildFestivalMap(events: seq<Festival>) returns (m: map<string, FestivalEntry>)
    requires AllWellFormed(events)
    ensures m == FestivalMapOf(events)
  {
    m := map[];
    var k := 0;
    while k < |events|
      invariant 0 <= k <= |events|
      invariant m == FestivalMapOf(events[..k])
    {
      var f := events[k];
      assert events[..k + 1] == events[..k] + [f];
      IndexBySnoc(events[..k], f, Named, SlugOf, EntryOf);
      if f.name != "" {
        m := m[Slugify(f.name) := Entry(f)];
      }
      k := k + 1;
    }
    assert events[..k] == events;
  }

  /** The keys are exactly the slugs of the named festivals. */
  lemma {:induction false} FestivalMapKeys(events: seq<Festival>, slug: string)
    requires AllWellFormed(events)
    ensures slug in FestivalMapOf(events) <==>
      exists k :: 0 <= k < |events| && events[k].name != "" && Slugify(events[k].name) == slug
  {
    IndexByKeys(events, Named, SlugOf, EntryOf, slug);
  }

  /** A later festival whose name has the same slug replaces an earlier one. */
  lemma {:induction false} FestivalMapLastWins(events: seq<Festival>, k: nat)
    requires AllWellFormed(events) && k < |events| && events[k].name != ""
    requires forall j :: k < j < |events| && events[j].name != "" ==> Slugify(events[j].name) != Slugify(events[k].name)
    ensures Slugify(events[k].name) in FestivalMapOf(events)
    ensures FestivalMapOf(events)[Slugify(events[k].name)] == Entry(events[k])
  {
    IndexByLastWins(events, Named, SlugOf, EntryOf, k);
  }

  // ---------------------------------------------------------------------------
  // summarizeInstances
  // ---------------------------------------------------------------------------

  /** The order of `a.startDateObj - b.startDateObj` on optional days; no day sorts first. */
  predicate OptDayLe(a: Option<Day>, b: Option<Day>) {
    match (a, b)
    case (None, _) => true
    case (Some(_), None) => false
    case (Some(x), Some(y)) => DayLe(x, y)
  }

  lemma {:induction false} OptDayLeTotalPreorder()
    ensures TotalPreorder(OptDayLe)
  {
    DayLeTotalOrder();
  }

  lemma {:induction false} StrLeTotalPreorder()
    ensures TotalPreorder(StrLe)
  {
    StrLeTotalOrder();
  }

  function HasStart<T>(start: T -> Option<Day>): T -> bool {
    (x: T) => start(x).Some?
  }

  function NoStart<T>(start: T -> Option<Day>): T -> bool {
    (x: T) => start(x).None?
  }

  function YearText<T>(year: T -> nat): T -> string {
    (x: T) => Decimal(year(x))
  }

  /** The records with a start day, ordered by it. */
  function DatedByStart<T>(xs: seq<T>, start: T -> Option<Day>): (r: seq<T>)
    ensures |r| == |Filter(xs, HasStart(start))| && multiset(r) == multiset(Filter(xs, HasStart(start)))
    ensures forall i :: 0 <= i < |r| ==> start(r[i]).Some?
    ensures forall i, j :: 0 <= i < j < |r| ==> DayLe(start(r[i]).value, start(r[j]).value)
  {
    var r := SortBy(Filter(xs, HasStart(start)), start, OptDayLe);
    PermutationKeeps(r, Filter(xs, HasStart(start)), HasStart(start));
    OptDayLeTotalPreorder();
    SortBySorted(Filter(xs, HasStart(start)), start, OptDayLe);
    assert forall i, j :: 0 <= i < j < |r| ==> OptDayLe(start(r[i]), start(r[j]));
    r
  }

  /** The records without a start day, ordered by the decimal text of their year. */
  function UndatedByYear<T>(xs: seq<T>, start: T -> Option<Day>, year: T -> nat): (r: seq<T>)
    ensures multiset(r) == multiset(Filter(xs, NoStart(start)))
    ensures forall i :: 0 <= i < |r| ==> start(r[i]).None?
    ensures forall i, j :: 0 <= i < j < |r| ==> StrLe(Decimal(year(r[i])), Decimal(year(r[j])))
  {
    var r := SortBy(Filter(xs, NoStart(start)), YearText(year), StrLe);
    PermutationKeeps(r, Filter(xs, NoStart(start)), NoStart(start));
    StrLeTotalPreorder();
    SortBySorted(Filter(xs, NoStart(start)), YearText(year), StrLe);
    r
  }

  /**
   * `summarizeInstances` on records whose start day is `start` and season is `year`: the
   * records with a start day, sorted by it, then the others sorted by `String(year)`.
   */
  function Summarize<T>(xs: seq<T>, start: T -> Option<Day>, year: T -> nat): seq<T> {
    DatedByStart(xs, start) + UndatedByYear(xs, start, year)
  }

  /** The summary is a permutation of its input. */
  lemma {:induction false} SummarizePermutation<T>(xs: seq<T>, start: T -> Option<Day>, year: T -> nat)
    ensures multiset(Summarize(xs, start, year)) == multiset(xs)
  {
    FilterPartition(xs, HasStart(start), NoStart(start));
  }

  /**
   * The first `n` records are those with a start day, in start-day order; the rest have
   * none and are in year-text order.
   */
  lemma {:induction false} SummarizeOrdered<T>(xs: seq<T>, start: T -> Option<Day>, year: T -> nat)
    ensures var r := Summarize(xs, start, year);
      var n := |Filter(xs, HasStart(start))|;
      && n <= |r|
      && (forall i :: 0 <= i < n ==> start(r[i]).Some?)
      && (forall i :: n <= i < |r| ==> start(r[i]).None?)
      && (forall i, j :: 0 <= i < j < n ==> DayLe(start(r[i]).value, start(r[j]).value))
      && (forall i, j :: n <= i < j < |r| ==> StrLe(Decimal(year(r[i])), Decimal(year(r[j]))))
  {
    var a := DatedByStart(xs, start);
    var b := UndatedByYear(xs, start, year);
    assert Summarize(xs, start, year) == a + b;
    DatedThenUndated(a, b, start, year);
  }

  /** Concatenating a start-ordered dated list and a year-ordered undated list. */
  lemma {:induction false} DatedThenUndated<T>(a: seq<T>, b: seq<T>, start: T -> Option<Day>, year: T -> nat)
    requires forall i :: 0 <= i < |a| ==> start(a[i]).Some?
    requires forall i, j :: 0 <= i < j < |a| ==> DayLe(start(a[i]).value, start(a[j]).value)
    requires forall i :: 0 <= i < |b| ==> start(b[i]).None?
    requires forall i, j :: 0 <= i < j < |b| ==> StrLe(Decimal(year(b[i])), Decimal(year(b[j])))
    ensures forall i :: 0 <= i < |a| ==> start((a + b)[i]).Some?
    ensures forall i :: |a| <= i < |a + b| ==> start((a + b)[i]).None?
    ensures forall i, j :: 0 <= i < j < |a| ==> DayLe(start((a + b)[i]).value, start((a + b)[j]).value)
    ensures forall i, j :: |a| <= i < j < |a + b| ==> StrLe(Decimal(year((a + b)[i])), Decimal(year((a + b)[j])))
  {
    var r := a + b;
    forall i | |a| <= i < |r|
      ensures start(r[i]).None?
    {
      assert r[i] == b[i - |a|];
    }
    forall i, j | |a| <= i < j < |r|
      ensures StrLe(Decimal(year(r[i])), Decimal(year(r[j])))
    {
      assert r[i] == b[i - |a|] && r[j] == b[j - |a|];
    }
  }

  lemma {:induction false} WithKeyAppend<T, K>(a: seq<T>, b: seq<T>, key: T -> K, k: K)
    ensures WithKey(a + b, key, k) == WithKey(a, key, k) + WithKey(b, key, k)
  {
    if a == [] {
      assert a + b == b;
    } else {
      assert (a + b)[0] == a[0] && (a + b)[1..] == a[1..] + b;
      WithKeyAppend(a[1..], b, key, k);
    }
  }

  /** Selecting by a key that implies the filter's condition ignores the filter. */
  lemma {:induction false} WithKeyOfFilter<T, K>(s: seq<T>, p: T -> bool, key: T -> K, k: K)
    requires forall x :: key(x) == k ==> p(x)
    ensures WithKey(Filter(s, p), key, k) == WithKey(s, key, k)
  {
    if s != [] {
      WithKeyOfFilter(s[1..], p, key, k);
    }
  }

  lemma {:induction false} WithKeyNone<T, K>(s: seq<T>, key: T -> K, k: K)
    requires forall i :: 0 <= i < |s| ==> key(s[i]) != k
    ensures WithKey(s, key, k) == []
  {
    if s != [] {
      WithKeyNone(s[1..], key, k);
    }
  }

  /** Stability: records starting on the same day keep their input order. */
  lemma {:induction false} SummarizeStable<T>(xs: seq<T>, start: T -> Option<Day>, year: T -> nat, d: Day)
    ensures WithKey(Summarize(xs, start, year), start, Some(d)) == WithKey(xs, start, Some(d))
  {
    var a := DatedByStart(xs, start);
    var b := UndatedByYear(xs, start, year);
    OptDayLeTotalPreorder();
    WithKeyAppend(a, b, start, Some(d));
    SortByStable(Filter(xs, HasStart(start)), start, OptDayLe, Some(d));
    WithKeyOfFilter(xs, HasStart(start), start, Some(d));
    WithKeyNone(b, start, Some(d));
  }
}
