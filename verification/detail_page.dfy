/**
 * The festival detail page, public/assets/js/detail-page.js: the seasons of the festival
 * named by the address (`enrichInstances`, then `summarizeInstances`), the season shown
 * first (`pickDefaultInstanceIndex`), the season picker (`parseInt` and a bounds check)
 * and the notices under a season.
 */
module DetailPage {
  import opened Wrappers
  import opened Text
  import opened Calendar
  import opened Labels
  import opened Links
  import opened Sorting
  import opened Festivals
  import opened Routing

  // ---------------------------------------------------------------------------
  // enrichInstances
  // ---------------------------------------------------------------------------

  /** A season as the detail page keeps it. */
  datatype DetailInstance = DetailInstance(
    slug: string,
    festivalName: string,
    festivalDescription: string,
    year: nat,
    startDate: string,
    endDate: string,
    start: Option<Day>,
    end: Option<Day>,
    dateRangeLabel: string,
    city: JsonText,
    venueName: JsonText,
    address: string,
    websiteUrl: string,
    mapsUrl: string,
    costNotes: string,
    description: string)

  /** One season of a map entry with the festival's identity attached. */
  function Enrich(e: FestivalEntry, s: Season): DetailInstance {
    DetailInstance(
      e.slug, e.name, e.description, s.info.year, s.info.startDate, s.info.endDate,
      s.start, s.end, s.dateRangeLabel, s.info.city, s.info.venueName, s.info.address,
      s.info.websiteUrl, s.info.mapsUrl, s.info.costNotes,
      FirstNonEmpty([s.info.description, e.description]))
  }

  /** A season's own description wins; the festival's is the fallback. */
  lemma {:induction false} EnrichDescription(e: FestivalEntry, s: Season)
    ensures s.info.description != "" ==> Enrich(e, s).description == s.info.description
    ensures s.info.description == "" ==> Enrich(e, s).description == e.description
    ensures Enrich(e, s).slug == e.slug && Enrich(e, s).start == s.start && Enrich(e, s).end == s.end
  {
    assert [s.info.description, e.description][1..] == [e.description];
    assert [e.description][1..] == [];
    assert FirstNonEmpty([e.description]) == e.description;
  }

  /** `enrichInstances`: one record per season, in the order of the seasons. */
  function EnrichInstances(e: FestivalEntry): (r: seq<DetailInstance>)
    ensures |r| == |e.seasons|
    ensures forall j :: 0 <= j < |r| ==> r[j] == Enrich(e, e.seasons[j])
  {
    EnrichSeasons(e, e.seasons)
  }

  function EnrichSeasons(e: FestivalEntry, seasons: seq<Season>): (r: seq<DetailInstance>)
    ensures |r| == |seasons|
    ensures forall j :: 0 <= j < |r| ==> r[j] == Enrich(e, seasons[j])
  {
    if seasons == [] then [] else [Enrich(e, seasons[0])] + EnrichSeasons(e, seasons[1..])
  }

  function SeasonStart(x: DetailInstance): Option<Day> {
    x.start
  }

  function SeasonYear(x: DetailInstance): nat {
    x.year
  }

  /** `summarizeInstances(enrichInstances(festival))`: the seasons the page offers. */
  function SeasonsOf(e: FestivalEntry): seq<DetailInstance> {
    Summarize(EnrichInstances(e), SeasonStart, SeasonYear)
  }

  /**
   * The page offers every season of the festival exactly once, the dated ones first in
   * start-day order.
   */
  lemma {:induction false} SeasonsOfPermutation(e: FestivalEntry)
    ensures |SeasonsOf(e)| == |e.seasons|
    ensures multiset(SeasonsOf(e)) == multiset(EnrichInstances(e))
    ensures forall i, j :: 0 <= i < j < |SeasonsOf(e)| && SeasonsOf(e)[j].start.Some? ==>
      SeasonsOf(e)[i].start.Some? && DayLe(SeasonsOf(e)[i].start.value, SeasonsOf(e)[j].start.value)
  {
    var xs := EnrichInstances(e);
    SummarizePermutation(xs, SeasonStart, SeasonYear);
    assert |SeasonsOf(e)| == |multiset(SeasonsOf(e))|;
    SummarizeOrdered(xs, SeasonStart, SeasonYear);
  }

  // ---------------------------------------------------------------------------
  // pickDefaultInstanceIndex
  // ---------------------------------------------------------------------------

  /** The `findIndex` test: the season starts (or, without a start, ends) today or later. */
  predicate Upcoming(x: DetailInstance, now: Instant) {
    IsUpcoming(x.start, x.end, now)
  }

  /** `findIndex` of the upcoming test: the first upcoming season, or -1. */
  function FindUpcoming(xs: seq<DetailInstance>, now: Instant): (r: int)
    ensures -1 <= r < |xs|
    ensures r >= 0 ==> Upcoming(xs[r], now) && forall j :: 0 <= j < r ==> !Upcoming(xs[j], now)
    ensures r == -1 <==> forall j :: 0 <= j < |xs| ==> !Upcoming(xs[j], now)
  {
    if xs == [] then -1
    else if Upcoming(xs[0], now) then 0
    else
      var k := FindUpcoming(xs[1..], now);
      if k == -1 then -1 else k + 1
  }

  /**
   * `pickDefaultInstanceIndex`: the first season that is upcoming at `now`, or 0 when none
   * is; a valid index whenever there is a season.
   */
  function PickDefaultInstanceIndex(xs: seq<DetailInstance>, now: Instant): (r: nat)
    ensures xs != [] ==> r < |xs|
  {
    var k := FindUpcoming(xs, now);
    if k >= 0 then k else 0
  }

  /** The default season is the first upcoming one, or the first of all when none is upcoming. */
  lemma {:induction false} PickDefaultIsFirstUpcoming(xs: seq<DetailInstance>, now: Instant)
    ensures (exists j :: 0 <= j < |xs| && Upcoming(xs[j], now)) ==>
      var r := PickDefaultInstanceIndex(xs, now);
      r < |xs| && Upcoming(xs[r], now) && forall j :: 0 <= j < r ==> !Upcoming(xs[j], now)
    ensures (forall j :: 0 <= j < |xs| ==> !Upcoming(xs[j], now)) ==> PickDefaultInstanceIndex(xs, now) == 0
  {
    var k := FindUpcoming(xs, now);
  }

  /** Only the date of `now` matters: a season is upcoming iff its first bound is today or later. */
  lemma {:induction false} UpcomingByDate(x: DetailInstance, now: Instant)
    ensures Upcoming(x, now) <==>
      (x.start.Some? && DayLe(now.day, x.start.value)) || (x.start.None? && x.end.Some? && DayLe(now.day, x.end.value))
  {
    UpcomingByDay(x.start, x.end, now);
  }

  // ---------------------------------------------------------------------------
  // Number.parseInt(value, 10)
  // ---------------------------------------------------------------------------

  /** The longest prefix of decimal digits. */
  function LeadingDigits(s: string): (r: string)
    ensures r <= s && AllDigits(r)
    ensures r == s || !IsDigit(s[|r|])
  {
    if s != [] && IsDigit(s[0]) then [s[0]] + LeadingDigits(s[1..]) else []
  }

  /** The text after an optional leading sign. */
  function Unsigned(t: string): (r: string)
    ensures r == t || (t != [] && r == t[1..])
  {
    if t != [] && (t[0] == '-' || t[0] == '+') then t[1..] else t
  }

  /**
   * `Number.parseInt(value, 10)`: leading whitespace skipped, an optional sign, then the
   * longest run of digits; no digit there gives NaN, modelled as `None`.
   */
  function ParseInt10(s: string): (r: Option<int>)
    ensures (forall i :: 0 <= i < |s| ==> !IsDigit(s[i])) ==> r.None?
  {
    var t := TrimStart(s);
    var digits := LeadingDigits(Unsigned(t));
    if digits == [] then None
    else
      assert IsDigit(s[|s| - |Unsigned(t)|]) by {
        assert digits[0] == Unsigned(t)[0];
        assert Unsigned(t) == t[|t| - |Unsigned(t)|..];
      }
      if t[0] == '-' then Some(0 - DigitsValue(digits)) else Some(DigitsValue(digits))
  }

  /** The option written for season `i` carries `String(i)`, which parses back to `i`. */
  lemma {:induction false} ParseIntDecimal(n: nat, rest: string)
    requires rest == [] || !IsDigit(rest[0])
    ensures ParseInt10(Decimal(n) + rest) == Some(n)
  {
    var d := Decimal(n);
    LeadingDigitsOf(d, rest);
    DecimalValue(n);
    assert (d + rest)[0] == d[0];
    ParseIntOfDigits(d + rest, d);
  }

  /** Text that starts with a digit parses as its leading run of digits. */
  lemma {:induction false} ParseIntOfDigits(s: string, d: string)
    requires s != [] && IsDigit(s[0]) && LeadingDigits(s) == d
    ensures ParseInt10(s) == Some(DigitsValue(d))
  {
    assert !IsJsSpace(s[0]) && s[0] != '-' && s[0] != '+';
    assert d != [];
  }

  lemma {:induction false} LeadingDigitsOf(d: string, rest: string)
    requires AllDigits(d) && (rest == [] || !IsDigit(rest[0]))
    ensures LeadingDigits(d + rest) == d
  {
    if d != [] {
      assert (d + rest)[1..] == d[1..] + rest;
      LeadingDigitsOf(d[1..], rest);
    } else {
      assert d + rest == rest;
    }
  }

  /** A minus sign negates: `parseInt("-2")` is -2, which no season index equals. */
  lemma {:induction false} ParseIntNegative(n: nat)
    ensures ParseInt10("-" + Decimal(n)) == Some(0 - n)
  {
    var d := Decimal(n);
    LeadingDigitsOf(d, []);
    assert d + [] == d;
    DecimalValue(n);
    ParseIntOfNegated(d);
  }

  /** A minus sign before a run of digits negates its value. */
  lemma {:induction false} ParseIntOfNegated(d: string)
    requires d != [] && LeadingDigits(d) == d
    ensures ParseInt10("-" + d) == Some(0 - DigitsValue(d))
  {
    var s := "-" + d;
    assert s[0] == '-' && !IsJsSpace(s[0]) && s[1..] == d;
  }

  // ---------------------------------------------------------------------------
  // The notices of renderInstance
  // ---------------------------------------------------------------------------

  /** The two sentences `renderInstance` may push onto `notices`. */
  datatype Notice = DatesPending | MapPending

  function NoticeText(n: Notice): string {
    match n
    case DatesPending => "Exact dates are still pending\U{2014}keep an eye on the official site for updates."
    case MapPending => "Map links will appear once locations are finalized."
  }

  /** The `notices` array of `renderInstance`. */
  function Notices(startDate: string, mapsUrl: string, isWebUrl: string -> bool): (r: seq<Notice>)
    ensures DatesPending in r <==> startDate == "" || startDate == "TBD"
    ensures MapPending in r <==> !IsMeaningfulUrl(mapsUrl, isWebUrl)
    ensures |r| <= 2 && (|r| == 2 ==> r == [DatesPending, MapPending])
  {
    var dates := if startDate == "" || startDate == "TBD" then [DatesPending] else [];
    var maps := if !IsMeaningfulUrl(mapsUrl, isWebUrl) then [MapPending] else [];
    dates + maps
  }

  /** The notices as the text pushed onto the array. */
  function NoticeTexts(r: seq<Notice>): (t: seq<string>)
    ensures |t| == |r| && forall i :: 0 <= i < |r| ==> t[i] == NoticeText(r[i])
  {
    seq(|r|, i requires 0 <= i < |r| => NoticeText(r[i]))
  }

  /** `noticeEl.hidden`: the notice is hidden exactly when there is nothing to say. */
  predicate NoticeHidden(x: DetailInstance, isWebUrl: string -> bool) {
    Notices(x.startDate, x.mapsUrl, isWebUrl) == []
  }

  /** The notice is hidden iff the season has a start date and a meaningful map link. */
  lemma {:induction false} NoticeHiddenRule(x: DetailInstance, isWebUrl: string -> bool)
    ensures NoticeHidden(x, isWebUrl) <==>
      x.startDate != "" && x.startDate != "TBD" && IsMeaningfulUrl(x.mapsUrl, isWebUrl)
  {
    var r := Notices(x.startDate, x.mapsUrl, isWebUrl);
    if r != [] {
      assert r[0] in r;
    }
  }

  /** A season whose dates read "TBD" always shows the dates notice (the text of `notices.join(" ")`). */
  lemma {:induction false} TbdSeasonNotice(x: DetailInstance, isWebUrl: string -> bool)
    requires x.startDate == "TBD"
    ensures !NoticeHidden(x, isWebUrl)
    ensures IsPrefix(NoticeText(DatesPending), Join(NoticeTexts(Notices(x.startDate, x.mapsUrl, isWebUrl)), " "))
  {
    var r := Notices(x.startDate, x.mapsUrl, isWebUrl);
    assert r[0] == DatesPending;
    JoinHead(NoticeTexts(r), " ");
  }

  lemma {:induction false} JoinHead(parts: seq<string>, sep: string)
    requires parts != []
    ensures IsPrefix(parts[0], Join(parts, sep))
  {
  }

  // ---------------------------------------------------------------------------
  // The page state
  // ---------------------------------------------------------------------------

  /** The seasons a festival's page offers and the one selected when it opens. */
  method DefaultSelection(entry: FestivalEntry, now: Instant) returns (seasons: seq<DetailInstance>, index: nat)
    ensures seasons == SeasonsOf(entry) && index == PickDefaultInstanceIndex(seasons, now)
    ensures seasons != [] ==> index < |seasons|
    ensures seasons == [] ==> index == 0
  {
    seasons := SeasonsOf(entry);
    index := PickDefaultInstanceIndex(seasons, now);
  }

  /** `pageState` of the detail page. */
  class DetailPageState {
    var festivals: Option<map<string, FestivalEntry>>
    var festival: Option<FestivalEntry>
    var instances: seq<DetailInstance>
    var currentIndex: nat

    /**
     * No festival, no seasons; and the current season exists whenever there is one. That the
     * seasons are those of the current festival is what `RenderSlug` and `Load` promise.
     */
    ghost predicate Valid()
      reads this
    {
      && (festival.None? ==> instances == [])
      && (instances != [] ==> currentIndex < |instances|)
      && (instances == [] ==> currentIndex == 0)
    }

    constructor()
      ensures Valid()
      ensures festivals.None? && festival.None? && instances == [] && currentIndex == 0
    {
      festivals := None;
      festival := None;
      instances := [];
      currentIndex := 0;
    }

    /**
     * `renderSlug`: with no identifier or no data nothing happens; an unknown identifier
     * shows an error and keeps the state; a known one makes its festival current, with its
     * summarised seasons and the default season selected.
     */
    method RenderSlug(slug: string, now: Instant) returns (outcome: RenderOutcome)
      requires Valid()
      modifies this
      ensures Valid() && festivals == old(festivals)
      ensures outcome == Ignored <==> slug == "" || festivals.None?
      ensures outcome == NotFound <==> slug != "" && festivals.Some? && slug !in festivals.value
      ensures outcome != Shown ==>
        festival == old(festival) && instances == old(instances) && currentIndex == old(currentIndex)
      ensures outcome == Shown ==>
        && festivals.Some? && slug in festivals.value
        && festival == Some(festivals.value[slug])
        && instances == SeasonsOf(festivals.value[slug])
        && currentIndex == PickDefaultInstanceIndex(instances, now)
    {
      if slug == "" || festivals.None? {
        return Ignored;
      }
      if slug !in festivals.value {
        return NotFound;
      }
      var seasons, index := DefaultSelection(festivals.value[slug], now);
      Show(festivals.value[slug], seasons, index);
      return Shown;
    }

    /** The three assignments of `renderSlug` for a known festival. */
    method Show(entry: FestivalEntry, seasons: seq<DetailInstance>, index: nat)
      requires seasons != [] ==> index < |seasons|
      requires seasons == [] ==> index == 0
      modifies this
      ensures Valid() && festivals == old(festivals)
      ensures festival == Some(entry) && instances == seasons && currentIndex == index
    {
      festival := Some(entry);
      instances := seasons;
      currentIndex := index;
    }

    /**
     * The `DOMContentLoaded` handler once the data is in: without an identifier on a page
     * with a hero it stops early; otherwise it builds the festival map and renders.
     */
    method Load(events: seq<Festival>, slug: string, hasHero: bool, now: Instant) returns (outcome: RenderOutcome)
      requires Valid() && AllWellFormed(events)
      modifies this
      ensures Valid()
      ensures slug == "" && hasHero ==>
        outcome == Ignored && festivals == old(festivals) && festival == old(festival)
        && instances == old(instances) && currentIndex == old(currentIndex)
      ensures !(slug == "" && hasHero) ==> festivals == Some(FestivalMapOf(events))
      ensures outcome == Shown <==> slug != "" && slug in FestivalMapOf(events)
      ensures !(slug == "" && hasHero) ==> (outcome == NotFound <==> slug != "" && slug !in FestivalMapOf(events))
      ensures outcome == Shown ==>
        && festival == Some(FestivalMapOf(events)[slug])
        && instances == SeasonsOf(FestivalMapOf(events)[slug])
        && currentIndex == PickDefaultInstanceIndex(instances, now)
      ensures outcome != Shown ==>
        festival == old(festival) && instances == old(instances) && currentIndex == old(currentIndex)
    {
      if slug == "" && hasHero {
        return Ignored;
      }
      var m := BuildFestivalMap(events);
      festivals := Some(m);
      outcome := RenderSlug(slug, now);
    }

    /**
     * The season picker's `change` handler: a value that does not parse, or names no season,
     * is ignored; otherwise that season becomes the current one.
     */
    method SelectSeason(value: string)
      requires Valid()
      modifies this
      ensures Valid()
      ensures festivals == old(festivals) && festival == old(festival) && instances == old(instances)
      ensures var p := ParseInt10(value);
        if p.Some? && 0 <= p.value < |instances| then currentIndex == p.value
        else currentIndex == old(currentIndex)
    {
      var p := ParseInt10(value);
      if p.None? || !(0 <= p.value < |instances|) {
        return;
      }
      currentIndex := p.value;
    }
  }
}
