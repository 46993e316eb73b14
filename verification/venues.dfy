/**
 * The venue directory, public/assets/js/venues-page.js: venue typing by tags
 * (`getVenueType`, the same table in public/assets/js/venue-detail.js), the records the
 * directory lists, the city/type/search filter and the sorted, de-duplicated filter options.
 */
module Venues {
  import opened Wrappers
  import opened Text
  import opened Slug
  import opened Sorting
  import opened Keyed

  // ---------------------------------------------------------------------------
  // The data file
  // ---------------------------------------------------------------------------

  /** One listing of a venue; an absent text field is "". */
  datatype VenueInstance = VenueInstance(
    city: string,
    venueName: string,
    description: string,
    address: string,
    websiteUrl: string,
    mapsUrl: string,
    costNotes: string)

  /** A venue of the data file; missing `tags` are the empty list (`tags || []`). */
  datatype Venue = Venue(name: string, tags: seq<string>, instances: seq<VenueInstance>)

  // ---------------------------------------------------------------------------
  // getVenueType
  // ---------------------------------------------------------------------------

  /** The nine tags that name a venue type, and their labels. */
  const TypeMap: map<string, string> := map[
    "listening_room" := "Listening Room",
    "dance_hall" := "Dance Hall",
    "winery" := "Winery",
    "wine_bar" := "Wine Bar",
    "brewery" := "Brewery",
    "bar" := "Bar",
    "saloon" := "Saloon",
    "coffee_shop" := "Coffee Shop",
    "restaurant" := "Restaurant"]

  const DefaultVenueType: string := "Music Venue"

  /** The ten labels a venue type can have. */
  predicate IsVenueLabel(s: string) {
    s == DefaultVenueType || s in TypeMap.Values
  }

  /**
   * The type label of a venue: the label of the first tag, in list order, that the table
   * maps; "Music Venue" when none does. Only the table's own entries count.
   */
  function VenueType(tags: seq<string>): (r: string)
    ensures IsVenueLabel(r)
  {
    if tags == [] then DefaultVenueType
    else if tags[0] in TypeMap then TypeMap[tags[0]]
    else VenueType(tags[1..])
  }

  /** The first mapped tag decides the type. */
  lemma {:induction false} VenueTypeFirstMapped(tags: seq<string>, i: nat)
    requires i < |tags| && tags[i] in TypeMap
    requires forall j :: 0 <= j < i ==> tags[j] !in TypeMap
    ensures VenueType(tags) == TypeMap[tags[i]]
  {
    if i > 0 {
      assert tags[1..][i - 1] == tags[i];
      VenueTypeFirstMapped(tags[1..], i - 1);
    }
  }

  /** No mapped tag (in particular no tags at all) gives "Music Venue". */
  lemma {:induction false} VenueTypeNoneMapped(tags: seq<string>)
    requires forall j :: 0 <= j < |tags| ==> tags[j] !in TypeMap
    ensures VenueType(tags) == DefaultVenueType
  {
    if tags != [] {
      VenueTypeNoneMapped(tags[1..]);
    }
  }

  /** `getVenueType`: the `for ... of` loop with its early return. */
  method GetVenueType(tags: seq<string>) returns (typeLabel: string)
    ensures typeLabel == VenueType(tags)
  {
    for i := 0 to |tags|
      invariant VenueType(tags[i..]) == VenueType(tags)
    {
      assert tags[i..][0] == tags[i] && tags[i..][1..] == tags[i + 1..];
      if tags[i] in TypeMap {
        return TypeMap[tags[i]];
      }
    }
    return DefaultVenueType;
  }

  // ---------------------------------------------------------------------------
  // The lookup as written: `typeMap[tag]` on a plain object literal
  // ---------------------------------------------------------------------------

  /**
   * Property names every plain object inherits from `Object.prototype`; each one reads as
   * a truthy value (a function, or the prototype itself for "__proto__").
   */
  const InheritedMembers: set<string> := {
    "constructor", "hasOwnProperty", "isPrototypeOf", "propertyIsEnumerable",
    "toLocaleString", "toString", "valueOf", "__proto__",
    "__defineGetter__", "__defineSetter__", "__lookupGetter__", "__lookupSetter__"}

  /** What `typeMap[tag]` yields when it is truthy: a label, or an inherited member. */
  datatype TypeLookup = Label(text: string) | Inherited(member: string)

  /** `getVenueType` as written, where a tag such as "toString" finds an inherited member. */
  function VenueTypeAsWritten(tags: seq<string>): (r: TypeLookup)
    ensures r.Inherited? ==> r.member in InheritedMembers
  {
    if tags == [] then Label(DefaultVenueType)
    else if tags[0] in TypeMap then Label(TypeMap[tags[0]])
    else if tags[0] in InheritedMembers then Inherited(tags[0])
    else VenueTypeAsWritten(tags[1..])
  }

  /** A venue tagged "toString" gets the inherited function instead of a label. */
  lemma {:induction false} InheritedTagAsWritten()
    ensures VenueTypeAsWritten(["toString"]) == Inherited("toString")
    ensures VenueType(["toString"]) == DefaultVenueType
  {
    assert "toString" !in TypeMap;
    assert ["toString"][1..] == [];
  }

  /** Without such tags the code as written and the own-entry lookup agree. */
  lemma {:induction false} AsWrittenAgrees(tags: seq<string>)
    requires forall j :: 0 <= j < |tags| ==> tags[j] !in InheritedMembers
    ensures VenueTypeAsWritten(tags) == Label(VenueType(tags))
  {
    if tags != [] {
      AsWrittenAgrees(tags[1..]);
    }
  }

  // ---------------------------------------------------------------------------
  // The records the directory lists
  // ---------------------------------------------------------------------------

  /**
   * A venue with `slug`, `instance` (the first listing; `None` for `instances[0]` of an
   * empty list) and `venueType` added.
   */
  datatype ListedVenue = ListedVenue(venue: Venue, slug: string, instance: Option<VenueInstance>, venueType: string)

  /** The `map` step of the load handler. */
  function ListVenue(v: Venue): (r: ListedVenue)
    ensures r.venue == v
    ensures r.instance.Some? <==> v.instances != []
    ensures r.instance.Some? ==> r.instance.value == v.instances[0]
    ensures r.slug == SlugifyPlain(v.name) && r.venueType == VenueType(v.tags)
  {
    ListedVenue(v, SlugifyPlain(v.name), if v.instances == [] then None else Some(v.instances[0]), VenueType(v.tags))
  }

  /** A listed venue carries a well-formed slug of its name and one of the ten type labels. */
  lemma {:induction false} ListedVenueShape(v: Venue)
    ensures IsSlug(ListVenue(v).slug) && ListVenue(v).slug == SlugifyPlain(v.name)
    ensures IsVenueLabel(ListVenue(v).venueType)
  {
  }

  function ListVenues(vs: seq<Venue>): (r: seq<ListedVenue>)
    ensures |r| == |vs| && forall j :: 0 <= j < |vs| ==> r[j] == ListVenue(vs[j])
  {
    seq(|vs|, j requires 0 <= j < |vs| => ListVenue(vs[j]))
  }

  predicate AllListed(xs: seq<ListedVenue>) {
    forall j :: 0 <= j < |xs| ==> xs[j].instance.Some?
  }

  /** Every listed venue has a listing exactly when every venue of the data has one. */
  lemma {:induction false} AllListedIff(data: seq<Venue>)
    ensures AllListed(ListVenues(data)) <==> forall j :: 0 <= j < |data| ==> data[j].instances != []
  {
    var xs := ListVenues(data);
    forall j | 0 <= j < |data|
      ensures xs[j].instance.Some? <==> data[j].instances != []
    {
      assert xs[j] == ListVenue(data[j]);
    }
  }

  // ---------------------------------------------------------------------------
  // The filter of updateFiltered
  // ---------------------------------------------------------------------------

  function SearchText(v: ListedVenue): string
    requires v.instance.Some?
  {
    var inst := v.instance.value;
    ToLower(Join([v.venue.name, inst.city, inst.venueName, inst.description, inst.address], " "))
  }

  /**
   * The filter callback on one venue: `Some(keep)`, or `None` where it reads a field of a
   * missing `instance` and throws.
   */
  function VenueTest(v: ListedVenue, search: string, city: string, venueType: string): Option<bool> {
    if city != "all" && v.instance.None? then None
    else if city != "all" && v.instance.value.city != city then Some(false)
    else if venueType != "all" && v.venueType != venueType then Some(false)
    else if search != "" && v.instance.None? then None
    else if search != "" && !Contains(SearchText(v), search) then Some(false)
    else Some(true)
  }

  /** A venue with a listing passes exactly when the city, the type and the search all match. */
  lemma {:induction false} VenueTestConjunctive(v: ListedVenue, search: string, city: string, venueType: string)
    requires v.instance.Some?
    ensures VenueTest(v, search, city, venueType) == Some(
      && (city == "all" || v.instance.value.city == city)
      && (venueType == "all" || v.venueType == venueType)
      && (search == "" || Contains(SearchText(v), search)))
  {
  }

  predicate Keep(v: ListedVenue, search: string, city: string, venueType: string) {
    VenueTest(v, search, city, venueType) == Some(true)
  }

  function KeepFn(search: string, city: string, venueType: string): ListedVenue -> bool {
    (v: ListedVenue) => Keep(v, search, city, venueType)
  }

  /**
   * `state.venues.filter(...)`: the kept venues in order, or `None` when the callback
   * throws on some venue.
   */
  function FilterVenues(xs: seq<ListedVenue>, search: string, city: string, venueType: string): (r: Option<seq<ListedVenue>>)
    ensures r.None? <==> exists j :: 0 <= j < |xs| && VenueTest(xs[j], search, city, venueType).None?
    ensures r.Some? ==> r.value == Filter(xs, KeepFn(search, city, venueType))
  {
    if xs == [] then Some([])
    else
      var rest := FilterVenues(xs[1..], search, city, venueType);
      match VenueTest(xs[0], search, city, venueType)
      case None => None
      case Some(b) =>
        if rest.None? then
          assert exists j :: 0 <= j < |xs| && VenueTest(xs[j], search, city, venueType).None? by {
            var j :| 0 <= j < |xs[1..]| && VenueTest(xs[1..][j], search, city, venueType).None?;
            assert xs[1..][j] == xs[j + 1];
          }
          None
        else
          assert forall j :: 0 <= j < |xs| ==> VenueTest(xs[j], search, city, venueType).Some? by {
            forall j | 0 < j < |xs|
              ensures VenueTest(xs[j], search, city, venueType).Some?
            {
              assert xs[1..][j - 1] == xs[j];
            }
          }
          Some((if b then [xs[0]] else []) + rest.value)
  }

  /** On venues that all have a listing the filter never throws. */
  lemma {:induction false} FilterListedNeverThrows(xs: seq<ListedVenue>, search: string, city: string, venueType: string)
    requires AllListed(xs)
    ensures FilterVenues(xs, search, city, venueType) == Some(Filter(xs, KeepFn(search, city, venueType)))
  {
  }

  /** Choosing "all" cities removes only the city constraint: the list can only grow. */
  lemma {:induction false} AllCitiesWidens(xs: seq<ListedVenue>, search: string, city: string, venueType: string)
    requires AllListed(xs)
    ensures Filter(xs, KeepFn(search, city, venueType)) ==
      Filter(Filter(xs, KeepFn(search, "all", venueType)), KeepFn(search, city, venueType))
  {
    FilterMonotone(xs, KeepFn(search, city, venueType), KeepFn(search, "all", venueType));
  }

  /** Choosing "all" types removes only the type constraint. */
  lemma {:induction false} AllTypesWidens(xs: seq<ListedVenue>, search: string, city: string, venueType: string)
    ensures Filter(xs, KeepFn(search, city, venueType)) ==
      Filter(Filter(xs, KeepFn(search, city, "all")), KeepFn(search, city, venueType))
  {
    FilterMonotone(xs, KeepFn(search, city, venueType), KeepFn(search, city, "all"));
  }

  /** Clearing the search removes only the search constraint. */
  lemma {:induction false} EmptySearchWidens(xs: seq<ListedVenue>, search: string, city: string, venueType: string)
    ensures Filter(xs, KeepFn(search, city, venueType)) ==
      Filter(Filter(xs, KeepFn("", city, venueType)), KeepFn(search, city, venueType))
  {
    FilterMonotone(xs, KeepFn(search, city, venueType), KeepFn("", city, venueType));
  }

  // ---------------------------------------------------------------------------
  // populateFilters: Array.from(new Set(values)).sort()
  // ---------------------------------------------------------------------------

  function Same(s: string): string {
    s
  }

  /** The distinct values in first-occurrence order (`new Set`), sorted by the default string order. */
  function DistinctSorted(values: seq<string>): seq<string> {
    SortBy(Dedup(values, Same), Same, StrLe)
  }

  /** Each value appears exactly once among the options, and the options strictly ascend. */
  lemma {:induction false} DistinctSortedOptions(values: seq<string>)
    ensures forall s :: s in DistinctSorted(values) <==> s in values
    ensures forall i, j :: 0 <= i < j < |DistinctSorted(values)| ==>
      StrLe(DistinctSorted(values)[i], DistinctSorted(values)[j]) && DistinctSorted(values)[i] != DistinctSorted(values)[j]
  {
    var d := Dedup(values, Same);
    var r := DistinctSorted(values);
    DedupDistinct(values, Same);
    assert Distinct(d);
    StrLeTotalOrder();
    assert TotalPreorder(StrLe);
    SortBySorted(d, Same, StrLe);
    PermutationDistinct(r, d);
    forall s
      ensures s in r <==> s in values
    {
      assert s in r <==> s in multiset(r);
      DedupKeys(values, Same, s);
      if s in values {
        var j :| 0 <= j < |values| && values[j] == s;
        assert Same(values[j]) == s;
      }
      if s in d {
        var j :| 0 <= j < |d| && d[j] == s;
        assert Same(d[j]) == s;
      }
    }
  }

  function Cities(xs: seq<ListedVenue>): (r: seq<string>)
    requires AllListed(xs)
    ensures |r| == |xs| && forall j :: 0 <= j < |xs| ==> r[j] == xs[j].instance.value.city
  {
    seq(|xs|, j requires 0 <= j < |xs| && AllListed(xs) => xs[j].instance.value.city)
  }

  function Types(xs: seq<ListedVenue>): (r: seq<string>)
    ensures |r| == |xs| && forall j :: 0 <= j < |xs| ==> r[j] == xs[j].venueType
  {
    seq(|xs|, j requires 0 <= j < |xs| => xs[j].venueType)
  }

  // ---------------------------------------------------------------------------
  // The page state
  // ---------------------------------------------------------------------------

  /**
   * `state` of the directory page, with the options appended after the fixed "all" entry
   * of the city and type pickers.
   */
  class VenuesPageState {
    var venues: seq<ListedVenue>
    var filtered: seq<ListedVenue>
    var search: string
    var city: string
    var venueType: string
    var cityOptions: seq<string>
    var typeOptions: seq<string>

    constructor()
      ensures venues == [] && filtered == [] && search == "" && city == "all" && venueType == "all"
      ensures cityOptions == [] && typeOptions == []
    {
      venues := [];
      filtered := [];
      search := "";
      city := "all";
      venueType := "all";
      cityOptions := [];
      typeOptions := [];
    }

    /**
     * `updateFiltered`: the venues the current filters keep, in order; when the callback
     * throws nothing is assigned and `ok` is false.
     */
    method UpdateFiltered() returns (ok: bool)
      modifies this
      ensures venues == old(venues) && search == old(search) && city == old(city) && venueType == old(venueType)
      ensures cityOptions == old(cityOptions) && typeOptions == old(typeOptions)
      ensures ok <==> FilterVenues(venues, search, city, venueType).Some?
      ensures ok ==> filtered == Filter(venues, KeepFn(search, city, venueType))
      ensures !ok ==> filtered == old(filtered)
    {
      var r := FilterVenues(venues, search, city, venueType);
      if r.None? {
        return false;
      }
      filtered := r.value;
      return true;
    }

    /** The search box handler: the trimmed, lower-cased text, then `updateFiltered`. */
    method SetSearch(value: string) returns (ok: bool)
      modifies this
      ensures search == ToLower(Trim(value)) && city == old(city) && venueType == old(venueType)
      ensures venues == old(venues) && cityOptions == old(cityOptions) && typeOptions == old(typeOptions)
      ensures ok <==> FilterVenues(venues, search, city, venueType).Some?
      ensures ok ==> filtered == Filter(venues, KeepFn(search, city, venueType))
      ensures !ok ==> filtered == old(filtered)
    {
      search := ToLower(Trim(value));
      ok := UpdateFiltered();
    }

    /** The city picker handler. */
    method SetCity(value: string) returns (ok: bool)
      modifies this
      ensures city == value && search == old(search) && venueType == old(venueType)
      ensures venues == old(venues) && cityOptions == old(cityOptions) && typeOptions == old(typeOptions)
      ensures ok <==> FilterVenues(venues, search, city, venueType).Some?
      ensures ok ==> filtered == Filter(venues, KeepFn(search, city, venueType))
      ensures !ok ==> filtered == old(filtered)
    {
      city := value;
      ok := UpdateFiltered();
    }

    /** The type picker handler. */
    method SetType(value: string) returns (ok: bool)
      modifies this
      ensures venueType == value && search == old(search) && city == old(city)
      ensures venues == old(venues) && cityOptions == old(cityOptions) && typeOptions == old(typeOptions)
      ensures ok <==> FilterVenues(venues, search, city, venueType).Some?
      ensures ok ==> filtered == Filter(venues, KeepFn(search, city, venueType))
      ensures !ok ==> filtered == old(filtered)
    {
      venueType := value;
      ok := UpdateFiltered();
    }

    /** `populateFilters`: appends the distinct cities, then the distinct types, each sorted. */
    method PopulateFilters()
      requires AllListed(venues)
      modifies this
      ensures venues == old(venues) && filtered == old(filtered)
      ensures search == old(search) && city == old(city) && venueType == old(venueType)
      ensures cityOptions == old(cityOptions) + DistinctSorted(Cities(old(venues)))
      ensures typeOptions == old(typeOptions) + DistinctSorted(Types(old(venues)))
    {
      var cities := DistinctSorted(Cities(venues));
      var types := DistinctSorted(Types(venues));
      AppendCityOptions(cities);
      AppendTypeOptions(types);
    }

    /** The `forEach` that appends one city option per value. */
    method AppendCityOptions(values: seq<string>)
      modifies this
      ensures cityOptions == old(cityOptions) + values
      ensures typeOptions == old(typeOptions) && venues == old(venues) && filtered == old(filtered)
      ensures search == old(search) && city == old(city) && venueType == old(venueType)
    {
      for i := 0 to |values|
        invariant cityOptions == old(cityOptions) + values[..i]
        invariant typeOptions == old(typeOptions) && venues == old(venues) && filtered == old(filtered)
        invariant search == old(search) && city == old(city) && venueType == old(venueType)
      {
        assert values[..i + 1] == values[..i] + [values[i]];
        cityOptions := cityOptions + [values[i]];
      }
      assert values[..|values|] == values;
    }

    /** The `forEach` that appends one type option per value. */
    method AppendTypeOptions(values: seq<string>)
      modifies this
      ensures typeOptions == old(typeOptions) + values
      ensures cityOptions == old(cityOptions) && venues == old(venues) && filtered == old(filtered)
      ensures search == old(search) && city == old(city) && venueType == old(venueType)
    {
      for i := 0 to |values|
        invariant typeOptions == old(typeOptions) + values[..i]
        invariant cityOptions == old(cityOptions) && venues == old(venues) && filtered == old(filtered)
        invariant search == old(search) && city == old(city) && venueType == old(venueType)
      {
        assert values[..i + 1] == values[..i] + [values[i]];
        typeOptions := typeOptions + [values[i]];
      }
      assert values[..|values|] == values;
    }

    /**
     * The load handler once the data is in: the venues are listed; when one has no
     * listing (see `AllListedIff`), `populateFilters` throws before appending anything
     * and `ok` is false.
     */
    method Load(data: seq<Venue>) returns (ok: bool)
      modifies this
      ensures venues == ListVenues(data)
      ensures unchanged(this`search, this`city, this`venueType)
      ensures ok <==> AllListed(venues)
      ensures ok ==> cityOptions == old(cityOptions) + DistinctSorted(Cities(venues))
      ensures ok ==> typeOptions == old(typeOptions) + DistinctSorted(Types(venues))
      ensures ok ==> filtered == Filter(venues, KeepFn(search, city, venueType))
      ensures !ok ==> filtered == old(filtered) && cityOptions == old(cityOptions) && typeOptions == old(typeOptions)
    {
      venues := ListVenues(data);
      ok := AllListed(venues);
      if ok { ShowListed(); }
    }

    /** `populateFilters()` then `updateFiltered()`, on venues that all have a listing. */
    method ShowListed()
      requires AllListed(venues)
      modifies this
      ensures venues == old(venues) && search == old(search) && city == old(city) && venueType == old(venueType)
      ensures cityOptions == old(cityOptions) + DistinctSorted(Cities(venues))
      ensures typeOptions == old(typeOptions) + DistinctSorted(Types(venues))
      ensures filtered == Filter(venues, KeepFn(search, city, venueType))
    {
      PopulateFilters();
      FilterListedNeverThrows(venues, search, city, venueType);
      var ok := UpdateFiltered();
    }
  }
}
