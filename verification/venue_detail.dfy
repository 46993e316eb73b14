/**
 * The venue detail page, public/assets/js/venue-detail.js: the slug-keyed venue table
 * filled by `forEach` and `map.set`, and `renderSlug`, which makes the venue named by the
 * address the current one and shows its first listing.
 */
module VenueDetail {
  import opened Wrappers
  import opened Slug
  import opened Keyed
  import opened Venues
  import opened Routing

  predicate Always(v: Venue) {
    true
  }

  function VenueSlug(v: Venue): string {
    SlugifyPlain(v.name)
  }

  function VenueItself(v: Venue): Venue {
    v
  }

  /** The table after `pageState.venues.set(slugify(venue.name), venue)` for every venue in order. */
  function VenueMapOf(data: seq<Venue>): map<string, Venue> {
    IndexBy(data, Always, VenueSlug, VenueItself)
  }

  /** The table's keys are exactly the slugs of the venues' names. */
  lemma {:induction false} VenueMapKeys(data: seq<Venue>, s: string)
    ensures s in VenueMapOf(data) <==> exists k :: 0 <= k < |data| && SlugifyPlain(data[k].name) == s
  {
    IndexByKeys(data, Always, VenueSlug, VenueItself, s);
  }

  /**
   * The detail link `venue.html#<slug>` of the directory (whose slug is the same
   * `SlugifyPlain` of the name, see `ListedVenueShape`) shows the venue it was made from,
   * unless a later venue's name gives the same slug: that one replaced it in the table.
   */
  lemma {:induction false} DirectoryLinkShowsVenue(data: seq<Venue>, k: nat, slugParam: Option<string>)
    requires k < |data| && SlugifyPlain(data[k].name) != ""
    requires forall j :: k < j < |data| ==> SlugifyPlain(data[j].name) != SlugifyPlain(data[k].name)
    ensures var s := SlugifyPlain(data[k].name);
      ResolveSlug("#" + s, slugParam) == s && s in VenueMapOf(data) && VenueMapOf(data)[s] == data[k]
  {
    HashLinkResolves(SlugifyPlain(data[k].name), slugParam);
    VenueMapLastWins(data, k);
  }

  /** A venue whose slug no later venue shares is the one its slug maps to. */
  lemma {:induction false} VenueMapLastWins(data: seq<Venue>, k: nat)
    requires k < |data|
    requires forall j :: k < j < |data| ==> VenueSlug(data[j]) != VenueSlug(data[k])
    ensures VenueSlug(data[k]) in VenueMapOf(data) && VenueMapOf(data)[VenueSlug(data[k])] == data[k]
  {
    IndexByLastWins(data, Always, VenueSlug, VenueItself, k);
  }

  /** What the page displays for the current venue: its first listing and its type label. */
  datatype VenueView = VenueView(venue: Venue, instance: Option<VenueInstance>, venueType: string)

  function ViewOf(v: Venue): (r: VenueView)
    ensures r.venue == v && r.venueType == VenueType(v.tags) && IsVenueLabel(r.venueType)
    ensures r.instance.Some? <==> v.instances != []
    ensures r.instance.Some? ==> r.instance.value == v.instances[0]
  {
    VenueView(v, if v.instances == [] then None else Some(v.instances[0]), VenueType(v.tags))
  }

  /** The table after one more venue: its slug now names it. */
  lemma {:induction false} VenueMapStep(data: seq<Venue>, k: nat)
    requires k < |data|
    ensures VenueMapOf(data[..k + 1]) == VenueMapOf(data[..k])[VenueSlug(data[k]) := data[k]]
  {
    assert data[..k + 1] == data[..k] + [data[k]];
    IndexBySnoc(data[..k], data[k], Always, VenueSlug, VenueItself);
  }

  /** One `map.set(slugify(venue.name), venue)` per venue, in order, into a fresh table. */
  method BuildVenueMap(data: seq<Venue>) returns (m: map<string, Venue>)
    ensures m == VenueMapOf(data)
  {
    m := map[];
    var k := 0;
    while k < |data|
      invariant 0 <= k <= |data|
      invariant m == VenueMapOf(data[..k])
    {
      VenueMapStep(data, k);
      m := m[VenueSlug(data[k]) := data[k]];
      k := k + 1;
    }
    assert data[..k] == data;
  }

  /** `pageState` of the venue detail page. */
  class VenueDetailState {
    var venues: map<string, Venue>
    var currentVenue: Option<Venue>

    constructor()
      ensures venues == map[] && currentVenue.None?
    {
      venues := map[];
      currentVenue := None;
    }

    /** `data.venues.forEach(...)` on the page's table. */
    method FillVenueMap(data: seq<Venue>)
      modifies this
      ensures venues == old(venues) + VenueMapOf(data)
      ensures currentVenue == old(currentVenue)
    {
      var m := BuildVenueMap(data);
      venues := venues + m;
    }

    /**
     * `renderSlug`: with no identifier or an empty table nothing happens; an unknown
     * identifier shows an error and keeps the current venue; a known one becomes the
     * current venue, and the page shows its first listing and type.
     */
    method RenderSlug(slug: string) returns (outcome: RenderOutcome, view: Option<VenueView>)
      modifies this
      ensures venues == old(venues)
      ensures outcome == Ignored <==> slug == "" || |venues| == 0
      ensures outcome == NotFound <==> slug != "" && |venues| != 0 && slug !in venues
      ensures outcome != Shown ==> currentVenue == old(currentVenue) && view.None?
      ensures outcome == Shown ==>
        slug in venues && currentVenue == Some(venues[slug]) && view == Some(ViewOf(venues[slug]))
    {
      if slug == "" || |venues| == 0 {
        return Ignored, None;
      }
      if slug !in venues {
        return NotFound, None;
      }
      var venue := venues[slug];
      currentVenue := Some(venue);
      return Shown, Some(ViewOf(venue));
    }

    /**
     * The `DOMContentLoaded` handler once the data is in: without an identifier on a page
     * with a hero it stops early; otherwise it fills the table and renders.
     */
    method Load(data: seq<Venue>, slug: string, hasHero: bool) returns (outcome: RenderOutcome, view: Option<VenueView>)
      modifies this
      ensures slug == "" && hasHero ==>
        outcome == Ignored && venues == old(venues) && currentVenue == old(currentVenue)
      ensures !(slug == "" && hasHero) ==> venues == old(venues) + VenueMapOf(data)
      ensures !(slug == "" && hasHero) ==> (outcome == Shown <==> slug != "" && slug in venues)
      ensures !(slug == "" && hasHero) ==> (outcome == NotFound <==> slug != "" && |venues| != 0 && slug !in venues)
      ensures outcome == Shown ==> slug in venues && currentVenue == Some(venues[slug]) && view == Some(ViewOf(venues[slug]))
      ensures outcome != Shown ==> currentVenue == old(currentVenue)
    {
      if slug == "" && hasHero {
        return Ignored, None;
      }
      FillVenueMap(data);
      outcome, view := RenderSlug(slug);
    }
  }
}
