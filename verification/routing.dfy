/**
 * Page addressing shared by the two detail pages (public/assets/js/detail-page.js and
 * public/assets/js/venue-detail.js): which identifier a page shows, and what a lookup of
 * that identifier did.
 */
module Routing {
  import opened Wrappers
  import opened Text
  import opened Slug

  /**
   * `resolveSlug`: the hash without its first "#", trimmed, when that is not empty;
   * otherwise the trimmed `slug` query parameter, or "" when there is none.
   * `hash` is `location.hash` and `slugParam` the value of `searchParams.get("slug")`.
   */
  function ResolveSlug(hash: string, slugParam: Option<string>): (r: string)
    ensures r == [] || (!IsJsSpace(r[0]) && !IsJsSpace(r[|r| - 1]))
    ensures Trim(RemoveFirst(hash, '#')) != "" ==> r == Trim(RemoveFirst(hash, '#'))
    ensures Trim(RemoveFirst(hash, '#')) == "" && slugParam.None? ==> r == ""
    ensures Trim(RemoveFirst(hash, '#')) == "" && slugParam.Some? ==> r == Trim(slugParam.value)
  {
    var h := RemoveFirst(hash, '#');
    var q := slugParam.GetOr("");
    TrimEdgeFree(h);
    TrimEdgeFree(q);
    if Trim(h) != "" then Trim(h) else Trim(q)
  }

  /** What `trim` returns has no white space at either end. */
  lemma {:induction false} TrimEdgeFree(s: string)
    ensures Trim(s) == [] || (!IsJsSpace(Trim(s)[0]) && !IsJsSpace(Trim(s)[|Trim(s)| - 1]))
  {
  }

  /** A slug has no surrounding whitespace, so trimming keeps it. */
  lemma {:induction false} SlugTrimmed(s: string)
    requires IsSlug(s)
    ensures Trim(s) == s
  {
    if s != [] {
      var c, d := s[0], s[|s| - 1];
      assert IsSlugChar(c) && IsSlugChar(d);
      assert !IsJsSpace(c) && !IsJsSpace(d);
    }
  }

  /** A link `page.html#<slug>` written by a directory page resolves to that slug, whatever the query. */
  lemma {:induction false} HashLinkResolves(s: string, slugParam: Option<string>)
    requires IsSlug(s) && s != ""
    ensures ResolveSlug("#" + s, slugParam) == s
  {
    assert RemoveFirst("#" + s, '#') == s;
    SlugTrimmed(s);
  }

  /** Without a hash, `?slug=<slug>` resolves to that slug. */
  lemma {:induction false} QueryResolves(s: string)
    requires IsSlug(s)
    ensures ResolveSlug("", Some(s)) == s
  {
    SlugTrimmed(s);
  }

  /** What a detail page's `renderSlug` did with the identifier it was given. */
  datatype RenderOutcome =
    | Ignored    // empty identifier, or no data loaded: nothing happens
    | NotFound   // the error message is shown; the page state is unchanged
    | Shown      // the entry is now the page's current one
}
