/**
 * `isMeaningfulUrl` of assets/js/data.js: whether a link field deserves a button.
 * Blank values and the placeholders "TBD", "TBA" and "COMING SOON" (in any letter case)
 * are rejected before any URL parsing. The WHATWG URL parse that follows is not modelled:
 * it is the parameter `isWebUrl`, true when the trimmed text, resolved against the base
 * `https://placeholder.local`, is an `http:` or `https:` URL of another origin.
 */
module Links {
  import opened Text

  /** The placeholders compared against the upper-cased, trimmed value. */
  predicate IsPlaceholder(upper: string) {
    upper == "TBD" || upper == "TBA" || upper == "COMING SOON"
  }

  function IsMeaningfulUrl(url: string, isWebUrl: string -> bool): bool {
    var trimmed := Trim(url);
    if trimmed == "" then false
    else if IsPlaceholder(ToUpper(trimmed)) then false
    else isWebUrl(trimmed)
  }

  /** Blank values (including a missing one, modelled as "") never make a link. */
  lemma {:induction false} BlankNotMeaningful(url: string, isWebUrl: string -> bool)
    requires AllSpace(url)
    ensures !IsMeaningfulUrl(url, isWebUrl)
  {
  }

  /** Surrounding whitespace never changes the verdict. */
  lemma {:induction false} PaddingIgnored(p: string, url: string, q: string, isWebUrl: string -> bool)
    requires AllSpace(p) && AllSpace(q)
    ensures IsMeaningfulUrl(p + url + q, isWebUrl) == IsMeaningfulUrl(url, isWebUrl)
  {
    TrimPadding(p, url, q);
  }

  /** A value whose trimmed, upper-cased form is a placeholder is rejected. */
  lemma {:induction false} PlaceholderRejected(url: string, trimmed: string, isWebUrl: string -> bool)
    requires Trim(url) == trimmed && IsPlaceholder(ToUpper(trimmed))
    ensures !IsMeaningfulUrl(url, isWebUrl)
  {
  }

  lemma {:induction false} UpperComingSoon(s: string)
    requires s == "Coming soon"
    ensures ToUpper(s) == "COMING SOON"
  {
    var u := ToUpper(s);
    assert u[0] == 'C' && u[1] == 'O' && u[2] == 'M' && u[3] == 'I' && u[4] == 'N' && u[5] == 'G';
    assert u[6] == ' ' && u[7] == 'S' && u[8] == 'O' && u[9] == 'O' && u[10] == 'N';
  }

  lemma {:induction false} TrimComingSoon(s: string)
    requires s == "Coming soon"
    ensures Trim(s) == s
  {
    assert !IsJsSpace(s[0]) && !IsJsSpace(s[10]);
  }

  /** The placeholders are recognised whatever their letter case, whatever the URL parser says. */
  lemma {:induction false} LowerCasePlaceholder(isWebUrl: string -> bool)
    ensures !IsMeaningfulUrl("tbd", isWebUrl)
  {
    var s := "tbd";
    assert !IsJsSpace(s[0]) && !IsJsSpace(s[2]);
    assert Trim(s) == s;
    var u := ToUpper(s);
    assert u[0] == 'T' && u[1] == 'B' && u[2] == 'D';
    assert u == "TBD";
    PlaceholderRejected(s, s, isWebUrl);
  }

  lemma {:induction false} MixedCasePlaceholder(isWebUrl: string -> bool)
    ensures !IsMeaningfulUrl("Coming soon", isWebUrl)
  {
    TrimComingSoon("Coming soon");
    UpperComingSoon("Coming soon");
    PlaceholderRejected("Coming soon", "Coming soon", isWebUrl);
  }
}
