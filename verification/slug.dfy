/**
 * URL identifiers derived from names. The festival pages use `slugify` from
 * assets/js/data.js (with `&` spelled out as "and"); the venue pages use a
 * variant without trimming and without the `&` rule.
 */
module Slug {
  import opened Text

  /** The characters `[a-z0-9]` that survive `replace(/[^a-z0-9]+/g, "-")`. */
  predicate IsSlugChar(c: char) {
    'a' <= c <= 'z' || '0' <= c <= '9'
  }

  /** Only `[a-z0-9-]`, and no hyphen that is doubled. */
  predicate HyphenSeparated(s: string) {
    && (forall i :: 0 <= i < |s| ==> IsSlugChar(s[i]) || s[i] == '-')
    && (forall i :: 0 <= i < |s| - 1 ==> !(s[i] == '-' && s[i + 1] == '-'))
  }

  /** The shape of every slug: `[a-z0-9]` words joined by single hyphens, none at either edge. */
  predicate IsSlug(s: string) {
    HyphenSeparated(s) && (s != [] ==> s[0] != '-' && s[|s| - 1] != '-')
  }

  /** `replace(/&/g, "and")`. */
  function ReplaceAmp(s: string): (r: string)
    ensures '&' !in r
    ensures '&' !in s ==> r == s
  {
    if s == [] then [] else (if s[0] == '&' then "and" else [s[0]]) + ReplaceAmp(s[1..])
  }

  /** Drops the run of non-`[a-z0-9]` characters at the front. */
  function SkipRun(s: string): (r: string)
    ensures |r| <= |s| && r == s[|s| - |r|..]
    ensures r == [] || IsSlugChar(r[0])
    ensures forall i :: 0 <= i < |s| - |r| ==> !IsSlugChar(s[i])
  {
    if s == [] || IsSlugChar(s[0]) then s else SkipRun(s[1..])
  }

  /** `replace(/[^a-z0-9]+/g, "-")`: every maximal run of other characters becomes one hyphen. */
  function Collapse(s: string): (r: string)
    ensures HyphenSeparated(r)
    ensures r == [] <==> s == []
    ensures s != [] && IsSlugChar(s[0]) ==> r[0] == s[0]
    ensures s != [] && !IsSlugChar(s[0]) ==> r[0] == '-'
    decreases |s|
  {
    if s == [] then []
    else if IsSlugChar(s[0]) then [s[0]] + Collapse(s[1..])
    else "-" + Collapse(SkipRun(s[1..]))
  }

  /** Drops the leading run of hyphens (the `^-+` half of `replace(/^-+|-+$/g, "")`). */
  function DropLeadingHyphens(s: string): (r: string)
    ensures |r| <= |s| && r == s[|s| - |r|..]
    ensures r == [] || r[0] != '-'
    ensures forall i :: 0 <= i < |s| - |r| ==> s[i] == '-'
  {
    if s != [] && s[0] == '-' then DropLeadingHyphens(s[1..]) else s
  }

  /** Drops the trailing run of hyphens (the `-+$` half). */
  function DropTrailingHyphens(s: string): (r: string)
    ensures |r| <= |s| && r == s[..|r|]
    ensures r == [] || r[|r| - 1] != '-'
    ensures forall i :: |r| <= i < |s| ==> s[i] == '-'
  {
    if s != [] && s[|s| - 1] == '-' then DropTrailingHyphens(s[..|s| - 1]) else s
  }

  /** `replace(/^-+|-+$/g, "")`. */
  function TrimHyphens(s: string): (r: string)
    ensures HyphenSeparated(s) ==> IsSlug(r)
  {
    var a := DropLeadingHyphens(s);
    var r := DropTrailingHyphens(a);
    HyphenEdges(s, a, r);
    r
  }

  /** A run cut from the middle of a hyphen-separated text, hyphens off both ends, is a slug. */
  lemma {:induction false} HyphenEdges(s: string, a: string, r: string)
    requires a == DropLeadingHyphens(s) && r == DropTrailingHyphens(a)
    ensures HyphenSeparated(s) ==> IsSlug(r)
  {
    if HyphenSeparated(s) {
      HyphenSuffix(s, |s| - |a|);
      HyphenPrefix(a, |r|);
      if r != [] {
        assert r[0] == a[0];
      }
    }
  }

  lemma {:induction false} HyphenSuffix(s: string, k: nat)
    requires HyphenSeparated(s) && k <= |s|
    ensures HyphenSeparated(s[k..])
  {
    var t := s[k..];
    forall i | 0 <= i < |t| ensures t[i] == s[k + i] {
    }
  }

  lemma {:induction false} HyphenPrefix(s: string, k: nat)
    requires HyphenSeparated(s) && k <= |s|
    ensures HyphenSeparated(s[..k])
  {
    var t := s[..k];
    forall i | 0 <= i < |t| ensures t[i] == s[i] {
    }
  }

  /** `slugify` of assets/js/data.js: lower-case, trim, `&` to "and", separators, edge hyphens. */
  function Slugify(name: string): (r: string)
    ensures IsSlug(r)
    ensures name == "" ==> r == ""
  {
    TrimHyphens(Collapse(ReplaceAmp(Trim(ToLower(name)))))
  }

  /** `slugify` of the venue pages: lower-case, separators, edge hyphens. */
  function SlugifyPlain(name: string): (r: string)
    ensures IsSlug(r)
    ensures name == "" ==> r == ""
  {
    TrimHyphens(Collapse(ToLower(name)))
  }

  // ---------------------------------------------------------------------------
  // How the stages compose
  // ---------------------------------------------------------------------------

  lemma {:induction false} ToLowerAppend(x: string, y: string)
    ensures ToLower(x + y) == ToLower(x) + ToLower(y)
  {
    if x != [] {
      assert (x + y)[1..] == x[1..] + y;
      ToLowerAppend(x[1..], y);
    } else {
      assert x + y == y;
    }
  }

  /** Text that lower-casing leaves alone, such as a slug, is its own lower-case form. */
  lemma {:induction false} ToLowerFixed(s: string)
    requires forall i :: 0 <= i < |s| ==> LowerChar(s[i]) == [s[i]]
    ensures ToLower(s) == s
  {
    if s != [] {
      ToLowerFixed(s[1..]);
    }
  }

  lemma {:induction false} ReplaceAmpAppend(x: string, y: string)
    ensures ReplaceAmp(x + y) == ReplaceAmp(x) + ReplaceAmp(y)
  {
    if x != [] {
      var h := if x[0] == '&' then "and" else [x[0]];
      assert (x + y)[0] == x[0] && (x + y)[1..] == x[1..] + y;
      assert ReplaceAmp(x + y) == h + ReplaceAmp(x[1..] + y);
      ReplaceAmpAppend(x[1..], y);
      ConcatAssoc(h, ReplaceAmp(x[1..]), ReplaceAmp(y));
    } else {
      assert x + y == y;
    }
  }

  lemma ConcatAssoc<T>(a: seq<T>, b: seq<T>, c: seq<T>)
    ensures a + (b + c) == (a + b) + c
  {
  }

  /** A run of `[a-z0-9]` passes the separator rule unchanged. */
  lemma {:induction false} CollapseWord(w: string, rest: string)
    requires forall i :: 0 <= i < |w| ==> IsSlugChar(w[i])
    ensures Collapse(w + rest) == w + Collapse(rest)
  {
    if w != [] {
      assert (w + rest)[1..] == w[1..] + rest;
      CollapseWord(w[1..], rest);
    } else {
      assert w + rest == rest;
    }
  }

  lemma {:induction false} SkipSeparator(sep: string, rest: string)
    requires forall i :: 0 <= i < |sep| ==> !IsSlugChar(sep[i])
    requires rest == [] || IsSlugChar(rest[0])
    ensures SkipRun(sep + rest) == rest
  {
    if sep != [] {
      assert (sep + rest)[1..] == sep[1..] + rest;
      SkipSeparator(sep[1..], rest);
    } else {
      assert sep + rest == rest;
    }
  }

  /** A whole run of separator characters becomes a single hyphen. */
  lemma {:induction false} CollapseSeparator(sep: string, rest: string)
    requires sep != [] && forall i :: 0 <= i < |sep| ==> !IsSlugChar(sep[i])
    requires rest == [] || IsSlugChar(rest[0])
    ensures Collapse(sep + rest) == "-" + Collapse(rest)
  {
    assert (sep + rest)[1..] == sep[1..] + rest;
    SkipSeparator(sep[1..], rest);
  }

  /** A non-empty run of `[a-z0-9]`. */
  predicate IsWord(w: string) {
    w != [] && forall i :: 0 <= i < |w| ==> IsSlugChar(w[i])
  }

  /** Two non-empty slugs joined by a hyphen form a slug. */
  lemma {:induction false} JoinedSlug(a: string, b: string)
    requires IsSlug(a) && IsSlug(b) && a != [] && b != []
    ensures IsSlug(a + "-" + b)
  {
    var r := a + "-" + b;
    forall i | 0 <= i < |r|
      ensures (i < |a| && r[i] == a[i]) || (i == |a| && r[i] == '-') || (i > |a| && r[i] == b[i - |a| - 1])
    {
    }
  }

  lemma {:induction false} WordIsSlug(w: string)
    requires IsWord(w)
    ensures IsSlug(w) && w != []
  {
  }

  lemma {:induction false} SeparatorCollapse(a: string, c: char, b: string)
    requires IsWord(a) && IsWord(b) && !IsSlugChar(c)
    ensures Collapse(a + [c] + b) == a + "-" + b
  {
    CollapseWordAlone(b);
    CollapseSeparator([c], b);
    CollapseWord(a, [c] + b);
    ConcatAssoc(a, [c], b);
    ConcatAssoc(a, "-", b);
  }

  lemma {:induction false} CollapseWordAlone(w: string)
    requires IsWord(w)
    ensures Collapse(w) == w
  {
    CollapseWord(w, []);
    assert w + [] == w;
  }

  /** Text without whitespace at its edges is its own trim. */
  lemma {:induction false} TrimUnchanged(s: string)
    requires s != [] && !IsJsSpace(s[0]) && !IsJsSpace(s[|s| - 1])
    ensures Trim(s) == s
  {
  }

  lemma {:induction false} SeparatorUnchanged(a: string, c: char, b: string)
    requires IsWord(a) && IsWord(b) && !IsSlugChar(c) && LowerChar(c) == [c]
    ensures ToLower(a + [c] + b) == a + [c] + b
    ensures c != '&' ==> '&' !in a + [c] + b
  {
    var s := a + [c] + b;
    assert forall i :: 0 <= i < |s| ==> s[i] == c || IsSlugChar(s[i]);
    ToLowerFixed(s);
  }

  /** Reads `slugify` stage by stage: text that survives lower-casing and trimming. */
  lemma {:induction false} SlugifyVia(s: string, t: string, r: string)
    requires ToLower(s) == s && Trim(s) == s && ReplaceAmp(s) == t && Collapse(t) == r && IsSlug(r)
    ensures Slugify(s) == r
  {
    TrimHyphensSlug(r);
  }

  lemma {:induction false} SlugifyPlainVia(s: string, r: string)
    requires ToLower(s) == s && Collapse(s) == r && IsSlug(r)
    ensures SlugifyPlain(s) == r
  {
    TrimHyphensSlug(r);
  }

  /**
   * Any single character outside `[a-z0-9]` that lower-casing leaves alone (punctuation,
   * `&` in the venue variant, and letters such as `é` that are not folded) separates two words.
   */
  lemma {:induction false} SeparatorSlug(a: string, c: char, b: string)
    requires IsWord(a) && IsWord(b) && !IsSlugChar(c) && LowerChar(c) == [c]
    ensures SlugifyPlain(a + [c] + b) == a + "-" + b
    ensures c != '&' ==> Slugify(a + [c] + b) == a + "-" + b
  {
    SeparatorSlugPlain(a, c, b);
    if c != '&' {
      SeparatorSlugTrimmed(a, c, b);
    }
  }

  lemma {:induction false} SeparatorSlugPlain(a: string, c: char, b: string)
    requires IsWord(a) && IsWord(b) && !IsSlugChar(c) && LowerChar(c) == [c]
    ensures SlugifyPlain(a + [c] + b) == a + "-" + b
  {
    JoinedWordsSlug(a, b);
    SeparatorUnchanged(a, c, b);
    SeparatorCollapse(a, c, b);
    SlugifyPlainVia(a + [c] + b, a + "-" + b);
  }

  lemma {:induction false} SeparatorSlugTrimmed(a: string, c: char, b: string)
    requires IsWord(a) && IsWord(b) && !IsSlugChar(c) && LowerChar(c) == [c] && c != '&'
    ensures Slugify(a + [c] + b) == a + "-" + b
  {
    JoinedWordsSlug(a, b);
    SeparatorUnchanged(a, c, b);
    SeparatorCollapse(a, c, b);
    WordsTrimmed(a, [c], b);
    SlugifyVia(a + [c] + b, a + [c] + b, a + "-" + b);
  }

  lemma {:induction false} JoinedWordsSlug(a: string, b: string)
    requires IsWord(a) && IsWord(b)
    ensures IsSlug(a + "-" + b)
  {
    WordIsSlug(a);
    WordIsSlug(b);
    JoinedSlug(a, b);
  }

  lemma {:induction false} AmpersandUnchanged(a: string, b: string)
    requires IsWord(a) && IsWord(b)
    ensures ToLower(a + " & " + b) == a + " & " + b
  {
    var s := a + " & " + b;
    assert forall i :: 0 <= i < |s| ==> s[i] == ' ' || s[i] == '&' || IsSlugChar(s[i]);
    ToLowerFixed(s);
  }

  lemma {:induction false} AmpersandReplaced(a: string, b: string)
    requires IsWord(a) && IsWord(b)
    ensures ReplaceAmp(a + " & " + b) == a + " and " + b
  {
    NoAmpersand(a, " ");
    NoAmpersand(" ", b);
    AmpersandSpelledOut(a + " ", " " + b);
    SpacedMarks();
    Regroup(a, " ", "&", " ", b);
    Regroup(a, " ", "and", " ", b);
  }

  /** The spaced ampersand and its spelling, split around the mark. */
  lemma SpacedMarks()
    ensures " & " == " " + "&" + " " && " and " == " " + "and" + " "
  {
  }

  /** One `&` between texts free of it becomes "and". */
  lemma {:induction false} AmpersandSpelledOut(l: string, m: string)
    requires '&' !in l && '&' !in m
    ensures ReplaceAmp(l + ("&" + m)) == l + ("and" + m)
  {
    ReplaceAmpAppend(l, "&" + m);
    ReplaceAmpAppend("&", m);
    assert ReplaceAmp("&") == "and" + ReplaceAmp([]);
  }

  /** A word next to a space holds no `&`. */
  lemma {:induction false} NoAmpersand(x: string, y: string)
    requires forall i :: 0 <= i < |x| ==> x[i] == ' ' || IsSlugChar(x[i])
    requires forall i :: 0 <= i < |y| ==> y[i] == ' ' || IsSlugChar(y[i])
    ensures '&' !in x + y
  {
    var s := x + y;
    forall i | 0 <= i < |s| ensures s[i] != '&' {
      if i < |x| {
        assert s[i] == x[i];
      } else {
        assert s[i] == y[i - |x|];
      }
    }
  }

  /** Regrouping a concatenation around a middle part. */
  lemma Regroup<T>(a: seq<T>, x: seq<T>, y: seq<T>, z: seq<T>, b: seq<T>)
    ensures a + (x + y + z) + b == (a + x) + (y + (z + b))
    ensures a + (x + y + z) + b == a + (x + (y + (z + b)))
  {
  }

  lemma {:induction false} AmpersandCollapse(a: string, b: string)
    requires IsWord(a) && IsWord(b)
    ensures Collapse(a + " and " + b) == a + "-and-" + b
  {
    SpacedWordsCollapse(a, "and", b);
    assert " and " == " " + "and" + " ";
    Regroup(a, " ", "and", " ", b);
    assert "-and-" == "-" + "and" + "-";
    Regroup(a, "-", "and", "-", b);
  }

  /** Three words with single spaces between them become three words joined by hyphens. */
  lemma {:induction false} SpacedWordsCollapse(a: string, w: string, b: string)
    requires IsWord(a) && IsWord(w) && IsWord(b)
    ensures Collapse(a + (" " + (w + (" " + b)))) == a + ("-" + (w + ("-" + b)))
  {
    assert b == b + [];
    CollapseSpacedWord(b, [], []);
    CollapseSpacedWord(w, " " + b, "-" + b);
    CollapseWord(a, " " + (w + (" " + b)));
  }

  /** A space before a word becomes one hyphen, and the word is kept. */
  lemma {:induction false} CollapseSpacedWord(w: string, rest: string, out: string)
    requires IsWord(w) && Collapse(rest) == out
    ensures Collapse(" " + (w + rest)) == "-" + (w + out)
  {
    assert (w + rest)[0] == w[0];
    CollapseSeparator(" ", w + rest);
    CollapseWord(w, rest);
  }

  /** `&` between spaced words is spelled out: "a & b" becomes "a-and-b". */
  lemma {:induction false} AmpersandSlug(a: string, b: string)
    requires IsWord(a) && IsWord(b)
    ensures Slugify(a + " & " + b) == a + "-and-" + b
  {
    var s := a + " & " + b;
    AndJoinedSlug(a, b);
    AmpersandUnchanged(a, b);
    WordsTrimmed(a, " & ", b);
    AmpersandReplaced(a, b);
    AmpersandCollapse(a, b);
    SlugifyVia(s, a + " and " + b, a + "-and-" + b);
  }

  lemma {:induction false} AndJoinedSlug(a: string, b: string)
    requires IsWord(a) && IsWord(b)
    ensures IsSlug(a + "-and-" + b)
  {
    assert a + "-and-" + b == a + "-" + ("and-" + b);
    WordIsSlug(a);
    WordIsSlug(b);
    WordIsSlug("and");
    JoinedSlug("and", b);
    JoinedSlug(a, "and-" + b);
  }

  /** Words at both ends leave nothing for `trim` to remove. */
  lemma {:induction false} WordsTrimmed(a: string, mid: string, b: string)
    requires IsWord(a) && IsWord(b)
    ensures Trim(a + mid + b) == a + mid + b
  {
    var s := a + mid + b;
    assert s[0] == a[0] && s[|s| - 1] == b[|b| - 1];
    TrimUnchanged(s);
  }

  /** A letter with a diacritic is a separator, not folded into its base letter. */
  lemma {:induction false} NonAsciiLetterSeparates(a: string, b: string)
    requires IsWord(a) && IsWord(b)
    ensures Slugify(a + "\U{E9}" + b) == a + "-" + b
  {
    SeparatorSlug(a, '\U{E9}', b);
  }

  /** `w` with its ASCII letters in upper case. */
  function UpperAscii(w: string): (r: string)
    ensures |r| == |w|
  {
    if w == [] then []
    else [if 'a' <= w[0] <= 'z' then (w[0] as int - 32) as char else w[0]] + UpperAscii(w[1..])
  }

  /** Lower-casing gives back a word written in upper case. */
  lemma {:induction false} LowerUpperWord(w: string)
    requires forall i :: 0 <= i < |w| ==> IsSlugChar(w[i])
    ensures ToLower(UpperAscii(w)) == w
  {
    if w != [] {
      LowerUpperWord(w[1..]);
      assert UpperAscii(w)[1..] == UpperAscii(w[1..]);
    }
  }

  /**
   * ASCII upper case is folded and trailing punctuation is dropped: "A & B!!" becomes
   * "a-and-b".
   */
  lemma {:induction false} UpperAmpersandSlug(a: string, b: string)
    requires IsWord(a) && IsWord(b)
    ensures Slugify(UpperAscii(a) + " & " + UpperAscii(b) + "!!") == a + "-and-" + b
  {
    var l := a + " & " + b + "!!";
    UpperAmpersandLowered(a, b);
    assert l[0] == a[0] && l[|l| - 1] == '!';
    TrimUnchanged(l);
    ReplaceAmpAppend(a + " & " + b, "!!");
    AmpersandReplaced(a, b);
    AmpersandPunctuationCollapse(a, b);
    AndJoinedSlug(a, b);
    TrimTrailingHyphen(a + "-and-" + b);
  }

  lemma {:induction false} UpperAmpersandLowered(a: string, b: string)
    requires IsWord(a) && IsWord(b)
    ensures ToLower(UpperAscii(a) + " & " + UpperAscii(b) + "!!") == a + " & " + b + "!!"
  {
    var m := " & ";
    var e := "!!";
    ToLowerAppend(UpperAscii(a) + m + UpperAscii(b), e);
    ToLowerAppend(UpperAscii(a) + m, UpperAscii(b));
    ToLowerAppend(UpperAscii(a), m);
    LowerUpperWord(a);
    LowerUpperWord(b);
    LowerFixedMark(m);
    LowerFixedMark(e);
  }

  lemma {:induction false} LowerFixedMark(s: string)
    requires s == " & " || s == "!!"
    ensures ToLower(s) == s
  {
    ToLowerFixed(s);
  }

  /** "a and b!!" keeps its words and turns each separator run, the final one too, into a hyphen. */
  lemma {:induction false} AmpersandPunctuationCollapse(a: string, b: string)
    requires IsWord(a) && IsWord(b)
    ensures Collapse(a + " and " + b + "!!") == a + "-and-" + b + "-"
  {
    var e := "!!";
    PunctuationCollapse(e);
    SpacedWordsCollapseTail(a, "and", b, e, "-");
    assert " and " == " " + "and" + " ";
    RegroupTail(a, " ", "and", " ", b, e);
    assert "-and-" == "-" + "and" + "-";
    RegroupTail(a, "-", "and", "-", b, "-");
  }

  lemma {:induction false} PunctuationCollapse(e: string)
    requires e == "!!"
    ensures Collapse(e) == "-"
  {
    assert e + [] == e;
    CollapseSeparator(e, []);
  }

  /** Three spaced words followed by more text: each space becomes a hyphen. */
  lemma {:induction false} SpacedWordsCollapseTail(a: string, w: string, b: string, rest: string, out: string)
    requires IsWord(a) && IsWord(w) && IsWord(b) && Collapse(rest) == out
    ensures Collapse(a + (" " + (w + (" " + (b + rest))))) == a + ("-" + (w + ("-" + (b + out))))
  {
    CollapseSpacedWord(b, rest, out);
    CollapseSpacedWord(w, " " + (b + rest), "-" + (b + out));
    CollapseWord(a, " " + (w + (" " + (b + rest))));
  }

  lemma RegroupTail<T>(a: seq<T>, x: seq<T>, y: seq<T>, z: seq<T>, b: seq<T>, e: seq<T>)
    ensures a + (x + y + z) + b + e == a + (x + (y + (z + (b + e))))
  {
  }

  /** One hyphen after a slug is dropped. */
  lemma {:induction false} TrimTrailingHyphen(r: string)
    requires IsSlug(r) && r != []
    ensures TrimHyphens(r + "-") == r
  {
    var s := r + "-";
    assert s[0] == r[0];
    NoLeadingHyphen(s);
    assert s[..|s| - 1] == r;
    NoTrailingHyphen(r);
  }

  // ---------------------------------------------------------------------------
  // Idempotence
  // ---------------------------------------------------------------------------

  lemma {:induction false} CollapseSlug(s: string)
    requires HyphenSeparated(s)
    ensures Collapse(s) == s
  {
    if s != [] {
      if IsSlugChar(s[0]) {
        CollapseSlug(s[1..]);
      } else {
        assert SkipRun(s[1..]) == s[1..];
        CollapseSlug(s[1..]);
      }
    }
  }

  lemma {:induction false} TrimHyphensSlug(s: string)
    requires IsSlug(s)
    ensures TrimHyphens(s) == s
  {
    NoLeadingHyphen(s);
    NoTrailingHyphen(s);
  }

  lemma NoLeadingHyphen(s: string)
    requires s == [] || s[0] != '-'
    ensures DropLeadingHyphens(s) == s
  {
  }

  lemma NoTrailingHyphen(s: string)
    requires s == [] || s[|s| - 1] != '-'
    ensures DropTrailingHyphens(s) == s
  {
  }

  /** A slug is a fixed point of both slug functions. */
  lemma {:induction false} SlugFixedPoint(s: string)
    requires IsSlug(s)
    ensures Slugify(s) == s && SlugifyPlain(s) == s
  {
    ToLowerFixed(s);
    SlugUntrimmed(s);
    CollapseSlug(s);
    SlugifyVia(s, s, s);
    SlugifyPlainVia(s, s);
  }

  /** A slug has no whitespace at its ends and no `&`. */
  lemma {:induction false} SlugUntrimmed(s: string)
    requires IsSlug(s)
    ensures Trim(s) == s && ReplaceAmp(s) == s
  {
    if s != [] {
      assert !IsJsSpace(s[0]) && !IsJsSpace(s[|s| - 1]);
    }
    assert '&' !in s;
  }

  /** A slug is its own slug: re-slugifying the identifier in a link changes nothing. */
  lemma {:induction false} SlugifyIdempotent(name: string)
    ensures Slugify(Slugify(name)) == Slugify(name)
    ensures SlugifyPlain(SlugifyPlain(name)) == SlugifyPlain(name)
  {
    SlugFixedPoint(Slugify(name));
    SlugFixedPoint(SlugifyPlain(name));
  }

  // ---------------------------------------------------------------------------
  // Worked examples
  // ---------------------------------------------------------------------------

  /** The venue variant has no `&` rule: the ampersand is a separator. */
  lemma {:induction false} VenueAmpersandExample()
    ensures SlugifyPlain("R&B") == "r-b"
  {
    assert ToLower("B") == "b";
    assert ToLower("&B") == "&b";
    assert ToLower("R&B") == "r&b";
    assert Collapse("b") == "b";
    assert SkipRun("b") == "b";
    assert Collapse("&b") == "-b";
    assert Collapse("r&b") == "r-b";
    assert DropLeadingHyphens("r-b") == "r-b";
    assert DropTrailingHyphens("r-b") == "r-b";
  }
}
