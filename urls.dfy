/**
 * Slug and endpoint derivation and locale selection in `download_stream`.
 * The path component of the page reference (what `urlparse(url).path`
 * yields) is the input; URL parsing itself is not modelled.
 */
module Urls {
  import opened Common

  const LocaleEndpointBase: string := "https://www.redbull.com/v3/config/pages?url="
  const FeedEndpointBase: string := "https://www.redbull.com/v3/api/graphql/v1/v3/feed/"
  const VideoResourceBase: string := "https://api-player.redbull.com/rbcom/videoresource?videoId="

  /** `path.lstrip('/')`: the path with every leading slash removed. */
  function Slug(path: string): (slug: string)
    ensures |slug| <= |path| && slug == path[|path| - |slug|..]
    ensures slug == [] || slug[0] != '/'
    ensures forall i | 0 <= i < |path| - |slug| :: path[i] == '/'
  {
    if path != [] && path[0] == '/' then Slug(path[1..]) else path
  }

  /** `slug.split('/')[-1]`: the text after the last slash, or all of it when there is none. */
  function LastSegment(slug: string): (seg: string)
    ensures |seg| <= |slug|
    ensures '/' !in seg
  {
    if slug == [] then []
    else if slug[|slug| - 1] == '/' then []
    else LastSegment(slug[..|slug| - 1]) + [slug[|slug| - 1]]
  }

  /** ASCII lower-casing of one character, as `str.lower()` does on ASCII. */
  function Lower(c: char): char
  {
    if 'A' <= c <= 'Z' then (c as int + 32) as char else c
  }

  /** `"en" in l.lower()`. */
  predicate MentionsEn(l: string)
  {
    exists i | 0 <= i < |l| - 1 :: Lower(l[i]) == 'e' && Lower(l[i + 1]) == 'n'
  }

  /** Index of the first locale that mentions "en", if any. */
  function FirstEnIndex(locales: seq<string>): (k: Option<nat>)
    ensures k.Some? ==> k.value < |locales| && MentionsEn(locales[k.value])
    ensures k.Some? ==> forall j | 0 <= j < k.value :: !MentionsEn(locales[j])
    ensures k.None? ==> forall j | 0 <= j < |locales| :: !MentionsEn(locales[j])
  {
    if locales == [] then None
    else if MentionsEn(locales[0]) then Some(0)
    else match FirstEnIndex(locales[1..])
      case None => None
      case Some(k) => Some(k + 1)
  }

  /**
   * `next((l for l in locales if "en" in l.lower()), locales[0] if locales else None)`:
   * the first locale mentioning "en", else the first locale, else nothing.
   */
  function SelectLocale(locales: seq<string>): (r: Option<string>)
    ensures r.None? <==> locales == []
  {
    match FirstEnIndex(locales)
    case Some(k) => Some(locales[k])
    case None => if locales == [] then None else Some(locales[0])
  }

  /** The selection is always one of the locales, and is the first match or else the first locale. */
  lemma SelectLocaleSpec(locales: seq<string>)
    ensures SelectLocale(locales).Some? ==>
      exists k | 0 <= k < |locales| :: SelectLocale(locales).value == locales[k]
        && (MentionsEn(locales[k]) || (k == 0 && forall j | 0 <= j < |locales| :: !MentionsEn(locales[j])))
        && forall j | 0 <= j < k :: !MentionsEn(locales[j])
  {
    match FirstEnIndex(locales)
    case Some(k) =>
    case None =>
  }

  /** The first "en" locale wins even when it is not the first locale. */
  lemma SelectLocaleExamples()
    ensures SelectLocale(["de", "en-US", "fr"]) == Some("en-US")
    ensures SelectLocale(["de", "fr"]) == Some("de")
    ensures SelectLocale(["fr-FR", "EN"]) == Some("EN")
  {
    assert !MentionsEn("de") && !MentionsEn("fr") && !MentionsEn("fr-FR");
    assert MentionsEn("en-US") by { assert Lower("en-US"[0]) == 'e' && Lower("en-US"[1]) == 'n'; }
    assert MentionsEn("EN") by { assert Lower("EN"[0]) == 'e' && Lower("EN"[1]) == 'n'; }
  }

  /** The page-configuration request that discovers the locales. */
  function LocaleUrl(slug: string): (u: string)
    ensures |u| == |LocaleEndpointBase| + |slug|
    ensures u[..|LocaleEndpointBase|] == LocaleEndpointBase && u[|LocaleEndpointBase|..] == slug
  {
    LocaleEndpointBase + slug
  }

  /**
   * The locale-scoped feed request: `filter[uriSlug]` is the last segment of the
   * slug and `rb3PageUrl` is the slug behind a slash. No value is URL-encoded.
   */
  function MetadataUrl(locale: string, slug: string): (u: string)
    ensures var head := FeedEndpointBase + locale;
      |head| <= |u| && u[..|head|] == head
    ensures var tail := "&rb3PageUrl=/" + slug;
      |tail| <= |u| && u[|u| - |tail|..] == tail
  {
    var head := FeedEndpointBase + locale;
    var query := "?disableUsageRestrictions=true&filter[uriSlug]=" + LastSegment(slug) + "&rb3Schema=v1:pageConfig";
    var tail := "&rb3PageUrl=/" + slug;
    var u := head + query + tail;
    assert u[..|head|] == head;
    assert u[|u| - |tail|..] == tail;
    u
  }

  /** For a slug `a/b`, the feed request filters on `b` alone and passes the whole slug as the page URL. */
  lemma MetadataUrlFilter(locale: string, a: string, b: string)
    requires '/' !in b
    ensures MetadataUrl(locale, a + "/" + b) ==
      FeedEndpointBase + locale + ("?disableUsageRestrictions=true&filter[uriSlug]=" + b + "&rb3Schema=v1:pageConfig")
      + ("&rb3PageUrl=/" + (a + "/" + b))
  {
    LastSegmentAfterSlash(a, b);
  }

  /** The video-resource request, carrying the video id and the selected locale. */
  function StreamUrl(videoId: string, locale: string): (u: string)
    ensures var head := VideoResourceBase + videoId;
      |head| <= |u| && u[..|head|] == head
    ensures var tail := "&localeMixing=" + locale;
      |tail| <= |u| && u[|u| - |tail|..] == tail
  {
    VideoResourceBase + videoId + "&localeMixing=" + locale
  }

  /** The last segment is a tail of the slug, and what comes before it ends in a slash. */
  lemma {:induction false} LastSegmentIsTail(slug: string)
    ensures var seg := LastSegment(slug);
      seg == slug[|slug| - |seg|..]
      && (|seg| == |slug| || slug[|slug| - |seg| - 1] == '/')
  {
    if slug != [] && slug[|slug| - 1] != '/' {
      var init := slug[..|slug| - 1];
      LastSegmentIsTail(init);
      var seg' := LastSegment(init);
      assert init[|init| - |seg'|..] + [slug[|slug| - 1]] == slug[|slug| - |seg'| - 1..];
      if |seg'| < |init| {
        assert init[|init| - |seg'| - 1] == slug[|slug| - |seg'| - 2];
      }
    }
  }

  /** The segment after a final slash-free tail is exactly that tail. */
  lemma {:induction false} LastSegmentAfterSlash(a: string, b: string)
    requires '/' !in b
    ensures LastSegment(a + "/" + b) == b
  {
    if b == [] {
    } else {
      var b' := b[..|b| - 1];
      assert (a + "/" + b)[..|a + "/" + b| - 1] == a + "/" + b';
      LastSegmentAfterSlash(a, b');
      assert b' + [b[|b| - 1]] == b;
    }
  }

  /** A slash-free slug is its own last segment. */
  lemma {:induction false} LastSegmentOfPlain(s: string)
    requires '/' !in s
    ensures LastSegment(s) == s
  {
    if s != [] {
      LastSegmentOfPlain(s[..|s| - 1]);
      assert s[..|s| - 1] + [s[|s| - 1]] == s;
    }
  }
}
