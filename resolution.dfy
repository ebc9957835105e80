/**
 * The resolution pipeline shared by the server and the command-line tool:
 * three strictly sequential upstream stages (locale, metadata, stream), each
 * of which can end the run with a failure. Every upstream reply is an
 * abstract input: its status code and the fields the handler reads from it.
 */
module Resolution {
  import opened Common
  import opened Sanitizer
  import opened Urls

  /** Reply to the page-configuration request; absent `supportedLocales` reads as []. */
  datatype LocaleResponse = LocaleResponse(status: int, locales: seq<string>)

  /** What the handler can find in the feed reply: `data`, `data.pageMeta`, and their fields. */
  datatype MetadataBody =
    | MissingData                                          // `data` absent: `.get` on None raises
    | MissingPageMeta                                      // `pageMeta` absent: `.get` on None raises
    | Fields(id: Option<string>, thumbnail: Option<string>)

  datatype MetadataResponse = MetadataResponse(status: int, body: MetadataBody)

  datatype StreamResponse = StreamResponse(status: int, videoUrl: Option<string>, title: Option<string>)

  /** The three upstream replies of one run, in stage order. */
  datatype Upstream = Upstream(locale: LocaleResponse, metadata: MetadataResponse, stream: StreamResponse)

  datatype Failure =
    | MissingUrl            // the slug is empty
    | LocalesUnavailable    // the locale request did not answer 200
    | NoLocales             // the locale list is empty
    | MetadataUnavailable   // the feed request did not answer 200, or no video id
    | MalformedMetadata     // `data` or `pageMeta` is absent: an uncaught AttributeError
    | StreamUnavailable     // the video-resource request did not answer 200, or no video URL

  datatype Descriptor = Descriptor(title: string, videoUrl: string, thumbnail: string)

  /** The states of the pipeline; `StreamResolved` and `Failed` are final. */
  datatype Stage =
    | Start(path: string)
    | LocaleResolved(slug: string, locale: string)
    | MetadataResolved(slug: string, locale: string, videoId: string, thumbnail: string)
    | StreamResolved(descriptor: Descriptor)
    | Failed(failure: Failure)
  {
    predicate IsFinal() { StreamResolved? || Failed? }
  }

  /** An upstream GET request; `Url` renders the URL the handler builds for it. */
  datatype Request =
    | LocaleRequest(slug: string)
    | MetadataRequest(locale: string, slug: string)
    | StreamRequest(videoId: string, locale: string)
  {
    function Url(): string
    {
      match this
      case LocaleRequest(slug) => LocaleUrl(slug)
      case MetadataRequest(locale, slug) => MetadataUrl(locale, slug)
      case StreamRequest(videoId, locale) => StreamUrl(videoId, locale)
    }
  }

  /** A step's successor and the upstream GET requests it issued, in order. */
  datatype Transition = Transition(next: Stage, requests: seq<Request>)

  datatype Resolution = Resolution(final: Stage, requests: seq<Request>)

  /** Python truthiness of an optional string field: absent, None and "" are false. */
  predicate Falsy(v: Option<string>) { v == None || v == Some("") }

  /** `random.choices(string.ascii_letters, k=8)`, injected. */
  predicate ValidLetters(letters: string)
  {
    |letters| == 8 && forall i | 0 <= i < |letters| :: IsAsciiLetter(letters[i])
  }

  /** `sep.join(letters)` where every part is a single letter. */
  function Join(sep: string, letters: string): (r: string)
    ensures letters != [] ==> |r| == LetterAt(sep, |letters| - 1) + 1
    ensures letters == [] <==> r == []
  {
    if |letters| <= 1 then letters else [letters[0]] + sep + Join(sep, letters[1..])
  }

  /** The tag both entry points use for a placeholder title. */
  const Tag: string := "rbtv-"

  /** `'rbtv-'.join(letters)`, as the source writes the placeholder title: the letters with the tag between them. */
  function PlaceholderAsWritten(letters: string): (r: string)
    ensures letters != [] ==> |r| == 6 * |letters| - 5 && r[0] == letters[0]
    ensures letters == [] ==> r == []
  {
    LetterAtIsProduct(Tag, if letters == [] then 0 else |letters| - 1);
    Join(Tag, letters)
  }

  /** The placeholder evidently intended: the tag `rbtv-` followed by the letters. */
  function Placeholder(letters: string): (r: string)
    ensures |r| == |Tag| + |letters| && r[..|Tag|] == Tag && r[|Tag|..] == letters
  {
    Tag + letters
  }

  /**
   * The title selection as written: the placeholder only when the raw title is
   * falsy, otherwise the sanitised raw title, which may be empty.
   */
  function VideoTitleAsWritten(raw: Option<string>, letters: string): (t: string)
    ensures !Falsy(raw) ==> AllAllowed(t) && NoDoubleUnderscore(t) && StartsClean(t) && |t| <= MaxTitleLength
    ensures Falsy(raw) && letters != [] ==> |t| == 6 * |letters| - 5
  {
    if Falsy(raw) then PlaceholderAsWritten(letters) else Sanitize(raw.value)
  }

  /** The title as written is the joined placeholder for a falsy raw title and the sanitised raw title otherwise. */
  lemma VideoTitleAsWrittenCases(raw: Option<string>, letters: string)
    ensures Falsy(raw) ==> VideoTitleAsWritten(raw, letters) == PlaceholderAsWritten(letters)
    ensures !Falsy(raw) ==> VideoTitleAsWritten(raw, letters) == Sanitize(raw.value)
  {
  }

  /** The corrected title selection: the placeholder whenever no usable title is left. */
  function VideoTitle(raw: Option<string>, letters: string): (t: string)
    ensures t != []
    ensures !Falsy(raw) ==> (t == Sanitize(raw.value) <==> Sanitize(raw.value) != [])
  {
    if Falsy(raw) then Placeholder(letters)
    else
      var t := Sanitize(raw.value);
      if t == [] then Placeholder(letters) else t
  }

  /** Locale stage, from `Start`: validates the slug, then asks for the supported locales. */
  function LocaleStep(path: string, up: Upstream): (t: Transition)
    ensures t.next.Failed? || t.next.LocaleResolved?
    ensures |t.requests| == (if Slug(path) == [] then 0 else 1)
    ensures t.next.LocaleResolved? ==> t.next.slug == Slug(path) && t.next.locale in up.locale.locales
  {
    var slug := Slug(path);
    if slug == [] then Transition(Failed(MissingUrl), [])
    else
      var req := [LocaleRequest(slug)];
      if up.locale.status != 200 then Transition(Failed(LocalesUnavailable), req)
      else if up.locale.locales == [] then Transition(Failed(NoLocales), req)
      else Transition(LocaleResolved(slug, SelectLocale(up.locale.locales).value), req)
  }

  /** Metadata stage, from `LocaleResolved`: asks the locale-scoped feed for the video id. */
  function MetadataStep(slug: string, locale: string, up: Upstream): (t: Transition)
    ensures t.requests == [MetadataRequest(locale, slug)]
    ensures t.next.Failed? || t.next.MetadataResolved?
    ensures t.next.MetadataResolved? ==> t.next.slug == slug && t.next.locale == locale && t.next.videoId != []
  {
    var req := [MetadataRequest(locale, slug)];
    var m := up.metadata;
    if m.status != 200 then Transition(Failed(MetadataUnavailable), req)
    else
      match m.body
      case MissingData => Transition(Failed(MalformedMetadata), req)
      case MissingPageMeta => Transition(Failed(MalformedMetadata), req)
      case Fields(id, thumbnail) =>
        if Falsy(id) then Transition(Failed(MetadataUnavailable), req)
        else Transition(MetadataResolved(slug, locale, id.value, if Falsy(thumbnail) then "" else thumbnail.value), req)
  }

  /** Stream stage, from `MetadataResolved`: asks the video-resource API for the stream URL and title. */
  function StreamStep(locale: string, videoId: string, thumbnail: string, up: Upstream, letters: string): (t: Transition)
    ensures t.requests == [StreamRequest(videoId, locale)]
    ensures t.next.IsFinal()
    ensures t.next.StreamResolved? ==> t.next.descriptor.videoUrl != [] && t.next.descriptor.thumbnail == thumbnail
  {
    var req := [StreamRequest(videoId, locale)];
    var r := up.stream;
    if r.status != 200 || Falsy(r.videoUrl) then Transition(Failed(StreamUnavailable), req)
    else Transition(StreamResolved(Descriptor(VideoTitleAsWritten(r.title, letters), r.videoUrl.value, thumbnail)), req)
  }

  /** The requests of an earlier stage, followed by the rest of the run. */
  function Prepend(requests: seq<Request>, rest: Resolution): Resolution
  {
    Resolution(rest.final, requests + rest.requests)
  }

  /** The whole resolution of one page path: the stages in order, stopping at the first failure. */
  function Resolve(path: string, up: Upstream, letters: string): (r: Resolution)
    ensures r.final.IsFinal() && |r.requests| <= 3
  {
    var t1 := LocaleStep(path, up);
    if t1.next.LocaleResolved? then Prepend(t1.requests, AfterLocale(t1.next.slug, t1.next.locale, up, letters))
    else Resolution(t1.next, t1.requests)
  }

  /** The run from `LocaleResolved(slug, locale)` on. */
  function AfterLocale(slug: string, locale: string, up: Upstream, letters: string): (r: Resolution)
    ensures r.final.IsFinal() && 1 <= |r.requests| <= 2
  {
    var t2 := MetadataStep(slug, locale, up);
    if t2.next.MetadataResolved? then
      Prepend(t2.requests, AfterMetadata(locale, t2.next.videoId, t2.next.thumbnail, up, letters))
    else Resolution(t2.next, t2.requests)
  }

  /** The run from `MetadataResolved(_, locale, videoId, thumbnail)` on. */
  function AfterMetadata(locale: string, videoId: string, thumbnail: string, up: Upstream, letters: string): (r: Resolution)
    ensures r.final.IsFinal() && |r.requests| == 1
  {
    var t3 := StreamStep(locale, videoId, thumbnail, up, letters);
    Resolution(t3.next, t3.requests)
  }

  /** Number of upstream requests a run that ends in `f` has issued. */
  function RequestsBefore(f: Failure): nat
  {
    match f
    case MissingUrl => 0
    case LocalesUnavailable => 1
    case NoLocales => 1
    case MetadataUnavailable => 2
    case MalformedMetadata => 2
    case StreamUnavailable => 3
  }

  /** The selected locale of a successful locale stage. */
  function LocaleOf(up: Upstream): string
  {
    var l := SelectLocale(up.locale.locales);
    if l.Some? then l.value else ""
  }

  /** The locale stage lets the run go on. */
  predicate LocaleOk(path: string, up: Upstream)
  {
    Slug(path) != [] && up.locale.status == 200 && up.locale.locales != []
  }

  /** The metadata stage lets the run go on. */
  predicate MetadataOk(up: Upstream)
  {
    up.metadata.status == 200 && up.metadata.body.Fields? && !Falsy(up.metadata.body.id)
  }

  /** The stream stage succeeds. */
  predicate StreamOk(up: Upstream)
  {
    up.stream.status == 200 && !Falsy(up.stream.videoUrl)
  }

  function ThumbnailOf(up: Upstream): string
    requires up.metadata.body.Fields?
  {
    var t := up.metadata.body.thumbnail;
    if Falsy(t) then "" else t.value
  }

  /** The stream stage: one request carrying the video id and locale; success iff a stream URL came back. */
  lemma StreamStage(locale: string, videoId: string, thumbnail: string, up: Upstream, letters: string)
    ensures var r := AfterMetadata(locale, videoId, thumbnail, up, letters);
      r.requests == [StreamRequest(videoId, locale)]
      && r.final.IsFinal()
      && (r.final.StreamResolved? <==> StreamOk(up))
      && (!StreamOk(up) ==> r.final == Failed(StreamUnavailable))
  {
  }

  /** On success the descriptor carries the chosen title, the stream URL and the thumbnail handed on. */
  lemma StreamDescriptor(locale: string, videoId: string, thumbnail: string, up: Upstream, letters: string)
    requires StreamOk(up)
    ensures AfterMetadata(locale, videoId, thumbnail, up, letters).final
      == StreamResolved(Descriptor(VideoTitleAsWritten(up.stream.title, letters), up.stream.videoUrl.value, thumbnail))
  {
  }

  /** The metadata stage: one request for the locale-scoped feed, and its two failures. */
  lemma MetadataStage(slug: string, locale: string, up: Upstream, letters: string)
    ensures var r := AfterLocale(slug, locale, up, letters);
      |r.requests| >= 1 && r.requests[0] == MetadataRequest(locale, slug)
      && (r.final == Failed(MetadataUnavailable) <==>
            up.metadata.status != 200 || (up.metadata.body.Fields? && Falsy(up.metadata.body.id)))
      && (r.final == Failed(MalformedMetadata) <==> up.metadata.status == 200 && !up.metadata.body.Fields?)
      && (!MetadataOk(up) ==> |r.requests| == 1)
      && (MetadataOk(up) ==> r == Prepend([MetadataRequest(locale, slug)],
            AfterMetadata(locale, up.metadata.body.id.value, ThumbnailOf(up), up, letters)))
  {
    var r := AfterLocale(slug, locale, up, letters);
    if MetadataOk(up) {
      StreamStage(locale, up.metadata.body.id.value, ThumbnailOf(up), up, letters);
    }
  }

  /** An empty slug fails with MissingUrl before any request, and only an empty slug does. */
  lemma EmptySlugIssuesNothing(path: string, up: Upstream, letters: string)
    ensures Resolve(path, up, letters).final == Failed(MissingUrl) <==> Slug(path) == []
    ensures Slug(path) == [] ==> Resolve(path, up, letters).requests == []
  {
    if LocaleOk(path, up) {
      MetadataStage(Slug(path), LocaleOf(up), up, letters);
      if MetadataOk(up) {
        StreamStage(LocaleOf(up), up.metadata.body.id.value, ThumbnailOf(up), up, letters);
      }
    }
  }

  /** The locale stage: the first request, its two failures, and the locale it hands on. */
  lemma LocaleStage(path: string, up: Upstream, letters: string)
    requires Slug(path) != []
    ensures var r := Resolve(path, up, letters);
      |r.requests| >= 1 && r.requests[0] == LocaleRequest(Slug(path))
      && (r.final == Failed(LocalesUnavailable) <==> up.locale.status != 200)
      && (r.final == Failed(NoLocales) <==> up.locale.status == 200 && up.locale.locales == [])
      && (!LocaleOk(path, up) ==> |r.requests| == 1)
      && (LocaleOk(path, up) ==> r == Prepend([LocaleRequest(Slug(path))], AfterLocale(Slug(path), LocaleOf(up), up, letters)))
  {
    var r := Resolve(path, up, letters);
    var slug := Slug(path);
    var t1 := LocaleStep(path, up);
    assert t1.requests == [LocaleRequest(slug)];
    if !LocaleOk(path, up) {
      assert r == Resolution(t1.next, t1.requests);
    } else {
      var locale := LocaleOf(up);
      assert t1.next == LocaleResolved(slug, locale);
      var a := AfterLocale(slug, locale, up, letters);
      assert r == Prepend(t1.requests, a);
      MetadataStage(slug, locale, up, letters);
      if MetadataOk(up) {
        StreamStage(locale, up.metadata.body.id.value, ThumbnailOf(up), up, letters);
      }
      assert a.final != Failed(LocalesUnavailable) && a.final != Failed(NoLocales);
    }
  }

  /**
   * A run succeeds exactly when every stage does; it then has issued the three
   * requests in stage order and the descriptor carries the stream URL, the
   * (defaulted) thumbnail and the chosen title.
   */
  lemma ResolveSucceedsIff(path: string, up: Upstream, letters: string)
    ensures var r := Resolve(path, up, letters);
      (r.final.StreamResolved? <==> LocaleOk(path, up) && MetadataOk(up) && StreamOk(up))
      && (r.final.StreamResolved? ==>
            r.requests == [LocaleRequest(Slug(path)), MetadataRequest(LocaleOf(up), Slug(path)),
                           StreamRequest(up.metadata.body.id.value, LocaleOf(up))]
            && r.final.descriptor == Descriptor(VideoTitleAsWritten(up.stream.title, letters), up.stream.videoUrl.value, ThumbnailOf(up)))
  {
    var r := Resolve(path, up, letters);
    if Slug(path) == [] {
      EmptySlugIssuesNothing(path, up, letters);
    } else {
      LocaleStage(path, up, letters);
      if !LocaleOk(path, up) {
        assert r.final.Failed?;
      } else {
        var slug, locale := Slug(path), LocaleOf(up);
        var a := AfterLocale(slug, locale, up, letters);
        assert r == Prepend([LocaleRequest(slug)], a);
        MetadataStage(slug, locale, up, letters);
        if !MetadataOk(up) {
          assert a.final.Failed?;
        } else {
          var id, thumbnail := up.metadata.body.id.value, ThumbnailOf(up);
          var b := AfterMetadata(locale, id, thumbnail, up, letters);
          assert a == Prepend([MetadataRequest(locale, slug)], b);
          StreamStage(locale, id, thumbnail, up, letters);
          assert r.final == b.final;
          if StreamOk(up) {
            StreamDescriptor(locale, id, thumbnail, up, letters);
            assert r.requests == [LocaleRequest(slug)] + ([MetadataRequest(locale, slug)] + [StreamRequest(id, locale)]);
          }
        }
      }
    }
  }

  /** The URLs a successful run fetched, in stage order, as the handler builds them. */
  lemma ResolvedUrls(path: string, up: Upstream, letters: string)
    requires LocaleOk(path, up) && MetadataOk(up) && StreamOk(up)
    ensures var r := Resolve(path, up, letters);
      |r.requests| == 3
      && r.requests[0].Url() == LocaleUrl(Slug(path))
      && r.requests[1].Url() == MetadataUrl(LocaleOf(up), Slug(path))
      && r.requests[2].Url() == StreamUrl(up.metadata.body.id.value, LocaleOf(up))
  {
    ResolveSucceedsIff(path, up, letters);
    RequestUrls(Slug(path), LocaleOf(up), up.metadata.body.id.value);
  }

  /** The three requests of a run render to the three endpoint URLs. */
  lemma RequestUrls(slug: string, locale: string, id: string)
    ensures var reqs := [LocaleRequest(slug), MetadataRequest(locale, slug), StreamRequest(id, locale)];
      reqs[0].Url() == LocaleUrl(slug) && reqs[1].Url() == MetadataUrl(locale, slug)
      && reqs[2].Url() == StreamUrl(id, locale)
  {
  }

  /** Stages run strictly in order: a run records exactly one request per stage it reached. */
  lemma ResolveRequestCount(path: string, up: Upstream, letters: string)
    ensures var r := Resolve(path, up, letters);
      r.final.IsFinal()
      && |r.requests| == (if r.final.Failed? then RequestsBefore(r.final.failure) else 3)
  {
    var r := Resolve(path, up, letters);
    if Slug(path) != [] {
      LocaleStage(path, up, letters);
      if !LocaleOk(path, up) {
        assert r.final == Failed(LocalesUnavailable) || r.final == Failed(NoLocales);
      } else {
        var a := AfterLocale(Slug(path), LocaleOf(up), up, letters);
        AfterLocaleRequestCount(Slug(path), LocaleOf(up), up, letters);
        assert r == Prepend([LocaleRequest(Slug(path))], a);
      }
    }
  }

  /** The run after the locale stage issues one request fewer than the whole run. */
  lemma AfterLocaleRequestCount(slug: string, locale: string, up: Upstream, letters: string)
    ensures var a := AfterLocale(slug, locale, up, letters);
      (a.final.Failed? ==> a.final.failure != MissingUrl && a.final.failure != LocalesUnavailable
                           && a.final.failure != NoLocales)
      && |a.requests| == (if a.final.Failed? then RequestsBefore(a.final.failure) - 1 else 2)
  {
    var a := AfterLocale(slug, locale, up, letters);
    MetadataStage(slug, locale, up, letters);
    if !MetadataOk(up) {
      assert a.final == Failed(MetadataUnavailable) || a.final == Failed(MalformedMetadata);
    } else {
      var id := up.metadata.body.id.value;
      StreamStage(locale, id, ThumbnailOf(up), up, letters);
      assert a == Prepend([MetadataRequest(locale, slug)], AfterMetadata(locale, id, ThumbnailOf(up), up, letters));
    }
  }

  /** Where letter k lands in `sep.join(letters)`. */
  function LetterAt(sep: string, k: nat): nat
  {
    if k == 0 then 0 else LetterAt(sep, k - 1) + |sep| + 1
  }

  lemma {:induction false} LetterAtIsProduct(sep: string, k: nat)
    ensures LetterAt(sep, k) == k * (|sep| + 1)
  {
    if k > 0 {
      LetterAtIsProduct(sep, k - 1);
      assert k * (|sep| + 1) == (k - 1) * (|sep| + 1) + |sep| + 1;
    }
  }

  /** `sep.join` over single letters puts letter k at `LetterAt(sep, k)`. */
  lemma {:induction false} JoinLetterAt(sep: string, letters: string, k: nat)
    requires k < |letters|
    ensures LetterAt(sep, k) < |Join(sep, letters)| && Join(sep, letters)[LetterAt(sep, k)] == letters[k]
  {
    if k > 0 {
      var head := [letters[0]] + sep;
      var rest := Join(sep, letters[1..]);
      assert Join(sep, letters) == head + rest;
      JoinLetterAt(sep, letters[1..], k - 1);
      assert LetterAt(sep, k) == |head| + LetterAt(sep, k - 1);
    }
  }

  lemma SliceAfterPrefix(a: string, b: string, i: nat, j: nat)
    requires i <= j <= |b|
    ensures (a + b)[|a| + i .. |a| + j] == b[i..j]
  {
  }

  /** `sep.join` over single letters puts a full copy of `sep` right after every letter but the last. */
  lemma {:induction false} JoinSeparatorAt(sep: string, letters: string, k: nat)
    requires k + 1 < |letters|
    ensures LetterAt(sep, k) + 1 + |sep| <= |Join(sep, letters)|
    ensures Join(sep, letters)[LetterAt(sep, k) + 1 .. LetterAt(sep, k) + 1 + |sep|] == sep
  {
    var head := [letters[0]] + sep;
    var rest := Join(sep, letters[1..]);
    assert Join(sep, letters) == head + rest;
    if k == 0 {
      assert (head + rest)[1 .. 1 + |sep|] == sep;
    } else {
      var p := LetterAt(sep, k - 1);
      JoinSeparatorAt(sep, letters[1..], k - 1);
      assert LetterAt(sep, k) + 1 == |head| + (p + 1);
      SliceAfterPrefix(head, rest, p + 1, p + 1 + |sep|);
    }
  }

  /** The last four letters of the written placeholder, with the tag between them. */
  lemma JoinLastFour(letters: string)
    requires |letters| == 8
    ensures var l := letters;
      Join(Tag, l[4..]) == [l[4]] + Tag + [l[5]] + Tag + [l[6]] + Tag + [l[7]]
  {
    var l := letters;
    assert l[4..][1..] == l[5..] && l[5..][1..] == l[6..] && l[6..][1..] == l[7..];
    assert Join(Tag, l[7..]) == [l[7]];
    assert Join(Tag, l[6..]) == [l[6]] + Tag + [l[7]];
  }

  /** The whole written placeholder: the 8 letters with the tag between them. */
  lemma PlaceholderAsWrittenUnfolds(letters: string)
    requires |letters| == 8
    ensures var l := letters;
      PlaceholderAsWritten(letters)
        == [l[0]] + Tag + [l[1]] + Tag + [l[2]] + Tag + [l[3]] + Tag + Join(Tag, l[4..])
  {
    var l := letters;
    assert l[1..][1..] == l[2..] && l[2..][1..] == l[3..] && l[3..][1..] == l[4..];
    assert Join(Tag, l[2..]) == [l[2]] + Tag + [l[3]] + Tag + Join(Tag, l[4..]);
    assert Join(Tag, l[1..]) == [l[1]] + Tag + Join(Tag, l[2..]);
  }

  /**
   * The placeholder as written interleaves: the 8 letters with the tag between
   * them, 43 characters, and it does not start with the tag.
   */
  lemma PlaceholderAsWrittenInterleaves(letters: string)
    requires ValidLetters(letters)
    ensures var l := letters;
      PlaceholderAsWritten(letters)
        == [l[0]] + Tag + [l[1]] + Tag + [l[2]] + Tag + [l[3]] + Tag + [l[4]] + Tag + [l[5]] + Tag + [l[6]] + Tag + [l[7]]
    ensures |PlaceholderAsWritten(letters)| == 43
    ensures PlaceholderAsWritten(letters)[..5] != Tag
  {
    JoinLastFour(letters);
    PlaceholderAsWrittenUnfolds(letters);
    var r := PlaceholderAsWritten(letters);
    assert r[1] == Tag[0] == 'r';
  }

  /** The corrected placeholder: the tag, then the 8 letters; already a clean title. */
  lemma PlaceholderIsCleanTitle(letters: string)
    requires ValidLetters(letters)
    ensures |Placeholder(letters)| == 13
    ensures Placeholder(letters)[..5] == Tag && Placeholder(letters)[5..] == letters
    ensures IsClean(Placeholder(letters))
    ensures Sanitize(Placeholder(letters)) == Placeholder(letters)
  {
    var p := Placeholder(letters);
    forall i | 0 <= i < |p| ensures IsAllowed(p[i]) && p[i] != '_'
    {
      if i >= 5 { assert p[i] == letters[i - 5]; }
    }
    assert IsAsciiLetter(p[12]);
    SanitizeKeepsClean(p);
  }

  /** As written, a title that sanitises to nothing yields an empty title. */
  lemma VideoTitleAsWrittenCanBeEmpty(letters: string)
    ensures VideoTitleAsWritten(Some("!!!"), letters) == ""
  {
    AllPunctuationEmpty();
  }

  /** The corrected title is never empty and is always a sanitised string. */
  lemma VideoTitleUsable(raw: Option<string>, letters: string)
    requires ValidLetters(letters)
    ensures var t := VideoTitle(raw, letters);
      t != [] && AllAllowed(t) && |t| <= MaxTitleLength && NoDoubleUnderscore(t) && StartsClean(t)
    ensures Falsy(raw) ==> VideoTitle(raw, letters) == Placeholder(letters)
  {
    if Falsy(raw) {
      PlaceholderIsCleanTitle(letters);
    } else if Sanitize(raw.value) == [] {
      PlaceholderIsCleanTitle(letters);
    }
  }

  /** The corrected title differs from the written one exactly where the written one is wrong. */
  lemma VideoTitleAgreesIff(raw: Option<string>, letters: string)
    requires ValidLetters(letters)
    ensures VideoTitle(raw, letters) == VideoTitleAsWritten(raw, letters)
      <==> !Falsy(raw) && Sanitize(raw.value) != []
  {
    PlaceholderAsWrittenInterleaves(letters);
    PlaceholderIsCleanTitle(letters);
  }
}
