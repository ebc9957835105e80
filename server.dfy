/**
 * The HTTP handler `GET /api/download`: the resolution pipeline, its failures
 * mapped to JSON error replies, the probe branch, and the streaming reply
 * whose body is the chunk relay.
 */
module Server {
  import opened Common
  import opened Sanitizer
  import opened Urls
  import opened Resolution

  /** What the handler sends back. */
  datatype Reply =
    | ErrorJson(status: int, message: string)                         // {"status": "error", "message": ...}
    | ProbeJson(title: string, videoUrl: string, thumbnail: string)   // 200 {"status": "success", ...}
    | Media(contentDisposition: string, videoUrl: string)             // 200 video/mp4, body relayed from ffmpeg

  datatype Outcome = Outcome(reply: Reply, requests: seq<Request>)

  /** HTTP status of a failed run; an uncaught AttributeError reaches the generic 500 handler. */
  function ErrorStatus(f: Failure): int
  {
    if f == MissingUrl then 400 else 500
  }

  function ErrorMessage(f: Failure): string
  {
    match f
    case MissingUrl => "Missing url parameter"
    case LocalesUnavailable => "Unable to fetch video locales"
    case NoLocales => "No locales available for this video"
    case MetadataUnavailable => "Unable to fetch video metadata"
    case MalformedMetadata => "Internal server error"
    case StreamUnavailable => "Unable to fetch M3U stream"
  }

  /** Query arguments are strings, so only the string "1" selects probe mode. */
  predicate IsProbe(probe: Option<string>)
  {
    probe == Some("1")
  }

  const DispositionPrefix: string := "attachment; filename="
  const MediaSuffix: string := ".mp4"

  /** The `Content-Disposition` header of a download reply. */
  function Disposition(title: string): (h: string)
    ensures FilenameOf(h) == Some(title)
  {
    var h := DispositionPrefix + title + MediaSuffix;
    assert h[..|DispositionPrefix|] == DispositionPrefix;
    assert h[|h| - |MediaSuffix|..] == MediaSuffix;
    assert h[|DispositionPrefix|..|h| - |MediaSuffix|] == title;
    h
  }

  /** The file name a client reads back out of a `Content-Disposition` header built by `Disposition`. */
  function FilenameOf(header: string): Option<string>
  {
    if |header| >= |DispositionPrefix| + |MediaSuffix|
       && header[..|DispositionPrefix|] == DispositionPrefix
       && header[|header| - |MediaSuffix|..] == MediaSuffix
    then Some(header[|DispositionPrefix|..|header| - |MediaSuffix|])
    else None
  }

  /** The whole handler: `path` is the parsed URL path, `probe` the `probe` query argument. */
  function HandleDownload(path: string, probe: Option<string>, up: Upstream, letters: string): (o: Outcome)
    ensures o.reply.ErrorJson? <==> Resolve(path, up, letters).final.Failed?
    ensures o.requests == Resolve(path, up, letters).requests && |o.requests| <= 3
  {
    var r := Resolve(path, up, letters);
    Outcome(ReplyOf(r.final, probe), r.requests)
  }

  /** The reply for the final stage of a run. */
  function ReplyOf(final: Stage, probe: Option<string>): (r: Reply)
    ensures final.IsFinal() ==> (r.ErrorJson? <==> final.Failed?)
    ensures r.ErrorJson? ==> r.status == 400 || r.status == 500
    ensures final.StreamResolved? ==> (r.ProbeJson? <==> IsProbe(probe))
  {
    match final
    case StreamResolved(d) =>
      if IsProbe(probe) then ProbeJson(d.title, d.videoUrl, d.thumbnail)
      else Media(Disposition(d.title), d.videoUrl)
    case Failed(f) => ErrorJson(ErrorStatus(f), ErrorMessage(f))
    case _ => ErrorJson(500, ErrorMessage(MalformedMetadata))
  }

  /** Distinct failures give distinct messages, so an error reply names the stage that failed. */
  lemma ErrorMessagesDistinct(f: Failure, g: Failure)
    ensures ErrorMessage(f) == ErrorMessage(g) <==> f == g
  {
  }

  /** An empty slug gives 400 "Missing url parameter" and no upstream request, and only an empty slug does. */
  lemma MissingUrlReply(path: string, probe: Option<string>, up: Upstream, letters: string)
    ensures var o := HandleDownload(path, probe, up, letters);
      (o.reply == ErrorJson(400, "Missing url parameter") <==> Slug(path) == [])
      && (Slug(path) == [] ==> o.requests == [])
  {
    EmptySlugIssuesNothing(path, up, letters);
    ErrorReply(path, probe, up, letters);
  }

  /** An error reply is 400 or 500 and names the failing stage; it comes exactly from a failed run. */
  lemma ErrorReply(path: string, probe: Option<string>, up: Upstream, letters: string)
    ensures var o := HandleDownload(path, probe, up, letters);
      var r := Resolve(path, up, letters);
      (o.reply.ErrorJson? <==> r.final.Failed?)
      && (o.reply.ErrorJson? ==>
            o.reply.message == ErrorMessage(r.final.failure)
            && (o.reply.status == 400 <==> r.final.failure == MissingUrl)
            && (o.reply.status == 400 || o.reply.status == 500))
      && o.requests == r.requests
  {
    ResolveRequestCount(path, up, letters);
  }

  /** A probe reply is sent exactly when every stage succeeds and `probe` is "1"; it carries the descriptor. */
  lemma ProbeReply(path: string, probe: Option<string>, up: Upstream, letters: string)
    ensures var o := HandleDownload(path, probe, up, letters);
      (o.reply.ProbeJson? <==> LocaleOk(path, up) && MetadataOk(up) && StreamOk(up) && IsProbe(probe))
      && (o.reply.ProbeJson? ==>
            o.reply == ProbeJson(VideoTitleAsWritten(up.stream.title, letters), up.stream.videoUrl.value, ThumbnailOf(up))
            && |o.requests| == 3)
  {
    ResolveSucceedsIff(path, up, letters);
  }

  /** A media reply is sent exactly when every stage succeeds and `probe` is not "1". */
  lemma MediaReply(path: string, probe: Option<string>, up: Upstream, letters: string)
    ensures var o := HandleDownload(path, probe, up, letters);
      (o.reply.Media? <==> LocaleOk(path, up) && MetadataOk(up) && StreamOk(up) && !IsProbe(probe))
      && (o.reply.Media? ==>
            o.reply == Media(Disposition(VideoTitleAsWritten(up.stream.title, letters)), up.stream.videoUrl.value)
            && |o.requests| == 3)
  {
    ResolveSucceedsIff(path, up, letters);
  }

  /** Only the exact string "1" selects probe mode. */
  lemma ProbeValues()
    ensures IsProbe(Some("1"))
    ensures !IsProbe(None) && !IsProbe(Some("")) && !IsProbe(Some("01")) && !IsProbe(Some("true"))
  {
    assert "01" != "1" && "true" != "1";
  }

  /** The header is the title followed by `.mp4`, and reading the file name back gives the title. */
  lemma DispositionRoundTrip(title: string)
    ensures FilenameOf(Disposition(title)) == Some(title)
    ensures |Disposition(title)| == |DispositionPrefix| + |title| + 4
  {
    var h := Disposition(title);
    assert h[..|DispositionPrefix|] == DispositionPrefix;
    assert h[|h| - |MediaSuffix|..] == MediaSuffix;
    assert h[|DispositionPrefix|..|h| - |MediaSuffix|] == title;
  }

  /** Characters that would end or split an unquoted header parameter. */
  predicate HeaderSafe(c: char)
  {
    c != '\r' && c != '\n' && c != ';' && c != '"' && c != ','
  }

  /** A title from the sanitiser's character set cannot break out of the header. */
  lemma DispositionOfAllowed(t: string)
    requires AllAllowed(t)
    ensures var h := Disposition(t);
      forall i | |DispositionPrefix| <= i < |h| :: HeaderSafe(h[i])
  {
    var h := Disposition(t);
    forall i | |DispositionPrefix| <= i < |h| ensures HeaderSafe(h[i])
    {
      if i < |DispositionPrefix| + |t| {
        assert h[i] == t[i - |DispositionPrefix|];
        assert IsAllowed(t[i - |DispositionPrefix|]);
      } else {
        assert h[i] == MediaSuffix[i - |DispositionPrefix| - |t|];
      }
    }
  }

  /** With the corrected title the file name is never empty and cannot break out of the header. */
  lemma DispositionSafe(raw: Option<string>, letters: string)
    requires ValidLetters(letters)
    ensures var t := VideoTitle(raw, letters);
      var h := Disposition(t);
      FilenameOf(h) == Some(t) && t != []
      && forall i | |DispositionPrefix| <= i < |h| :: HeaderSafe(h[i])
  {
    var t := VideoTitle(raw, letters);
    VideoTitleUsable(raw, letters);
    DispositionRoundTrip(t);
    DispositionOfAllowed(t);
  }

  /** As written, a title made only of punctuation leaves the bare name `.mp4`: a hidden file with no name. */
  lemma DispositionAsWrittenNameless(letters: string)
    ensures Disposition(VideoTitleAsWritten(Some("!!!"), letters)) == DispositionPrefix + ".mp4"
    ensures FilenameOf(Disposition(VideoTitleAsWritten(Some("!!!"), letters))) == Some("")
  {
    VideoTitleAsWrittenCanBeEmpty(letters);
    DispositionRoundTrip("");
  }
}
