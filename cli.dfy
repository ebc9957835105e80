/**
 * The command-line entry point `rbtv-dl-cli.py`: the shared resolution
 * pipeline with its failures mapped to a return code, the output file name,
 * and the loop that writes the relayed chunks to the file.
 */
module Cli {
  import opened Common
  import opened Sanitizer
  import opened Urls
  import opened Resolution
  import opened Server
  import opened Relay
  import opened Paths

  // ---------------------------------------------------------------------------
  // Resolution outcome

  /** How `download_stream` leaves the resolution stages. */
  datatype CliExit =
    | ReturnedOne                     // a stage failed: an error line, then `return 1`
    | Crashed                         // `data` or `pageMeta` absent: the AttributeError escapes
    | Continued(descriptor: Descriptor)

  function CliResolve(path: string, up: Upstream, letters: string): (e: CliExit)
    ensures e.Continued? <==> Resolve(path, up, letters).final.StreamResolved?
    ensures e == Crashed <==> Resolve(path, up, letters).final == Failed(MalformedMetadata)
  {
    match Resolve(path, up, letters).final
    case StreamResolved(d) => Continued(d)
    case Failed(f) => if f == MalformedMetadata then Crashed else ReturnedOne
    case _ => Crashed
  }

  /**
   * Both entry points share one pipeline: the tool returns 1 exactly when the
   * server would send a stage error, crashes exactly when the server falls back
   * to its generic 500 reply, and otherwise goes on with the descriptor the
   * server would send or stream.
   */
  lemma CliAgreesWithServer(path: string, probe: Option<string>, up: Upstream, letters: string)
    ensures var reply := HandleDownload(path, probe, up, letters).reply;
      (CliResolve(path, up, letters) == ReturnedOne <==>
         reply.ErrorJson? && reply.message != ErrorMessage(MalformedMetadata))
      && (CliResolve(path, up, letters) == Crashed <==> reply == ErrorJson(500, ErrorMessage(MalformedMetadata)))
      && (CliResolve(path, up, letters).Continued? ==>
            var d := CliResolve(path, up, letters).descriptor;
            reply == (if IsProbe(probe) then ProbeJson(d.title, d.videoUrl, d.thumbnail)
                      else Media(Disposition(d.title), d.videoUrl)))
  {
    ErrorReply(path, probe, up, letters);
    var r := Resolve(path, up, letters);
    if r.final.Failed? && r.final.failure != MalformedMetadata {
      ErrorMessagesDistinct(r.final.failure, MalformedMetadata);
    }
  }

  /** The tool returns 1 before any request exactly when the slug is empty. */
  lemma CliEmptySlug(path: string, up: Upstream, letters: string)
    ensures Slug(path) == [] ==> CliResolve(path, up, letters) == ReturnedOne && Resolve(path, up, letters).requests == []
    ensures CliResolve(path, up, letters) == ReturnedOne && Resolve(path, up, letters).requests == [] ==> Slug(path) == []
  {
    EmptySlugIssuesNothing(path, up, letters);
    ResolveRequestCount(path, up, letters);
  }

  // ---------------------------------------------------------------------------
  // Output file name

  /**
   * The output path: a missing or empty `-o` falls back to the title; a path
   * whose suffix is not `.mp4` in any case has that suffix replaced by `.mp4`.
   */
  function OutputName(outputFile: Option<string>, title: string): (r: Result<string, NameError>)
    ensures r.Err? <==> LastSegment(TrimSlashes(ChosenPath(outputFile, title))) == []
  {
    WithMp4(ChosenPath(outputFile, title))
  }

  /** `if not output_file: output_file = video_title`. */
  function ChosenPath(outputFile: Option<string>, title: string): string
  {
    if outputFile == None || outputFile == Some("") then title else outputFile.value
  }

  /** Without `-o`, or with an empty one, the title is the path; any other `-o` is used as given. */
  lemma OutputNameFallback(outputFile: Option<string>, title: string)
    ensures outputFile == None || outputFile == Some("") ==> OutputName(outputFile, title) == WithMp4(title)
    ensures outputFile.Some? && outputFile.value != [] ==> OutputName(outputFile, title) == WithMp4(outputFile.value)
  {
  }

  /** The corrected title always gives a file name: no '/' in it, and it is never empty. */
  lemma TitleGivesName(raw: Option<string>, letters: string)
    requires ValidLetters(letters)
    ensures OutputName(None, VideoTitle(raw, letters)).Ok?
  {
    var t := VideoTitle(raw, letters);
    VideoTitleUsable(raw, letters);
    assert '/' !in t by {
      forall i | 0 <= i < |t| ensures t[i] != '/' { assert IsAllowed(t[i]); }
    }
    assert TrimSlashes(t) == t;
    LastSegmentOfPlain(t);
    WithMp4FailsIff(t);
  }

  /** As written, a title that sanitises to nothing leaves no name, and `with_suffix` raises. */
  lemma AsWrittenTitleGivesNoName(letters: string)
    ensures OutputName(None, VideoTitleAsWritten(Some("!!!"), letters)) == Err(EmptyName)
  {
    VideoTitleAsWrittenCanBeEmpty(letters);
    assert TrimSlashes("") == "";
    WithMp4FailsIff("");
  }

  // ---------------------------------------------------------------------------
  // Writing the stream

  /** The file opened with `open(output_file, 'wb')`; `failAt` is the write that raises, if any. */
  class OutputFile {
    var content: seq<byte>
    var writes: nat
    ghost var written: seq<seq<byte>>
    const failAt: Option<nat>

    ghost predicate Valid()
      reads this
    {
      writes == |written| && content == Flatten(written)
    }

    constructor (failAt: Option<nat>)
      ensures Valid() && content == [] && written == [] && this.failAt == failAt
    {
      content := [];
      writes := 0;
      written := [];
      this.failAt := failAt;
    }

    /** `f.write(chunk)`: appends the chunk, or raises and leaves the file as it was. */
    method Write(chunk: seq<byte>) returns (ok: bool)
      requires Valid()
      modifies this
      ensures Valid()
      ensures ok <==> failAt != Some(old(writes))
      ensures ok ==> written == old(written) + [chunk] && content == old(content) + chunk
      ensures !ok ==> written == old(written) && content == old(content)
    {
      ok := failAt != Some(writes);
      if ok {
        FlattenSnoc(written, chunk);
        written := written + [chunk];
        content := content + chunk;
        writes := writes + 1;
      }
    }
  }

  /** How the write loop ends. */
  datatype SaveOutcome =
    | Completed      // "Successfully saved ..."
    | Interrupted    // KeyboardInterrupt: the partial file is kept
    | WriteFailed    // any other exception: "File writing failed"

  /** The chunks the file receives and how the loop ends. */
  datatype Saving = Saving(written: seq<seq<byte>>, outcome: SaveOutcome)

  function OutcomeOf(e: Option<Exc>): SaveOutcome
  {
    match e
    case None => Completed
    case Some(KeyboardInterrupt) => Interrupted
    case Some(_) => WriteFailed
  }

  /**
   * What the write loop does with a given stdout and a given failing write:
   * every relayed chunk up to the failing write, in order.
   */
  function ExpectedSaving(source: seq<ReadResult>, failAt: Option<nat>): (s: Saving)
    ensures s.written <= Relayed(source)
    ensures s.outcome != WriteFailed ==> s.written == Relayed(source)
    ensures failAt == None ==> s == Saving(Relayed(source), OutcomeOf(Ending(source)))
  {
    var chunks := Relayed(source);
    if failAt.Some? && failAt.value < |chunks| then Saving(chunks[..failAt.value], WriteFailed)
    else Saving(chunks, OutcomeOf(Ending(source)))
  }

  /** The file receives a prefix of the relayed chunks, each 1..8192 bytes; all of them unless a write fails. */
  lemma ExpectedSavingIsPrefix(source: seq<ReadResult>, failAt: Option<nat>)
    requires ReadsValid(source)
    ensures var s := ExpectedSaving(source, failAt);
      s.written <= Relayed(source)
      && (forall i | 0 <= i < |s.written| :: 0 < |s.written[i]| <= ChunkSize)
      && (s.outcome != WriteFailed ==> s.written == Relayed(source))
      && (failAt == None ==> s.written == Relayed(source) && s.outcome == OutcomeOf(Ending(source)))
  {
    RelayedChunksBounded(source);
  }

  /** `w` is what the first `|w|` stdout reads delivered, each a non-empty chunk. */
  ghost predicate DeliveredSoFar(source: seq<ReadResult>, w: seq<seq<byte>>)
  {
    |w| <= |source| && forall i | 0 <= i < |w| :: source[i] == Data(w[i]) && w[i] != []
  }

  /** When the next read ends the relay, the file has every relayed chunk and the loop ends as that read says. */
  lemma SavedAll(source: seq<ReadResult>, w: seq<seq<byte>>, failAt: Option<nat>)
    requires DeliveredSoFar(source, w)
    requires !StepAt(source, |w|).Yield?
    requires failAt.Some? ==> failAt.value >= |w|
    ensures ExpectedSaving(source, failAt) ==
      Saving(w, match StepAt(source, |w|) case Raised(e) => OutcomeOf(Some(e)) case _ => Completed)
  {
    RelayedStops(source, |w|);
    RelayedPrefix(source, |w|);
    assert Relayed(source) == w;
  }

  /** When the write of the next chunk fails, the file keeps the chunks before it. */
  lemma SavedUntilFailure(source: seq<ReadResult>, w: seq<seq<byte>>, failAt: Option<nat>)
    requires DeliveredSoFar(source, w)
    requires StepAt(source, |w|).Yield? && failAt == Some(|w|)
    ensures ExpectedSaving(source, failAt) == Saving(w, WriteFailed)
  {
    var chunk := StepAt(source, |w|).chunk;
    assert DeliveredSoFar(source, w + [chunk]);
    RelayedPrefix(source, |w| + 1);
    assert Relayed(source)[..|w|] == w;
  }

  /**
   * `with open(...) as f: for chunk in generate(): f.write(chunk); received_bytes += len(chunk)`.
   * A failing write drops the generator, whose `close()` runs the teardown.
   */
  method SaveStream(g: Generator, f: OutputFile) returns (received: nat, outcome: SaveOutcome)
    requires g.Valid() && g.state == NotStarted
    requires f.Valid() && f.written == []
    modifies g, g.process, f
    ensures f.Valid() && received == |f.content|
    ensures Saving(f.written, outcome) == ExpectedSaving(old(g.source), f.failAt)
    ensures g.Valid() && g.state == Finished(true)
    ensures g.process.State() == TeardownState(old(g.process.State()).(pending := g.process.pending))
    ensures g.log == old(g.log) + TeardownLog(old(g.process.State()))
  {
    received := 0;
    ghost var s0 := g.process.State();
    ghost var log0 := g.log;
    while true
      invariant g.Valid() && f.Valid()
      invariant g.source == old(g.source)
      invariant received == |f.content|
      invariant !g.state.Finished? && f.written == g.yielded
      invariant f.failAt.Some? ==> f.failAt.value >= |f.written|
      invariant g.process.State() == s0.(pending := g.process.pending) && g.log == log0
      decreases |g.source| - |g.yielded|
    {
      var done, n, last := SavePass(g, f, s0, log0);
      received := received + n;
      if done {
        outcome := last;
        return;
      }
    }
  }

  /**
   * One pass of the write loop: take the next chunk from the generator and
   * write it. `done` says the loop is over, `n` how many bytes were added.
   */
  method SavePass(g: Generator, f: OutputFile, ghost s0: ProcState, ghost log0: seq<seq<byte>>)
    returns (done: bool, n: nat, outcome: SaveOutcome)
    requires g.Valid() && f.Valid()
    requires !g.state.Finished? && f.written == g.yielded
    requires f.failAt.Some? ==> f.failAt.value >= |f.written|
    requires g.process.State() == s0.(pending := g.process.pending) && g.log == log0
    modifies g, g.process, f
    ensures g.Valid() && f.Valid() && g.source == old(g.source)
    ensures |f.content| == |old(f.content)| + n
    ensures !done ==>
      !g.state.Finished? && f.written == g.yielded && |g.yielded| == |old(g.yielded)| + 1
      && (f.failAt.Some? ==> f.failAt.value >= |f.written|)
      && g.process.State() == s0.(pending := g.process.pending) && g.log == log0
    ensures done ==>
      Saving(f.written, outcome) == ExpectedSaving(g.source, f.failAt) && g.state == Finished(true)
      && g.process.State() == TeardownState(s0.(pending := g.process.pending))
      && g.log == log0 + TeardownLog(s0)
  {
    var step := Pull(g, s0, log0);
    if !step.Yield? {
      SavedAll(g.source, f.written, f.failAt);
      outcome := if step.Raised? then OutcomeOf(Some(step.exc)) else Completed;
      return true, 0, outcome;
    }
    var ok := WriteChunk(g, f, step.chunk, s0, log0);
    if !ok {
      return true, 0, WriteFailed;
    }
    return false, |step.chunk|, Completed;
  }

  /** A process torn down from `s0` with other pending reads got the signals `s0` calls for. */
  lemma SignalsAfterTeardown(s0: ProcState, t: ProcState)
    requires t == TeardownState(s0.(pending := t.pending))
    ensures t.terminated <==> s0.terminated || s0.running
    ensures t.killed <==> s0.killed || (s0.running && !s0.waitOk)
  {
    TeardownIgnoresPending(s0, t.pending);
    TeardownSignals(s0);
  }

  /**
   * `next` on the generator, seen from the write loop: everything about the
   * process but its pending stdout reads is still `s0`.
   */
  method Pull(g: Generator, ghost s0: ProcState, ghost log0: seq<seq<byte>>) returns (step: Step)
    requires g.Valid() && !g.state.Finished?
    requires g.process.State() == s0.(pending := g.process.pending) && g.log == log0
    modifies g, g.process
    ensures g.Valid() && g.source == old(g.source) && step == StepAt(g.source, |old(g.yielded)|)
    ensures step.Yield? ==>
      g.state == Suspended && g.yielded == old(g.yielded) + [step.chunk]
      && g.process.State() == s0.(pending := g.process.pending) && g.log == log0
    ensures !step.Yield? ==>
      g.state == Finished(true) && g.yielded == old(g.yielded)
      && g.process.State() == TeardownState(s0.(pending := g.process.pending))
      && g.log == log0 + TeardownLog(s0)
  {
    ghost var before := g.process.State();
    step := g.Next();
    if !step.Yield? {
      TeardownIgnoresPending(s0, RestReads(before));
    }
  }

  /** `f.write(chunk)` for a chunk just yielded; when it raises, the generator is closed. */
  method WriteChunk(g: Generator, f: OutputFile, chunk: seq<byte>, ghost s0: ProcState, ghost log0: seq<seq<byte>>)
    returns (ok: bool)
    requires g.Valid() && f.Valid() && g.state == Suspended
    requires f.written + [chunk] == g.yielded && StepAt(g.source, |f.written|) == Yield(chunk)
    requires f.failAt.Some? ==> f.failAt.value >= |f.written|
    requires g.process.State() == s0.(pending := g.process.pending) && g.log == log0
    modifies g, g.process, f
    ensures g.Valid() && f.Valid() && g.source == old(g.source) && g.yielded == old(g.yielded)
    ensures ok ==>
      f.content == old(f.content) + chunk && f.written == g.yielded && g.state == Suspended
      && (f.failAt.Some? ==> f.failAt.value >= |f.written|)
      && g.process.State() == old(g.process.State()) && g.log == log0
    ensures !ok ==>
      f.content == old(f.content) && g.state == Finished(true)
      && Saving(f.written, WriteFailed) == ExpectedSaving(g.source, f.failAt)
      && g.process.State() == TeardownState(s0.(pending := g.process.pending))
      && g.log == log0 + TeardownLog(s0)
  {
    ok := f.Write(chunk);
    if !ok {
      SavedUntilFailure(g.source, f.written, f.failAt);
      TeardownIgnoresPending(s0, g.process.pending);
      var _ := g.Interrupt(GeneratorExit);
    }
  }

  // ---------------------------------------------------------------------------
  // The whole command

  /** What `download_stream` ends with. */
  datatype CliReport =
    | ExitedOne
    | CrashedOnMetadata
    | WritingFailed                       // bad name, `open` failed, a write or a read raised
    | Saved(file: string, received: nat)
    | InterruptedByUser(file: string, received: nat)

  /**
   * `download_stream(base_url, output_file)` after URL parsing. `g` is the
   * relay over the ffmpeg process the stages lead to, `opens` whether `open`
   * succeeds, `f` the file it opens.
   */
  method DownloadStream(path: string, outputFile: Option<string>, up: Upstream, letters: string,
                        opens: bool, g: Generator, f: OutputFile) returns (report: CliReport)
    requires g.Valid() && g.state == NotStarted
    requires f.Valid() && f.written == []
    modifies g, g.process, f
    ensures CliResolve(path, up, letters) == ReturnedOne ==>
      report == ExitedOne && g.state == NotStarted && f.written == []
      && g.process.State() == old(g.process.State())
    ensures CliResolve(path, up, letters) == Crashed ==>
      report == CrashedOnMetadata && g.state == NotStarted && f.written == []
      && g.process.State() == old(g.process.State())
    ensures CliResolve(path, up, letters).Continued? ==>
      var name := OutputName(outputFile, CliResolve(path, up, letters).descriptor.title);
      if name.Err? || !opens then
        report == WritingFailed && g.state == NotStarted && f.written == []
        && g.process.State() == old(g.process.State())
      else
        var expected := ExpectedSaving(old(g.source), f.failAt);
        f.written == expected.written
        && g.state == Finished(true) && g.process.stdoutClosed && g.process.stderrClosed && !g.process.running
        && g.process.State() == TeardownState(old(g.process.State()).(pending := g.process.pending))
        && g.log == old(g.log) + TeardownLog(old(g.process.State()))
        && (g.process.terminated <==> old(g.process.terminated) || old(g.process.running))
        && (g.process.killed <==> old(g.process.killed) || (old(g.process.running) && !old(g.process.waitOk)))
        && report == match expected.outcome
          case Completed => Saved(name.value, |f.content|)
          case Interrupted => InterruptedByUser(name.value, |f.content|)
          case WriteFailed => WritingFailed
  {
    var exit := CliResolve(path, up, letters);
    if exit == ReturnedOne {
      return ExitedOne;
    } else if exit == Crashed {
      return CrashedOnMetadata;
    }
    var name := OutputName(outputFile, exit.descriptor.title);
    if name.Err? || !opens {
      return WritingFailed;
    }
    ghost var s0 := g.process.State();
    var received, outcome := SaveStream(g, f);
    SignalsAfterTeardown(s0, g.process.State());
    report := match outcome
      case Completed => Saved(name.value, received)
      case Interrupted => InterruptedByUser(name.value, received)
      case WriteFailed => WritingFailed;
  }

  /**
   * As written, a video whose title sanitises to nothing cannot be saved
   * without `-o`: the name is empty, `with_suffix` raises, and the ffmpeg
   * process is left as it was.
   */
  lemma PunctuationTitleNotSaved(path: string, up: Upstream, letters: string)
    requires LocaleOk(path, up) && MetadataOk(up) && StreamOk(up) && up.stream.title == Some("!!!")
    ensures CliResolve(path, up, letters).Continued?
    ensures CliResolve(path, up, letters).descriptor.title == ""
    ensures OutputName(None, CliResolve(path, up, letters).descriptor.title) == Err(EmptyName)
  {
    var r := Resolve(path, up, letters);
    ResolveSucceedsIff(path, up, letters);
    var d := r.final.descriptor;
    assert CliResolve(path, up, letters) == Continued(d);
    assert d.title == VideoTitleAsWritten(Some("!!!"), letters);
    VideoTitleAsWrittenCanBeEmpty(letters);
    AsWrittenTitleGivesNoName(letters);
  }

  /** The whole command on such a video, without `-o`: it reports a writing failure and writes nothing. */
  method DownloadPunctuationTitle(path: string, up: Upstream, letters: string, opens: bool,
                                  g: Generator, f: OutputFile) returns (report: CliReport)
    requires LocaleOk(path, up) && MetadataOk(up) && StreamOk(up) && up.stream.title == Some("!!!")
    requires g.Valid() && g.state == NotStarted
    requires f.Valid() && f.written == []
    modifies g, g.process, f
    ensures report == WritingFailed && f.written == [] && g.state == NotStarted
    ensures g.process.State() == old(g.process.State())
  {
    PunctuationTitleNotSaved(path, up, letters);
    report := DownloadStream(path, None, up, letters, opens, g, f);
  }
}
