# rbtv-dl in Dafny

A model of the shared core of rbtv-dl, a Red Bull TV downloader. Both entry points use it: the Flask handler `GET /api/download` in `api/app.py` and the command-line tool `rbtv-dl-cli.py`. The model proves properties about that core.

Given a page URL, both entry points do the same things:

- derive a slug;
- run three sequential upstream stages: page configuration and locale selection, the locale-scoped feed for the video id and thumbnail, and the video resource for the stream URL and title;
- choose and sanitise a title;
- run ffmpeg and relay its stdout in chunks of at most 8192 bytes through a generator whose `finally` block tears the child process down.

The server answers with a JSON error, a JSON probe reply, or a streamed `video/mp4` response. The command-line tool returns 1 on a failed stage, normalises an output file name to `.mp4`, and writes the relayed chunks to that file.

Modules:

- `Common`: bytes, `Option`, `Result`, and concatenation of chunks.
- `Sanitizer`: `sanitize_video_title`, one function per rewrite step. The input is taken after NFKD normalisation.
- `Urls`: the slug (`lstrip('/')`), the last `/`-segment, the first-"en"-else-first locale choice, and the three endpoint URLs.
- `Resolution`: the stage machine shared by both entry points. It covers the responses of the three upstream requests as abstract inputs, each stage as a transition that records the requests it issued, the placeholder title and the title choice. The 8 random letters are a parameter.
- `Server`: the handler's reply. This is the error status and message of each failure, the probe branch, and the `Content-Disposition` header.
- `Relay`: the nested `generate`.
  - `Process` is a class over an abstract child process. Its state is the pending stdout reads, whether it is running, whether `wait` returns, what stderr holds, and the closed flags of both pipes.
  - `Generator` is a class whose `Next` runs one pass of the read loop and whose `Interrupt` models `close()` or `throw(ConnectionResetError)` at the `yield`. Both run the teardown on every exit path.
- `Paths`: the part of POSIX `pathlib` the tool uses for its output name. This is trailing separators, `name`, `suffix`, `lower()` and `with_suffix(".mp4")`.
- `Cli`: the command-line tool.
  - Its return-1 / crash / continue outcome, proved to agree with the server's reply.
  - The output file name.
  - The write loop `SaveStream`, proved against `ExpectedSaving`, which is what the file receives for given stdout reads and a given failing write.
  - The whole command, `DownloadStream`.

Some of the program's behaviour is easy to miss. The model keeps it exactly as the code behaves:

- The title "My Video!" sanitises to "My Video", because the space is an allowed character.
- Sanitising is idempotent only when the result does not end in `.` or `_`. Truncation to 150 characters can expose such an end (`Sanitizer.SanitizeIdempotentIff`, `Sanitizer.TruncationExposesUnderscore`).
- The placeholder is the 8 letters interleaved with `rbtv-`, not prefixed by it (see Findings).
- The empty-title test runs before sanitising, so a raw title made only of punctuation yields the empty title (see Findings).

The stage machine, the server's reply and the command-line tool all use the title as the code computes it (`Resolution.VideoTitleAsWritten`, with the interleaved placeholder). The title the code evidently intends (`Resolution.VideoTitle`, with `rbtv-` followed by the letters, and the placeholder also for an empty sanitised title) is modelled next to it. The lemmas `Resolution.VideoTitleUsable`, `Server.DispositionSafe` and `Cli.TitleGivesName` prove what that corrected title would give. `Cli.DownloadPunctuationTitle` shows the as-written consequence for a whole run: the raw title "!!!" and no `-o` end in a write failure before any file is opened.

When the output name cannot be formed, or the file cannot be opened, the command-line tool never starts its generator. Its `finally` block therefore never runs, and the ffmpeg process is left exactly as it was (`Cli.DownloadStream`).

## Model

| member | source | states |
|---|---|---|
| Sanitizer.ReplaceEnDash | api/app.py:30 | Every en dash becomes `-`, every other character stays in place, and the length is kept. |
| Sanitizer.DropNonAscii | api/app.py:31 | The result is ASCII and no longer than the input; ASCII input is unchanged; a single character is kept exactly when it is ASCII. |
| Sanitizer.DropNonAsciiConcat | api/app.py:31 | Dropping distributes over concatenation, so the result keeps the ASCII characters in their order and multiplicity. |
| Sanitizer.DropNonAsciiMembers | api/app.py:31 | A character occurs in the result exactly when it occurs in the input and is ASCII. |
| Sanitizer.MaskDisallowed | api/app.py:32 | Each character outside `[A-Za-z0-9._\- ]` becomes `_` position by position; the result is all allowed; allowed input is unchanged. |
| Sanitizer.CollapseUnderscores | api/app.py:33 | The result has no `__`, keeps the first and last character, and leaves input without `__` unchanged. |
| Sanitizer.CollapseDouble | api/app.py:33 | A `__` anywhere collapses like a single `_`: a run of underscores becomes one, and nothing around it is removed. |
| Sanitizer.StripLeading | api/app.py:34 | `lstrip("._")`: the result is a suffix of the input, does not start with `.`/`_`, and everything removed was `.` or `_`. |
| Sanitizer.StripTrailing | api/app.py:34 | `rstrip("._")`: the result is a prefix of the input, does not end with `.`/`_`, and everything removed was `.` or `_`. |
| Sanitizer.Strip | api/app.py:34 | Neither end is `.` or `_`; allowed characters and the absence of `__` are kept; a string with clean ends is unchanged. |
| Sanitizer.StripIsSlice | api/app.py:34 | The stripped text is a contiguous slice of the input, and every character before and after that slice is `.` or `_`. |
| Sanitizer.PrefixOfSuffix | api/app.py:34 | A prefix of a suffix is a slice, and what the prefix dropped is the end of the whole string. |
| Sanitizer.Stripped | api/app.py:30-34 | The untruncated pipeline gives only allowed characters, no `__`, and clean ends. |
| Sanitizer.Sanitize | api/app.py:28-35 | Only allowed characters, at most 150 of them, no `__`, never starts with `.`/`_`; ends clean and equals the untruncated pipeline when that was at most 150 long, and is its first 150 characters otherwise. |
| Sanitizer.EarlyStagesKeep | api/app.py:30-33 | The first four rewrites leave allowed text without `__` unchanged. |
| Sanitizer.SanitizeKeepsClean | api/app.py:28-35 | A string that already meets every promise of the sanitiser is its own sanitised form. |
| Sanitizer.SanitizeIdempotentIff | api/app.py:34-35 | Sanitising twice equals sanitising once exactly when the first result does not end in `.` or `_`. |
| Sanitizer.LongCleanTruncated | api/app.py:35 | A clean title longer than 150 characters is cut to its first 150 and altered in no other way. |
| Sanitizer.TruncationExposesUnderscore | api/app.py:33-35 | A clean 149-character title followed by `_` and one kept character sanitises to a result ending in `_`, which a second pass changes. |
| Sanitizer.SanitizeOfAllowed | api/app.py:30-35 | On allowed text of at most 150 characters without `__`, sanitising is just the strip. |
| Sanitizer.MaskTail | api/app.py:32 | Allowed text followed by a disallowed character masks to the text followed by `_`. |
| Sanitizer.AsciiTail | api/app.py:30-31 | Allowed text followed by an ASCII character passes the dash and ASCII steps unchanged. |
| Sanitizer.UnderscoreTail | api/app.py:33 | Text without `__` that does not end in `_` still has no `__` after one `_` is appended. |
| Sanitizer.DisallowedTailStripped | api/app.py:32-34 | A clean title followed by one disallowed ASCII character sanitises back to the clean title. |
| Sanitizer.SanitizeAfterEnDash | api/app.py:30 | Sanitising a title and sanitising its dash-replaced form give the same result. |
| Sanitizer.PunctuationExample | api/app.py:32-34 | "My Video!" sanitises to "My Video". |
| Sanitizer.AllPunctuationEmpty | api/app.py:32-34 | "!!!" sanitises to the empty string. |
| Urls.Slug | api/app.py:41 | The slug is a suffix of the path, does not start with `/`, and everything removed was `/`. |
| Urls.LastSegment | api/app.py:84 | The last segment is no longer than the slug and contains no `/`. |
| Urls.LastSegmentIsTail | api/app.py:84 | The last segment is a tail of the slug, and the character before it, if any, is `/`. |
| Urls.LastSegmentAfterSlash | api/app.py:84 | For `a + "/" + b` with no `/` in `b`, the last segment is `b`. |
| Urls.LastSegmentOfPlain | api/app.py:84 | A slug without `/` is its own last segment. |
| Urls.FirstEnIndex | api/app.py:75 | The index found is of a locale containing "en" in any case, and no earlier locale does; `None` means no locale does. |
| Urls.SelectLocale | api/app.py:75 | No locale is chosen exactly when the list is empty. |
| Urls.SelectLocaleSpec | api/app.py:75 | The choice is one of the locales: the first mentioning "en", or the first locale when none does. |
| Urls.SelectLocaleExamples | api/app.py:75 | "en-US" wins over an earlier "de"; "de" is chosen when no locale mentions "en"; "EN" matches regardless of case. |
| Urls.LocaleUrl | api/app.py:62 | The page-configuration URL is the endpoint base followed by the slug. |
| Urls.MetadataUrl | api/app.py:84 | The feed URL starts with the feed base and the locale and ends with `&rb3PageUrl=/` and the slug. |
| Urls.StreamUrl | api/app.py:105 | The video-resource URL starts with the base and the video id and ends with `&localeMixing=` and the locale. |
| Urls.MetadataUrlFilter | api/app.py:84 | For a slug `a/b`, the feed URL filters on `b` and passes `/a/b` as `rb3PageUrl`, without encoding. |
| Resolution.Join | api/app.py:112 | Joining one-letter parts has the length that places the last letter at its computed position, and is empty exactly for no letters. |
| Resolution.LetterAtIsProduct | api/app.py:112 | Letter k of a join sits at `k * (|sep| + 1)`. |
| Resolution.JoinLetterAt | api/app.py:112 | The join holds letter k at position `LetterAt(sep, k)`. |
| Resolution.JoinSeparatorAt | api/app.py:112 | A full copy of the separator follows every letter but the last. |
| Resolution.JoinLastFour | api/app.py:112 | The join of the last four of 8 letters is those letters with the tag between them. |
| Resolution.PlaceholderAsWrittenUnfolds | api/app.py:112 | The written placeholder is the first four letters with the tag after each, then the join of the rest. |
| Resolution.PlaceholderAsWrittenInterleaves | api/app.py:112 | The written placeholder is the 8 letters with `rbtv-` between each pair, 43 characters long, and does not start with `rbtv-`. |
| Resolution.PlaceholderIsCleanTitle | api/app.py:112 | The corrected placeholder is `rbtv-` followed by the 8 letters, 13 characters long, clean, and a fixpoint of the sanitiser. |
| Resolution.PlaceholderAsWritten | api/app.py:112 | The written placeholder is empty for no letters, and otherwise starts with the first letter and is `6n-5` long for n letters. |
| Resolution.Placeholder | api/app.py:112 | The corrected placeholder is `rbtv-` followed by the letters. |
| Resolution.VideoTitleAsWritten | api/app.py:110-114 | The title for a truthy raw title has only allowed characters, no `__`, a clean start and at most 150 characters; for a falsy one, n letters give a title `6n-5` long. |
| Resolution.VideoTitleAsWrittenCases | api/app.py:110-114 | The title as the code chooses it is the written placeholder exactly for a falsy raw title, and the sanitised raw title otherwise. |
| Resolution.VideoTitle | api/app.py:110-114 | The corrected title is never empty, and for a truthy raw title is its sanitised form exactly when that form is non-empty. |
| Resolution.VideoTitleAsWrittenCanBeEmpty | api/app.py:110-114 | As written, the raw title "!!!" yields an empty title. |
| Resolution.VideoTitleUsable | api/app.py:110-114 | The corrected title is never empty, has only allowed characters, is at most 150 long, has no `__`, starts clean, and is the placeholder for a falsy raw title. |
| Resolution.VideoTitleAgreesIff | api/app.py:110-114 | The corrected and written titles agree exactly when the raw title is truthy and sanitises to something. |
| Resolution.LocaleStep | api/app.py:64-82 | The locale stage fails or resolves; it issues one request unless the slug is empty; a resolved locale is one of the listed locales, with the slug carried on. |
| Resolution.MetadataStep | api/app.py:84-103 | The feed stage issues exactly the feed request for its locale and slug, and either fails or resolves a non-empty video id with locale and slug carried on. |
| Resolution.StreamStep | api/app.py:105-116 | The stream stage issues exactly the video-resource request and ends the run; on success the stream URL is non-empty and the thumbnail is the one handed on. |
| Resolution.Resolve | api/app.py:57-127 | Every run ends in a final stage after at most three requests. |
| Resolution.AfterLocale | api/app.py:84-127 | The run after a resolved locale ends in a final stage after one or two requests. |
| Resolution.AfterMetadata | api/app.py:105-127 | The run after a resolved feed ends in a final stage after exactly one request. |
| Resolution.StreamStage | api/app.py:105-127 | The stream stage issues one request with the video id and locale, ends the run, and succeeds exactly when it answers 200 with a truthy `videoUrl`; otherwise it fails with StreamUnavailable. |
| Resolution.StreamDescriptor | api/app.py:105-116 | On success the descriptor holds the title as the code computes it (`VideoTitleAsWritten`), the stream URL and the thumbnail handed on. |
| Resolution.MetadataStage | api/app.py:84-103 | The feed request comes first. Non-200 or a falsy id fails with MetadataUnavailable; a missing `data`/`pageMeta` gives MalformedMetadata; a failure stops after that one request; success hands id and thumbnail (with `""` default) to the stream stage. |
| Resolution.EmptySlugIssuesNothing | api/app.py:57-59 | MissingUrl happens exactly when the slug is empty, and then no request is issued. |
| Resolution.LocaleStage | api/app.py:64-82 | The locale request comes first. Non-200 gives LocalesUnavailable and an empty list gives NoLocales, each after one request; otherwise the selected locale is handed on. |
| Resolution.ResolveSucceedsIff | api/app.py:57-127 | A run succeeds exactly when all three stages do; it then issued the three requests in order and its descriptor holds the as-written title, the URL and the thumbnail. |
| Resolution.ResolvedUrls | api/app.py:62-127 | A successful run requested the page-configuration, feed and video-resource URLs, in that order, built from the slug, the chosen locale and the video id. |
| Resolution.RequestUrls | api/app.py:62-105 | The three requests render to the three endpoint URLs. |
| Resolution.ResolveRequestCount | api/app.py:57-127 | Every run ends in a final stage, and a failed run issued exactly the requests of the stages before and including the failing one. |
| Resolution.AfterLocaleRequestCount | api/app.py:84-127 | After a resolved locale, a failure is a feed or stream failure, and the run issues one request fewer than the whole run's count for it (2 on success). |
| Server.HandleDownload | api/app.py:57-200 | The handler sends an error reply exactly when the run fails, and issues the run's requests and at most three. |
| Server.ReplyOf | api/app.py:57-200 | For a final stage, the reply is an error exactly for a failure; an error is 400 or 500; after success it is a probe reply exactly in probe mode. |
| Server.Disposition | api/app.py:199 | Reading the file name back from the header gives the title. |
| Server.MissingUrlReply | api/app.py:57-59 | The reply is 400 "Missing url parameter" exactly when the slug is empty, and then no upstream request is issued. |
| Server.ErrorReply | api/app.py:57-127 | An error reply comes exactly from a failed run, carries that failure's message, and is 400 only for a missing URL and 500 otherwise. |
| Server.ErrorMessagesDistinct | api/app.py:57-127 | Distinct failures have distinct messages. |
| Server.ProbeReply | api/app.py:129-138 | A probe reply is sent exactly when all stages succeed and `probe` is "1", with the as-written title, stream URL and thumbnail, after three requests. |
| Server.MediaReply | api/app.py:196-200 | A media reply is sent exactly when all stages succeed and `probe` is not "1", with the header built from the as-written title. |
| Server.ProbeValues | api/app.py:129-131 | Only the string "1" selects probe mode; absent, "", "01" and "true" do not. |
| Server.DispositionRoundTrip | api/app.py:199 | The header is `attachment; filename=` + title + `.mp4`, and reading the file name back gives the title. |
| Server.DispositionOfAllowed | api/app.py:199 | A title of allowed characters puts no CR, LF, `;`, `"` or `,` into the header. |
| Server.DispositionSafe | api/app.py:199 | With the corrected title, the header's file name is non-empty and cannot break out of the header. |
| Server.DispositionAsWrittenNameless | api/app.py:199 | As written, the title "!!!" gives the header `attachment; filename=.mp4`, whose file-name part is empty. |
| Relay.Relayed | api/app.py:167-173 | The relayed chunks are exactly the reads before the first empty read or exception, each non-empty, in order. |
| Relay.RelayedChunksBounded | api/app.py:170 | Every relayed chunk has between 1 and 8192 bytes. |
| Relay.RelayedPrefix | api/app.py:169-173 | k non-empty data reads are the first k relayed chunks. |
| Relay.RelayedStops | api/app.py:171-172 | Relaying stops at the first read that is not non-empty data. |
| Relay.AfterSignals | api/app.py:177-182 | After the signals the child does not run; it was terminated exactly when it was running (or already was), killed exactly when `wait` failed on a running child; pipes, stderr and pending reads are untouched. |
| Relay.TeardownState | api/app.py:176-193 | After the whole teardown both pipes are closed and the child does not run; pending reads and the `wait` flag are untouched; killed as after the signals. |
| Relay.TeardownCloses | api/app.py:176-193 | After teardown both pipes are closed and the child does not run. |
| Relay.TeardownSignals | api/app.py:177-182 | A running child is terminated, and killed exactly when `wait` fails; an exited child gets no signal. |
| Relay.TeardownReports | api/app.py:184-190 | Diagnostics are reported at most once, exactly when stderr was open and non-empty; a failing stderr read is swallowed. |
| Relay.TeardownIgnoresPending | api/app.py:176-193 | The teardown neither reads nor changes the stdout reads still pending: it commutes with replacing them, and reports the same. |
| Relay.TeardownIdempotent | api/app.py:176-193 | A second teardown changes nothing and reports nothing. |
| Relay.Process.ReadStdout | api/app.py:170 | A read returns the next pending result, `b""` when drained, and raises ValueError on a closed pipe. |
| Relay.Process.Poll | api/app.py:177 | `poll()` reports whether the child has exited. |
| Relay.Process.Terminate | api/app.py:178 | Marks the child terminated. |
| Relay.Process.Wait | api/app.py:180 | `wait` returns (and the child has exited) exactly when it is set to succeed. |
| Relay.Process.Kill | api/app.py:182 | The child is killed and no longer runs. |
| Relay.Process.ReadStderr | api/app.py:186 | Returns what stderr holds, and consumes it. |
| Relay.Process.CloseStdout | api/app.py:192 | Closes stdout, nothing else. |
| Relay.Process.CloseStderr | api/app.py:193 | Closes stderr, nothing else. |
| Relay.Generator.constructor | api/app.py:167 | A new generator has not started, has yielded nothing, and owns the process's pending reads. |
| Relay.Generator.StopChild | api/app.py:177-182 | The signal part of the `finally` block has the effect of `AfterSignals`. |
| Relay.Generator.ReportStderr | api/app.py:184-190 | The stderr part reports the diagnostics and drains stderr. |
| Relay.Generator.Finalize | api/app.py:176-193 | The whole `finally` block takes the process to `TeardownState` and logs `TeardownLog`. |
| Relay.Generator.Next | api/app.py:168-176 | One pass of the loop: a non-empty read is yielded; an empty read or an exception runs the teardown and ends the generator; a finished generator stays exhausted. |
| Relay.Generator.Interrupt | api/app.py:174-176 | `close()` or `throw(ConnectionResetError)` at the `yield` runs the teardown and is swallowed. A generator that never started finishes without teardown. A throw into a generator that is not suspended propagates. |
| Paths.TrimSlashes | rbtv-dl-cli.py:161 | `Path` drops trailing separators: the result is a prefix of the input, never ends in `/`, and everything removed was `/`. |
| Paths.LastDot | rbtv-dl-cli.py:162 | The index found holds a dot and no later character does; `None` means there is no dot. |
| Paths.Suffix | rbtv-dl-cli.py:162 | The suffix is a tail of the name; a non-empty suffix starts with a dot, has a character after it, and leaves a non-empty stem. |
| Paths.WithMp4 | rbtv-dl-cli.py:161-164 | Normalising fails exactly when the path without trailing separators has no name. |
| Paths.NamedMp4 | rbtv-dl-cli.py:162-163 | Normalising a trimmed path fails exactly when it has no name. |
| Paths.LastDotBefore | rbtv-dl-cli.py:162 | The last dot of `a + "." + b` with no dot in `b` is the one after `a`. |
| Paths.LowerStringAt | rbtv-dl-cli.py:162 | `lower()` lowers each character in place. |
| Paths.IsMp4Lower | rbtv-dl-cli.py:162 | The character-wise suffix test is exactly `suffix.lower() == ".mp4"`. |
| Paths.SuffixOfMp4 | rbtv-dl-cli.py:163 | A non-empty stem followed by `.mp4` has the suffix `.mp4`. |
| Paths.StemNotEmpty | rbtv-dl-cli.py:163 | A non-empty name has a non-empty stem. |
| Paths.SplitName | rbtv-dl-cli.py:161-163 | A path splits into a directory part ending in `/`, the stem, and the suffix of its name. |
| Paths.ReplacedIsMp4 | rbtv-dl-cli.py:163 | A directory, a stem and `.mp4` form a path whose suffix is `.mp4`. |
| Paths.NamedMp4IsMp4 | rbtv-dl-cli.py:161-164 | Every name produced ends in a name whose suffix is `.mp4` up to case, and never ends in `/`. |
| Paths.WithMp4IsMp4 | rbtv-dl-cli.py:161-164 | The same for any input path. |
| Paths.WithMp4Keeps | rbtv-dl-cli.py:162 | A path whose suffix is `.mp4` in any case is kept unchanged. |
| Paths.WithMp4Replaces | rbtv-dl-cli.py:162-163 | Any other suffix is replaced, not appended to; a name without a suffix gets `.mp4` added. |
| Paths.WithMp4FailsIff | rbtv-dl-cli.py:163 | Naming fails exactly when the path has no name. |
| Paths.WithMp4Idempotent | rbtv-dl-cli.py:161-164 | Normalising a normalised name changes nothing. |
| Paths.PlainName | rbtv-dl-cli.py:162 | A plain file name with an inner dot has its suffix at that dot. |
| Paths.SwapsSuffix | rbtv-dl-cli.py:163 | `stem.ext` becomes `stem.mp4`. |
| Paths.KeepsUpperCase | rbtv-dl-cli.py:162 | "clip.MP4" is kept. |
| Paths.SwapsOtherSuffix | rbtv-dl-cli.py:163 | "clip.mkv" becomes "clip.mp4". |
| Paths.HiddenNameGetsSuffix | rbtv-dl-cli.py:162-163 | ".mp4" has no suffix, so it becomes ".mp4.mp4". |
| Cli.CliResolve | rbtv-dl-cli.py:41-93 | The tool continues exactly when the run resolves a stream, and crashes exactly on a malformed feed. |
| Cli.OutputName | rbtv-dl-cli.py:156-164 | The output name cannot be formed exactly when the chosen path has no name. |
| Cli.ExpectedSaving | rbtv-dl-cli.py:166-180 | The file receives at most the relayed chunks, all of them unless a write fails, and with no failing write the outcome is what ended the relay. |
| Cli.CliAgreesWithServer | rbtv-dl-cli.py:41-93 | The tool returns 1 exactly when the server sends a stage error; crashes exactly when the server falls back to its generic 500; otherwise it continues with the descriptor the server sends or streams. |
| Cli.CliEmptySlug | rbtv-dl-cli.py:41-43 | The tool returns 1 before any request exactly when the slug is empty. |
| Cli.OutputNameFallback | rbtv-dl-cli.py:156-159 | A missing or empty `-o` falls back to the title; any other value is used as given. |
| Cli.TitleGivesName | rbtv-dl-cli.py:156-164 | With the corrected title and no `-o`, an output name always exists. |
| Cli.AsWrittenTitleGivesNoName | rbtv-dl-cli.py:83-86 | As written, the title "!!!" and no `-o` leave no name, and `with_suffix` raises. |
| Cli.PunctuationTitleNotSaved | rbtv-dl-cli.py:78-164 | When every stage succeeds with the raw title "!!!", the tool continues with the empty title, and without `-o` no output name can be formed. |
| Cli.DownloadPunctuationTitle | rbtv-dl-cli.py:41-180 | The whole command on such a run, without `-o`: the report is a write failure, nothing is written, the generator never starts and the process is untouched. |
| Cli.OutputFile.Write | rbtv-dl-cli.py:168 | A write appends the chunk to the content, or raises and leaves the file as it was. |
| Cli.ExpectedSavingIsPrefix | rbtv-dl-cli.py:166-180 | The file receives a prefix of the relayed chunks, each 1 to 8192 bytes; all of them unless a write fails. |
| Cli.SavedAll | rbtv-dl-cli.py:167-180 | When the next read ends the relay, the file holds every relayed chunk, and the outcome is what that read says. |
| Cli.SavedUntilFailure | rbtv-dl-cli.py:168-180 | When a write fails, the file holds the chunks before it and the outcome is a write failure. |
| Cli.SaveStream | rbtv-dl-cli.py:166-180 | The loop writes exactly `ExpectedSaving`: the byte counter equals the length of the content, which is the concatenation of the written chunks. The generator ends finished. Apart from its pending reads, the process ends in `TeardownState` of its starting state, and the log gains exactly `TeardownLog` of it: ffmpeg's stderr when it was open and non-empty. |
| Cli.SavePass | rbtv-dl-cli.py:166-170 | One pass of the loop takes the next chunk and writes it. It ends the loop with the expected saving and the torn-down process, or carries the loop's invariant one chunk further. |
| Cli.Pull | rbtv-dl-cli.py:125-149 | `next` on the generator as the loop sees it: this step of the relay, and the process either kept or torn down from the loop's starting state, with its report logged. |
| Cli.WriteChunk | rbtv-dl-cli.py:168 | A write appends the chunk. When it raises, the file is the expected saving for a failed write, and closing the generator tears the process down. |
| Cli.SignalsAfterTeardown | rbtv-dl-cli.py:133-138 | After a teardown, the child was terminated exactly when it was running (or already was), and killed exactly when `wait` failed on a running child. |
| Cli.DownloadStream | rbtv-dl-cli.py:41-180 | The whole command. A failed stage returns 1 and a malformed feed crashes, both before any file write. In each of these early exits the process is left untouched. A bad name (from the as-written title when there is no `-o`) or a failed `open` is a write failure that also leaves the process untouched. Otherwise the file holds the expected chunks, and the report gives the name and byte count. The process is in `TeardownState` of its starting state apart from pending reads: closed pipes, a stopped child, terminated exactly when it was running, and killed exactly when `wait` failed. The log gains ffmpeg's stderr report. |

## Left out

- NFKD normalisation is taken as already applied. `lower()` and the character classes are modelled on ASCII only, which is all that remains after the ASCII step, except for `lower()` on locales. For the `-o` suffix test at rbtv-dl-cli.py:162 the ASCII model is exact: `Paths.IsMp4` compares each lowered character with `.mp4`, and Python's `lower()` maps no non-ASCII character to `.`, `m`, `p` or `4`.
- `random.choices` is replaced by a parameter holding the 8 letters.
- `urlparse` is not modelled. The input is the parsed path. The server's absent `url` parameter (None passed to `urlparse`) is not modelled.
- HTTP requests and JSON parsing are not modelled. Each upstream response is its status and the fields the handler reads, and non-string JSON values are not modelled. Request headers are left out.
- A missing `data` or `pageMeta` is collapsed into one MalformedMetadata failure. This is the uncaught AttributeError, which the server turns into its generic 500 reply and which crashes the tool.
- The ffmpeg command, its codecs and the header block are left out. The process appears only through what its pipes return.
- Timing and concurrency are not modelled. The 0.5-second wait is an abstract "returns in time" flag, and a kill ends the child.
- An exception can arrive outside a stdout read, such as a KeyboardInterrupt during `f.write`. Only exceptions from the reads and a failing write are modelled.
- Console output is not modelled: logging, ANSI colours, timestamps, the text of the tool's error lines (including the one that prints a literal `{base_url}`), the MB progress display and the final messages.
- argparse and the `__main__` blocks are not modelled.
- The Flask app setup, ProxyFix, CORS, the 400 and 404 handlers, and the React front end are not part of this model.
- Streaming through `stream_with_context` is not modelled. The server's reply carries the header and stream URL; its body is the `Relay.Generator` on its own.
- The `while True` loop of `generate` becomes one `Next` call per pass, because a method cannot suspend at a `yield`.
- `Relay.Generator` is built over a `Process` passed in, rather than starting ffmpeg.
- Paths.WithMp4: `/` is the only separator. This is PurePosixPath. On Windows `Path` is WindowsPath, where `\` also separates and a drive such as `C:` is not part of the name. So `-o my.dir\clip` would be saved as `my.dir\clip.mp4` there, where the model gives `my.mp4`.
- Paths.WithMp4: only trailing separators are removed out of pathlib's normalisation. Repeated separators and `.` components are not collapsed, and that changes results:
  - `-o .`: pathlib's `Path(".")` has an empty name, so `with_suffix` raises and the run ends with "File writing failed". The model gives `..mp4`.
  - A trailing `/.`: pathlib makes `a/.` into `a` and saves `a.mp4`; the model gives `a/..mp4`.
- Sanitizer.Strip: its own contract does not say that the result is a slice of the input. That property is the separate lemma `Sanitizer.StripIsSlice`, which keeps proofs that unfold the function cheap.
- Urls.LastSegment: its own contract gives only the length bound and the absence of `/`. The tail property is the separate lemma `Urls.LastSegmentIsTail`, which keeps proofs that unfold the function cheap.

## Findings

| source | as written | input that shows it | evidently intended | confidence | as-written member | corrected member |
|---|---|---|---|---|---|---|
| api/app.py:112 | `'rbtv-'.join(letters)` puts the tag between the random letters | letters `abcdefgh` give `arbtv-brbtv-crbtv-d…rbtv-h`, 43 characters | the tag followed by the letters, `rbtv-abcdefgh` | not executed | Resolution.PlaceholderAsWrittenInterleaves | Resolution.PlaceholderIsCleanTitle |
| api/app.py:111-114 | the empty-title check runs before sanitising, so the sanitised title can itself be empty | the raw title `!!!` gives title `""` and header `attachment; filename=.mp4` | use the placeholder whenever no usable title is left | not executed | Resolution.VideoTitleAsWrittenCanBeEmpty | Resolution.VideoTitleUsable |
| rbtv-dl-cli.py:83-86 | the same check, and the empty title then becomes the output path | the raw title `!!!` and no `-o` make `Path("").with_suffix(".mp4")` raise, and the run ends with "File writing failed" | the placeholder title gives a file name | not executed | Cli.DownloadPunctuationTitle | Cli.TitleGivesName |
