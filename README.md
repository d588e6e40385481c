# yt-subtitles-loader in Dafny

A model of the core of yt-subtitles-loader, a Java service that turns a
YouTube link into plain subtitle text. It validates and canonicalises the
link, asks yt-dlp which subtitle tracks exist, downloads the preferred WebVTT
track and strips the cue markup. The model follows the Java code branch by
branch and proves what that code promises.

Modules, in dependency order:

- `Wrappers` (`wrappers.dfy`): `Option` and `Result`.
- `YtErrors` (`errors.dfy`): `YtLoadingException` is reduced to its id
  (`824c`, `4bc5`, `48ae`, `63e9`).
- `JavaStrings` (`java_strings.dfy`): the `java.lang.String` operations the
  code relies on, on their ASCII behaviour: `trim`, `toLowerCase`,
  `startsWith`, `endsWith`, `contains`, `indexOf`, `split` (which drops
  trailing empty strings), `split(…, 2)` and `String.join`.
- `TrackSelection` (`track_selection.dfy`): `selectPreferredSubtitles`. It is
  the `while` loop over the `yt-dlp --list-subs` output, with the section flag
  and the four availability flags, followed by the priority choice. The
  method is proved equal to `SelectSpec`, a fold of `Step` over the lines.
- `VttCleaner` (`vtt_cleaner.dfy`): `cleanSubtitles`.
  - Each of the six `replaceAll` calls is `ReplaceAll` over a match function
    that encodes its regex: left to right, with no overlap.
  - `trim` follows, then the loop that drops empty lines, then the
    positional header skip whose `subList` can throw.
  - The `for` loop is proved against `CleanSpec`.
- `YtLinkHelper` (`link_helper.dfy`): `removeRedundantQueryParamsFromYoutubeLint`,
  `isValidYoutubeUrl`, `isValidHostSyntax`, `isValidYouTubeHost` and the
  video id pattern.
  - A URI is an already-parsed record. The parser is a parameter.
  - The five-argument `java.net.URI` constructor is rendered with the quoting
    rules of `java.net.URI`: '%' is always quoted, and escapes use upper-case
    hex digits.
- `YtDlpCommands` (`yt_dlp_commands.dfy`): `createListSubsProcessBuilder` and
  `createProcessBuilder`. They give the exact command lines and the output
  path, with the UUID as a parameter.
- `SubtitlesLoader` (`subtitles_loader.dfy`): `tryDownloadSubtitles` and
  `load`.
  - The outside world is a set of parameters: the URI parser, the
    executable, the UUID, and what running a given process produces.
  - These processes run on the exact command lines that `YtDlpCommands`
    builds.

Imperative code (the selection loop, the cleaning loop, both link helpers'
loops, the download loop and `load`) is written as methods. Each method is
proved equal to a specification function, and the properties are lemmas
about those functions.

Where the code and its description differ, the model follows the code:

- `cleanSubtitles` does no de-duplication. `VttCleaner.RepeatedLineKept`
  shows that a repeated line is kept twice.
- With a blank second line, as in the unit-test fixtures, the header skip
  does not fire, and the literal `WEBVTT` line reaches the output
  (`VttCleaner.BlankSecondLineKeepsAll`, `VttCleaner.BlankSecondLineKeepsWebVtt`).
- A file whose lines all clean to nothing, and which has no header, gives a
  successful empty text, not an error.
- The comment at `YtLinkHelper.java:107` says `isValidYouTubeHost` refuses
  ".youtube.com". It accepts it: the pieces are "", "youtube" and "com".
  Only the earlier host-syntax check refuses it
  (`YtLinkHelper.DotYoutubeComHost`).

## Model

Source paths are relative to the repository root.

| member | source | states |
|---|---|---|
| TrackSelection.SelectPreferredSubtitles | src/main/java/ru/panyukovnn/ytsubtitlesloader/service/YtSubtitlesLoaderImpl.java:82-191 | The loop's flags are the fold of `Step` over the stdout lines. The result is `SelectSpec`: nothing on an exception or a non-zero exit, otherwise the priority choice over the flags. |
| TrackSelection.RowLangParts | src/main/java/ru/panyukovnn/ytsubtitlesloader/service/YtSubtitlesLoaderImpl.java:113-153 | For a row `<code> <formats>` whose code has no blanks or controls, and for any formats: the row gives a Russian vtt track exactly when the code is ru or ru-* and the formats contain "vtt" in any letter case. It gives an English track exactly when the code is en or en-* and the formats do. Every other row, the "language" header row included, gives nothing. |
| TrackSelection.SectionHeadersSwitch | src/main/java/ru/panyukovnn/ytsubtitlesloader/service/YtSubtitlesLoaderImpl.java:101-111 | A line containing "automatic captions", in any letter case and with any text around it, enters the automatic section. A line containing "available subtitles" but not "automatic captions" enters the manual section. |
| TrackSelection.Choose | src/main/java/ru/panyukovnn/ytsubtitlesloader/service/YtSubtitlesLoaderImpl.java:172-186 | The chosen pair is available, and no pair of better rank (ru manual, ru auto, en manual, en auto) is available. The result is nothing exactly when no flag is set. |
| TrackSelection.ScanHasIff | src/main/java/ru/panyukovnn/ytsubtitlesloader/service/YtSubtitlesLoaderImpl.java:101-154 | A flag is set after the scan exactly when some line is a row for that language and the section in force before that line is the flag's one (automatic or manual). |
| TrackSelection.ScanSection | src/main/java/ru/panyukovnn/ytsubtitlesloader/service/YtSubtitlesLoaderImpl.java:94-111 | The section starts as manual. It is automatic exactly when some line entered it and no later line switched again. |
| TrackSelection.SwitchLineKeepsFlags | src/main/java/ru/panyukovnn/ytsubtitlesloader/service/YtSubtitlesLoaderImpl.java:104-111 | A section-header line is never a data row. It never changes a flag, and it sets the section to the one it names. |
| TrackSelection.ScanMonotone | src/main/java/ru/panyukovnn/ytsubtitlesloader/service/YtSubtitlesLoaderImpl.java:141-153 | Flags only go from false to true: more lines never clear an availability. |
| TrackSelection.RepeatedLineIdempotent | src/main/java/ru/panyukovnn/ytsubtitlesloader/service/YtSubtitlesLoaderImpl.java:101-154 | Reading a line twice in a row has the same effect as reading it once. |
| TrackSelection.ScanKindsAppend | src/main/java/ru/panyukovnn/ytsubtitlesloader/service/YtSubtitlesLoaderImpl.java:101-154 | Scanning a concatenation continues the scan of the first part from its end state. |
| TrackSelection.ListingFailureSelectsNothing | src/main/java/ru/panyukovnn/ytsubtitlesloader/service/YtSubtitlesLoaderImpl.java:162-190 | A listing that threw, or that exited with a non-zero code, selects nothing, whatever flags were set. |
| VttCleaner.CleanSubtitles | src/main/java/ru/panyukovnn/ytsubtitlesloader/service/YtSubtitlesLoaderImpl.java:271-300 | The loop collects the non-empty cleaned lines in order, that is `CleanAll` of the input, and then applies the header skip. The result is `CleanSpec`. |
| VttCleaner.TagMatchIff | src/main/java/ru/panyukovnn/ytsubtitlesloader/service/YtSubtitlesLoaderImpl.java:277 | `<[^>]+>` matches at a position exactly when there is a '<', the next character is not '>', and some '>' follows. `TagMatch` gives the match as the '<' up to the first '>' after it. |
| VttCleaner.TimestampMatch | src/main/java/ru/panyukovnn/ytsubtitlesloader/service/YtSubtitlesLoaderImpl.java:278 | The timestamp pattern matches exactly when the string starts with 12 characters of the form dd:dd:dd.ddd, and the match is those 12 characters. |
| VttCleaner.ArrowMatch | src/main/java/ru/panyukovnn/ytsubtitlesloader/service/YtSubtitlesLoaderImpl.java:279 | `-->.*` matches exactly when the string starts with "-->". The match then holds no line terminator after the arrow, and it ends at the end of the string or at the next line terminator. |
| VttCleaner.AlignMatch | src/main/java/ru/panyukovnn/ytsubtitlesloader/service/YtSubtitlesLoaderImpl.java:280 | A match of `align:\w+ position:\d+%` is "align:", a word of at least one `\w`, " position:", a number of at least one digit, and '%'. Every string of that shape matches, with exactly that length. |
| VttCleaner.ControlMatch | src/main/java/ru/panyukovnn/ytsubtitlesloader/service/YtSubtitlesLoaderImpl.java:281 | A string starts a match exactly when its first character is an ASCII control other than CR, LF and TAB. |
| VttCleaner.SpaceRunMatch | src/main/java/ru/panyukovnn/ytsubtitlesloader/service/YtSubtitlesLoaderImpl.java:282 | `\s{2,}` matches exactly when the first two characters are whitespace. The match is made of whitespace only and takes the whole run. |
| VttCleaner.StripTagsTagFree | src/main/java/ru/panyukovnn/ytsubtitlesloader/service/YtSubtitlesLoaderImpl.java:277 | After tags are removed, the tag pattern matches at no position, even where removal joins the two sides. |
| VttCleaner.ReplaceAllKeepsTagFree | src/main/java/ru/panyukovnn/ytsubtitlesloader/service/YtSubtitlesLoaderImpl.java:278-282 | A later rewrite whose pattern never starts at '>', and whose replacement has no angle brackets, creates no tag. |
| VttCleaner.LaterPatternsNeverStartAtGt | src/main/java/ru/panyukovnn/ytsubtitlesloader/service/YtSubtitlesLoaderImpl.java:278-282 | None of the five later patterns matches at a '>'. |
| VttCleaner.StripArrowsNoArrow | src/main/java/ru/panyukovnn/ytsubtitlesloader/service/YtSubtitlesLoaderImpl.java:279 | After the arrow step, the line contains no "-->". |
| VttCleaner.ArrowReappears | src/main/java/ru/panyukovnn/ytsubtitlesloader/service/YtSubtitlesLoaderImpl.java:279-283 | "--", U+0001, ">" holds no "-->" after the arrow step, but the control-character step turns it into "-->", and that is the cleaned line. |
| VttCleaner.CollapseNoDoubleSpace | src/main/java/ru/panyukovnn/ytsubtitlesloader/service/YtSubtitlesLoaderImpl.java:282 | After whitespace runs are collapsed, no two whitespace characters are adjacent. |
| VttCleaner.CleanLineTagFree | src/main/java/ru/panyukovnn/ytsubtitlesloader/service/YtSubtitlesLoaderImpl.java:276-283 | A cleaned line contains no `<…>` tag at any position. |
| VttCleaner.CleanLineTrimmedSingleSpaced | src/main/java/ru/panyukovnn/ytsubtitlesloader/service/YtSubtitlesLoaderImpl.java:276-283 | A cleaned line has no whitespace at either end and no two whitespace characters in a row. |
| VttCleaner.CleanLineIsCleaned | src/main/java/ru/panyukovnn/ytsubtitlesloader/service/YtSubtitlesLoaderImpl.java:274-288 | A non-empty cleaned line is non-empty, trimmed, single-spaced and tag-free. |
| VttCleaner.CleanAllLines | src/main/java/ru/panyukovnn/ytsubtitlesloader/service/YtSubtitlesLoaderImpl.java:273-288 | There are no more cleaned lines than input lines, and each one is non-empty, trimmed, single-spaced and tag-free. |
| VttCleaner.CleanAllAppend | src/main/java/ru/panyukovnn/ytsubtitlesloader/service/YtSubtitlesLoaderImpl.java:273-288 | The loop keeps order: cleaning a concatenation is cleaning each part and concatenating the results. |
| VttCleaner.RepeatedLineKept | src/main/java/ru/panyukovnn/ytsubtitlesloader/service/YtSubtitlesLoaderImpl.java:273-288 | A plain-text line given twice in a row appears twice in the output: nothing is de-duplicated. |
| VttCleaner.CleanSpecFails | src/main/java/ru/panyukovnn/ytsubtitlesloader/service/YtSubtitlesLoaderImpl.java:290-297 | `subList` throws exactly when the raw header is present (more than 3 lines; WEBVTT, "Kind: ", "Language: ") and fewer than 4 lines survive cleaning. It throws with the range (3, size - 1). |
| VttCleaner.CleanSpecLines | src/main/java/ru/panyukovnn/ytsubtitlesloader/service/YtSubtitlesLoaderImpl.java:290-299 | With the header, the result is cleaned[3..size-1]. Without it, the result is all cleaned lines, and every returned line is a cleaned line. |
| VttCleaner.CleanPlainText | src/main/java/ru/panyukovnn/ytsubtitlesloader/service/YtSubtitlesLoaderImpl.java:276-283 | Trimmed, single-spaced text without '<', '-', ':' or ASCII controls comes through the cleaning chain unchanged. |
| VttCleaner.PlainTextUnchanged | src/main/java/ru/panyukovnn/ytsubtitlesloader/service/YtSubtitlesLoaderImpl.java:276-282 | A string at which no pattern of the chain matches is not changed by the six rewrites. |
| VttCleaner.BlankSecondLineKeepsWebVtt | src/test/java/ru/panyukovnn/ytsubtitlesstarter/service/YtSubtitlesLoaderImplUnitTest.java:113 | The fixture "WEBVTT", blank, "00:00:01.000 --> 00:00:03.000", "Hello world" has four lines, so only its blank second line stops the header skip. It cleans to "WEBVTT" and "Hello world". |
| VttCleaner.BlankSecondLineKeepsAll | src/main/java/ru/panyukovnn/ytsubtitlesloader/service/YtSubtitlesLoaderImpl.java:291-299 | With a blank second line, the header test fails whatever the file holds, so the result is every non-empty cleaned line. |
| VttCleaner.TimingLineCleansAway | src/main/java/ru/panyukovnn/ytsubtitlesloader/service/YtSubtitlesLoaderImpl.java:277-283 | A cue timing line "t1 --> t2" with two timestamps cleans to nothing, so the loop drops it. |
| YtLinkHelper.RemoveRedundantQueryParams | src/main/java/ru/panyukovnn/ytsubtitlesstarter/util/YtLinkHelper.java:18-48 | The loop with `break` finds the first `v` value. The result is `CanonicalLink`. A parse failure or a relative path under a scheme gives 4bc5. A missing or empty query gives the input unchanged. Otherwise the link is rebuilt with only `v`. |
| YtLinkHelper.FirstV | src/main/java/ru/panyukovnn/ytsubtitlesstarter/util/YtLinkHelper.java:27-34 | There is no `v` value exactly when no parameter splits at its first '=' into the key "v" and a value. |
| YtLinkHelper.FirstVAt | src/main/java/ru/panyukovnn/ytsubtitlesstarter/util/YtLinkHelper.java:27-34 | The first `v` parameter wins: its value is the one kept, whatever comes later. |
| YtLinkHelper.FirstVIsAPiece | src/main/java/ru/panyukovnn/ytsubtitlesstarter/util/YtLinkHelper.java:27-34 | A kept `v` value is the value part of one of the parameters. |
| YtLinkHelper.VParamIff | src/main/java/ru/panyukovnn/ytsubtitlesstarter/util/YtLinkHelper.java:29-30 | A parameter is a `v` parameter exactly when it starts with "v=", and its value is everything after those two characters. |
| YtLinkHelper.NoQueryUnchanged | src/main/java/ru/panyukovnn/ytsubtitlesstarter/util/YtLinkHelper.java:21-25 | Without a query, or with an empty one, the link is returned exactly as given. |
| YtLinkHelper.CanonicalLinkShape | src/main/java/ru/panyukovnn/ytsubtitlesstarter/util/YtLinkHelper.java:36-44 | The rebuilt link's query decodes to "v=" plus the first `v` value, which holds no '&', or is absent when there was no `v`. Its fragment is present exactly when the input's was, and decodes back to it. The part before the query is the quoted scheme, authority and path. When all three are present, it reads back as the scheme, and as an authority and a path that decode to the originals. |
| YtLinkHelper.RenderHeadReadBack | src/main/java/ru/panyukovnn/ytsubtitlesstarter/util/YtLinkHelper.java:36-42 | A rebuilt `scheme://authority/path` splits back at the first ':', the "//" and the next '/'. The pieces are the scheme and the quoted authority and path, which decode to the originals. |
| YtLinkHelper.RenderUriParts | src/main/java/ru/panyukovnn/ytsubtitlesstarter/util/YtLinkHelper.java:36-44 | The query and the fragment can be read back from the rendered URI at its first '?' and its first '#'. |
| YtLinkHelper.UnquoteQuote | src/main/java/ru/panyukovnn/ytsubtitlesstarter/util/YtLinkHelper.java:36-42 | Percent-decoding undoes the constructor's quoting of any component. |
| YtLinkHelper.Escape | src/main/java/ru/panyukovnn/ytsubtitlesstarter/util/YtLinkHelper.java:36-42 | An escape is '%' and two hex digits, which encode the character. |
| YtLinkHelper.PercentRequoted | src/main/java/ru/panyukovnn/ytsubtitlesstarter/util/YtLinkHelper.java:36-44 | A '%' between legal query characters is re-quoted as "%25", and the rest is kept. |
| YtLinkHelper.PercentRequotedFixture | src/test/java/ru/panyukovnn/ytsubtitlesloader/util/YtLinkHelperUnitTest.java:143-153 | The query "v=abc%20def" is rebuilt as "v=abc%2520def". |
| YtLinkHelper.ValidatedIdIsKept | src/main/java/ru/panyukovnn/ytsubtitlesstarter/util/YtLinkHelper.java:27-40 | The id the validator checks under /watch, the rest of the first parameter starting with "v=", is the value canonicalisation keeps. |
| YtLinkHelper.IsValidYoutubeUrl | src/main/java/ru/panyukovnn/ytsubtitlesstarter/util/YtLinkHelper.java:50-91 | The result is `IsValidLink` of the parse, with the branches of the source. A parse or URL-conversion failure gives false, and no input escapes as an error. |
| YtLinkHelper.WatchQueryAccepted | src/main/java/ru/panyukovnn/ytsubtitlesstarter/util/YtLinkHelper.java:67-74 | The loop returns at the first parameter starting with "v=". It accepts exactly when the rest of that parameter is a valid id. |
| YtLinkHelper.YouTubeHostIff | src/main/java/ru/panyukovnn/ytsubtitlesstarter/util/YtLinkHelper.java:101-118 | The host check, written with `split("\\.")`, accepts exactly "youtube.com", "youtu.be" and hosts ending in ".youtube.com". |
| YtLinkHelper.AcceptedHostRules | src/main/java/ru/panyukovnn/ytsubtitlesstarter/util/YtLinkHelper.java:53-61 | An accepted URL's lower-cased host is non-empty, does not start with '.', uses only [a-z0-9.-], and is an allowed YouTube host. |
| YtLinkHelper.HostCaseIgnored | src/main/java/ru/panyukovnn/ytsubtitlesstarter/util/YtLinkHelper.java:53 | Two hosts with the same lower-case form are judged alike. |
| YtLinkHelper.DotYoutubeComHost | src/main/java/ru/panyukovnn/ytsubtitlesstarter/util/YtLinkHelper.java:93-118 | ".youtube.com" passes the host check but fails the host syntax check. |
| YtLinkHelper.LookAlikeHostRefused | src/main/java/ru/panyukovnn/ytsubtitlesstarter/util/YtLinkHelper.java:107-115 | "fakeyoutube.com" is not a YouTube host. |
| YtLinkHelper.ShortHostAccepted | src/main/java/ru/panyukovnn/ytsubtitlesstarter/util/YtLinkHelper.java:62-65 | On youtu.be, the path "/"+id is accepted exactly when id is an 11-character `[\w-]` id. |
| YtLinkHelper.WatchSingleParamAccepted | src/main/java/ru/panyukovnn/ytsubtitlesstarter/util/YtLinkHelper.java:67-74 | On an allowed host other than youtu.be, a /watch path with the query "v="+id is accepted exactly when id is valid. |
| YtLinkHelper.WatchWithoutVRefused | src/main/java/ru/panyukovnn/ytsubtitlesstarter/util/YtLinkHelper.java:67-90 | A /watch path with no query, or with no parameter starting with "v=", is refused. |
| YtLinkHelper.SegmentPathId | src/main/java/ru/panyukovnn/ytsubtitlesstarter/util/YtLinkHelper.java:75-80 | Splitting "/shorts/"+id+tail or "/live/"+id+tail at '/' puts id at segment 2. |
| YtLinkHelper.SegmentPathAccepted | src/main/java/ru/panyukovnn/ytsubtitlesstarter/util/YtLinkHelper.java:75-80 | On an allowed host other than youtu.be, a /shorts/ or /live/ path is accepted exactly when segment 2 is a valid id. |
| YtLinkHelper.WatchFixtureAccepted | src/test/java/ru/panyukovnn/ytsubtitlesloader/util/YtLinkHelperUnitTest.java:340-348 | The watch link with id dQw4w9WgXcQ is accepted on www.youtube.com and on WWW.YOUTUBE.COM. |
| YtLinkHelper.ShortIdFixturesRefused | src/test/java/ru/panyukovnn/ytsubtitlesloader/util/YtLinkHelperUnitTest.java:350-378 | "/shorts/abc" on youtube.com and "/abc12" on youtu.be are refused. |
| YtDlpCommands.ListSubsRoundTrip | src/main/java/ru/panyukovnn/ytsubtitlesstarter/service/YtDlpProcessBuilderCreator.java:22-28 | The list command is the executable, "--list-subs" and the URL verbatim, run in ".". |
| YtDlpCommands.DownloadRoundTrip | src/main/java/ru/panyukovnn/ytsubtitlesstarter/service/YtDlpProcessBuilderCreator.java:30-48 | Reading the download command back gives the URL, the language (verbatim, even empty), the subtitle kind and the template. It runs the executable in ".". |
| YtDlpCommands.ExactlyOneSubsTypeFlag | src/main/java/ru/panyukovnn/ytsubtitlesstarter/service/YtDlpProcessBuilderCreator.java:38-48 | "--write-auto-subs" appears exactly when automatic subtitles are asked for, and "--write-subs" exactly otherwise. This holds when no argument is itself spelled like a flag. |
| YtDlpCommands.OutputPathShape | src/main/java/ru/panyukovnn/ytsubtitlesstarter/service/YtDlpProcessBuilderCreator.java:36-51 | The output path is the template, ".", the language and ".vtt". It starts with "./temp-subtitles/temp_subs_" and ends with ".vtt". |
| YtDlpCommands.OutputPathsDiffer | src/main/java/ru/panyukovnn/ytsubtitlesstarter/service/YtDlpProcessBuilderCreator.java:36-51 | UUIDs that differ in their first 8 characters give different output paths. |
| YtDlpCommands.LanguagesDiffer | src/main/java/ru/panyukovnn/ytsubtitlesstarter/service/YtDlpProcessBuilderCreator.java:40-48 | Different languages give different download commands. |
| SubtitlesLoader.TryDownloadSubtitles | src/main/java/ru/panyukovnn/ytsubtitlesloader/service/YtSubtitlesLoaderImpl.java:200-269 | Runs the exact download command. The stderr loop returns null at the first line with the no-subtitles marker. The result is `DownloadSpec` of the outcome. |
| SubtitlesLoader.DownloadSpecSome | src/main/java/ru/panyukovnn/ytsubtitlesloader/service/YtSubtitlesLoaderImpl.java:217-262 | Text comes back exactly when there is no marker line, the exit code is 0, the file exists and its trimmed content is non-empty. The text is that trimmed content. |
| SubtitlesLoader.NoSubtitlesMarkerWins | src/main/java/ru/panyukovnn/ytsubtitlesloader/service/YtSubtitlesLoaderImpl.java:217-224 | A marker line means null, whatever the exit code and the file. |
| SubtitlesLoader.Load | src/main/java/ru/panyukovnn/ytsubtitlesloader/service/YtSubtitlesLoaderImpl.java:38-76 | Validate, canonicalise, list, download, split at '\n', clean, join with " ". The result is `LoadSpec`. |
| SubtitlesLoader.InvalidLinkRefusedFirst | src/main/java/ru/panyukovnn/ytsubtitlesloader/service/YtSubtitlesLoaderImpl.java:44-46 | An invalid link fails with 824c, whatever the processes would produce: nothing is run. |
| SubtitlesLoader.MalformedLinkSurfaces | src/main/java/ru/panyukovnn/ytsubtitlesloader/service/YtSubtitlesLoaderImpl.java:48 | A canonicalisation failure surfaces as 4bc5. It is thrown outside the try block, so it is not remapped. |
| SubtitlesLoader.LoadErrorIds | src/main/java/ru/panyukovnn/ytsubtitlesloader/service/YtSubtitlesLoaderImpl.java:38-76 | load fails only with 824c, 4bc5, 48ae or 63e9. |
| SubtitlesLoader.ListingFailureNoSubtitles | src/main/java/ru/panyukovnn/ytsubtitlesloader/service/YtSubtitlesLoaderImpl.java:51-52 | A listing that threw or exited with a non-zero code ends in 48ae, not 63e9, whatever the download would give. |
| SubtitlesLoader.ExtractionFailedIff | src/main/java/ru/panyukovnn/ytsubtitlesloader/service/YtSubtitlesLoaderImpl.java:62-75 | 63e9 happens exactly when a track was chosen and downloaded, its lines carry the header, and fewer than four lines survive cleaning. |
| SubtitlesLoader.JoinCleanedLines | src/main/java/ru/panyukovnn/ytsubtitlesloader/service/YtSubtitlesLoaderImpl.java:66 | Joining cleaned lines with " " gives text with no whitespace at either end and none doubled. |
| SubtitlesLoader.LoadSuccess | src/main/java/ru/panyukovnn/ytsubtitlesloader/service/YtSubtitlesLoaderImpl.java:48-68 | On success, the link is valid and the result's link is its canonical form. The title is null, and the listing exited with 0 and selected the result's language. The text is trimmed and single-spaced. |

## Left out

- Process and stream I/O: starting processes, reading their streams, `waitFor`. The outcome of a process is a parameter (stdout lines and exit code; stderr lines, exit code and file content; or an exception).
- Logging everywhere, including the stderr text it collects.
- Filesystem work: `Files.exists`, `readString`, `delete` (whose failure is ignored), and `createDirectories` (its failure falls into the download's catch-all, which is the `DownloadFailed` outcome).
- `cleanupOldTempFiles`: it depends on the filesystem and the wall clock.
- `UUID.randomUUID`: the UUID is a parameter. Uniqueness of names across calls cannot be stated about a random source; `YtDlpCommands.OutputPathsDiffer` gives the deterministic part.
- `Path.resolve` is string joining with '/'. Path normalisation is not modelled.
- URI parsing: `new URI(...)` and `toURL()` are a parameter of the model (`Uri` with an optional `Url` part). The two helpers and `load` see the same parse.
- YtLinkHelper.RemoveRedundantQueryParams: the re-parse that the five-argument URI constructor performs on its own output is not modelled. The one case it refuses that the model knows about, a relative path under a scheme, gives 4bc5.
- YtLinkHelper.UnquoteQuote: quoting and unquoting are modelled for ASCII. The constructor's re-encoding of non-ASCII spaces and controls, and IPv6 or registry-based authorities, are not modelled.
- Unicode behaviour of `toLowerCase` and of the regex classes: everything is ASCII, which is also the default of `java.util.regex` for `\d`, `\w`, `\s` and `\p{Cntrl}`.
- VttCleaner.StripArrowsNoArrow: "-->" is proved absent only right after the arrow step, not in the final cleaned line. `VttCleaner.ArrowReappears` shows that a line with a control character between "--" and ">" cleans to "-->".
- The duplicates test at `YtSubtitlesLoaderImplUnitTest.java:264-285` expects de-duplication that `cleanSubtitles` does not do. No de-duplication is modelled.
- `src/main/java/ru/panyukovnn/ytsubtitlesloader/util/YtLinkHelper.java` and the `ytsubtitlesloader.service.YtDlpProcessBuilderCreator` that `load` calls are not part of this model. The starter package's `YtLinkHelper` and `YtDlpProcessBuilderCreator` stand for them.
- `util/YtDlpProcessBuilderCreator.java` builds the same two commands token for token, so `YtDlpCommands` covers it. Its executable extraction (OS detection, resource copying, permissions) is left out.
- The CLI, the REST controller, the DTOs other than `YtSubtitles`, the factory, and the request validation are thin layers and are not modelled.
- The message texts of `YtLoadingException` and its cause: only the id is modelled.
