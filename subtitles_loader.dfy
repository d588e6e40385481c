/**
 * YtSubtitlesLoaderImpl: load validates the link, canonicalises it, lists the
 * tracks, downloads the preferred one, cleans it and joins the lines.
 *
 * The outside world enters as parameters: the URI parser, the yt-dlp
 * executable path, the random UUID of the output file, and what running a
 * listing process or a download process produces. The cleanup of old
 * temporary files and the logging are not modelled.
 */
module SubtitlesLoader {
  import opened Wrappers
  import opened JavaStrings
  import opened YtErrors
  import TrackSelection
  import VttCleaner
  import YtLinkHelper
  import YtDlpCommands

  // ----- tryDownloadSubtitles -----

  /** The stderr line yt-dlp prints when the requested track does not exist. */
  const NoSubtitlesMarker := "There are no subtitles for the requested languages"

  /**
   * What running the download process produced: its stderr lines, its exit
   * code and the content of the output file if it exists; or an exception
   * anywhere while preparing, starting or reading it.
   */
  datatype DownloadOutcome =
    | Downloaded(stderr: seq<string>, exitCode: int, file: Option<string>)
    | DownloadFailed

  predicate ReportsNoSubtitles(stderr: seq<string>) {
    exists i :: 0 <= i < |stderr| && Contains(stderr[i], NoSubtitlesMarker)
  }

  /** The trimmed subtitles, or None (the source's null) when the download gave nothing usable. */
  function DownloadSpec(o: DownloadOutcome): Option<string> {
    match o
    case DownloadFailed => None
    case Downloaded(stderr, exitCode, file) =>
      if ReportsNoSubtitles(stderr) || exitCode != 0 || file.None? then None
      else
        var subtitles := Trim(file.value);
        if subtitles == "" then None else Some(subtitles)
  }

  /** tryDownloadSubtitles: builds the download process, runs it and reads the file it writes. */
  method TryDownloadSubtitles(exe: string, videoUrl: string, lang: TrackSelection.Lang, isAutoSubs: bool,
                              uuid: string, runDownload: YtDlpCommands.DownloadPlan -> DownloadOutcome)
    returns (r: Option<string>)
    requires |uuid| >= 8
    ensures r == DownloadSpec(runDownload(YtDlpCommands.DownloadProcess(exe, videoUrl, TrackSelection.LangCode(lang), isAutoSubs, uuid)))
  {
    var plan := YtDlpCommands.DownloadProcess(exe, videoUrl, TrackSelection.LangCode(lang), isAutoSubs, uuid);
    var outcome := runDownload(plan);
    if outcome.DownloadFailed? {
      return None;
    }
    var stderr := outcome.stderr;
    var i := 0;
    while i < |stderr|
      invariant 0 <= i <= |stderr|
      invariant forall k :: 0 <= k < i ==> !Contains(stderr[k], NoSubtitlesMarker)
    {
      if Contains(stderr[i], NoSubtitlesMarker) {
        return None;
      }
      i := i + 1;
    }
    if outcome.exitCode != 0 {
      return None;
    }
    if outcome.file.None? {
      return None;
    }
    var subtitles := Trim(outcome.file.value);
    if subtitles == "" {
      return None;
    }
    return Some(subtitles);
  }

  /**
   * A download yields text exactly when no stderr line reports missing
   * subtitles, the exit code is 0, the file exists and its trimmed content is
   * not empty; the text is then that trimmed content.
   */
  lemma DownloadSpecSome(o: DownloadOutcome)
    ensures DownloadSpec(o).Some? <==>
      o.Downloaded? && !ReportsNoSubtitles(o.stderr) && o.exitCode == 0 && o.file.Some? && Trim(o.file.value) != ""
    ensures DownloadSpec(o).Some? ==>
      DownloadSpec(o).value == Trim(o.file.value) && DownloadSpec(o).value != "" && Trimmed(DownloadSpec(o).value)
  {
  }

  /** The marker on stderr wins over the exit code and the file. */
  lemma NoSubtitlesMarkerWins(stderr: seq<string>, i: nat, exitCode: int, file: Option<string>)
    requires i < |stderr| && Contains(stderr[i], NoSubtitlesMarker)
    ensures DownloadSpec(Downloaded(stderr, exitCode, file)) == None
  {
  }

  // ----- load -----

  /** The value load returns: the canonical link, no title, the language and the text. */
  datatype YtSubtitles = YtSubtitles(link: string, title: Option<string>, lang: TrackSelection.Lang, subtitles: string)

  /** What load returns, or the exception it throws, for one link and one run of the outside world. */
  function LoadSpec(dirtyLink: string, parse: string -> Option<YtLinkHelper.Uri>, exe: string, uuid: string,
                    runListing: YtDlpCommands.ProcessSpec -> TrackSelection.ListingOutcome,
                    runDownload: YtDlpCommands.DownloadPlan -> DownloadOutcome): Result<YtSubtitles, YtLoadingException>
    requires |uuid| >= 8
  {
    if !YtLinkHelper.IsValidLink(parse(dirtyLink)) then Failure(YtLoadingException(InvalidLinkId))
    else
      match YtLinkHelper.CanonicalLink(dirtyLink, parse(dirtyLink))
      case Failure(e) => Failure(e)
      case Success(cleanedLink) => LoadCleaned(cleanedLink, exe, uuid, runListing, runDownload)
  }

  /** The try block of load, for the canonical link. */
  function LoadCleaned(cleanedLink: string, exe: string, uuid: string,
                       runListing: YtDlpCommands.ProcessSpec -> TrackSelection.ListingOutcome,
                       runDownload: YtDlpCommands.DownloadPlan -> DownloadOutcome): Result<YtSubtitles, YtLoadingException>
    requires |uuid| >= 8
  {
    match TrackSelection.SelectSpec(runListing(YtDlpCommands.ListSubsProcess(exe, cleanedLink)))
    case None => Failure(YtLoadingException(NoSubtitlesId))
    case Some(preferred) =>
      LoadTrack(cleanedLink, preferred.0,
        DownloadSpec(runDownload(YtDlpCommands.DownloadProcess(exe, cleanedLink, TrackSelection.LangCode(preferred.0), preferred.1, uuid))))
  }

  /** The rest of the try block, once the download of the chosen track returned its content or null. */
  function LoadTrack(cleanedLink: string, lang: TrackSelection.Lang, content: Option<string>): Result<YtSubtitles, YtLoadingException> {
    match content
    case None => Failure(YtLoadingException(NoSubtitlesId))
    case Some(text) =>
      if text == "" then Failure(YtLoadingException(NoSubtitlesId))
      else
        match VttCleaner.CleanSpec(Split(text, '\n'))
        case Failure(_) => Failure(YtLoadingException(ExtractionFailedId))
        case Success(lines) => Success(YtSubtitles(cleanedLink, None, lang, Join(lines, " ")))
  }

  /**
   * load. The UUID is the one createProcessBuilder would draw: its string
   * form always has at least 8 characters.
   */
  method Load(dirtyLink: string, parse: string -> Option<YtLinkHelper.Uri>, exe: string, uuid: string,
              runListing: YtDlpCommands.ProcessSpec -> TrackSelection.ListingOutcome,
              runDownload: YtDlpCommands.DownloadPlan -> DownloadOutcome)
    returns (r: Result<YtSubtitles, YtLoadingException>)
    requires |uuid| >= 8
    ensures r == LoadSpec(dirtyLink, parse, exe, uuid, runListing, runDownload)
  {
    var valid := YtLinkHelper.IsValidYoutubeUrl(dirtyLink, parse);
    if !valid {
      return Failure(YtLoadingException(InvalidLinkId));
    }
    var canonical := YtLinkHelper.RemoveRedundantQueryParams(dirtyLink, parse);
    if canonical.Failure? {
      return Failure(canonical.error);
    }
    var cleanedLink := canonical.value;
    var preferred := TrackSelection.SelectPreferredSubtitles(runListing(YtDlpCommands.ListSubsProcess(exe, cleanedLink)));
    if preferred.None? {
      return Failure(YtLoadingException(NoSubtitlesId));
    }
    var lang := preferred.value.0;
    var isAuto := preferred.value.1;
    var subtitlesContent := TryDownloadSubtitles(exe, cleanedLink, lang, isAuto, uuid, runDownload);
    if subtitlesContent.None? || subtitlesContent.value == "" {
      return Failure(YtLoadingException(NoSubtitlesId));
    }
    var subtitlesLines := Split(subtitlesContent.value, '\n');
    var cleanedFileLines := VttCleaner.CleanSubtitles(subtitlesLines);
    if cleanedFileLines.Failure? {
      return Failure(YtLoadingException(ExtractionFailedId));
    }
    var subtitles := Join(cleanedFileLines.value, " ");
    return Success(YtSubtitles(cleanedLink, None, lang, subtitles));
  }

  // ----- What load promises -----

  /** An invalid link is refused with 824c before any process runs: the outcomes play no part. */
  lemma InvalidLinkRefusedFirst(dirtyLink: string, parse: string -> Option<YtLinkHelper.Uri>, exe: string, uuid: string,
                                runListing1: YtDlpCommands.ProcessSpec -> TrackSelection.ListingOutcome,
                                runDownload1: YtDlpCommands.DownloadPlan -> DownloadOutcome,
                                runListing2: YtDlpCommands.ProcessSpec -> TrackSelection.ListingOutcome,
                                runDownload2: YtDlpCommands.DownloadPlan -> DownloadOutcome)
    requires |uuid| >= 8
    requires !YtLinkHelper.IsValidLink(parse(dirtyLink))
    ensures LoadSpec(dirtyLink, parse, exe, uuid, runListing1, runDownload1) == Failure(YtLoadingException(InvalidLinkId))
    ensures LoadSpec(dirtyLink, parse, exe, uuid, runListing2, runDownload2) == Failure(YtLoadingException(InvalidLinkId))
  {
  }

  /**
   * A valid link that cannot be canonicalised fails with 4bc5: the exception
   * is thrown before the try block, so it is not turned into 63e9.
   */
  lemma MalformedLinkSurfaces(dirtyLink: string, parse: string -> Option<YtLinkHelper.Uri>, exe: string, uuid: string,
                              runListing: YtDlpCommands.ProcessSpec -> TrackSelection.ListingOutcome,
                              runDownload: YtDlpCommands.DownloadPlan -> DownloadOutcome)
    requires |uuid| >= 8
    requires YtLinkHelper.IsValidLink(parse(dirtyLink))
    requires YtLinkHelper.CanonicalLink(dirtyLink, parse(dirtyLink)).Failure?
    ensures LoadSpec(dirtyLink, parse, exe, uuid, runListing, runDownload) == Failure(YtLoadingException(MalformedLinkId))
  {
    var c := YtLinkHelper.CanonicalLink(dirtyLink, parse(dirtyLink));
    assert c.error.id == MalformedLinkId;
  }

  /** load fails only with one of its four ids. */
  lemma LoadErrorIds(dirtyLink: string, parse: string -> Option<YtLinkHelper.Uri>, exe: string, uuid: string,
                     runListing: YtDlpCommands.ProcessSpec -> TrackSelection.ListingOutcome,
                     runDownload: YtDlpCommands.DownloadPlan -> DownloadOutcome)
    requires |uuid| >= 8
    ensures var r := LoadSpec(dirtyLink, parse, exe, uuid, runListing, runDownload);
      r.Failure? ==> r.error.id in {InvalidLinkId, MalformedLinkId, NoSubtitlesId, ExtractionFailedId}
  {
    var parsed := parse(dirtyLink);
    if YtLinkHelper.IsValidLink(parsed) {
      var c := YtLinkHelper.CanonicalLink(dirtyLink, parsed);
      assert c.Failure? ==> c.error.id == MalformedLinkId;
    }
  }

  /** A listing that throws or exits with a non-zero code ends in 48ae, whatever the download would do. */
  lemma ListingFailureNoSubtitles(dirtyLink: string, parse: string -> Option<YtLinkHelper.Uri>, exe: string, uuid: string,
                                  runListing: YtDlpCommands.ProcessSpec -> TrackSelection.ListingOutcome,
                                  runDownload: YtDlpCommands.DownloadPlan -> DownloadOutcome)
    requires |uuid| >= 8
    requires YtLinkHelper.IsValidLink(parse(dirtyLink))
    requires YtLinkHelper.CanonicalLink(dirtyLink, parse(dirtyLink)).Success?
    requires var o := runListing(YtDlpCommands.ListSubsProcess(exe, YtLinkHelper.CanonicalLink(dirtyLink, parse(dirtyLink)).value));
      o.ListingFailed? || o.exitCode != 0
    ensures LoadSpec(dirtyLink, parse, exe, uuid, runListing, runDownload) == Failure(YtLoadingException(NoSubtitlesId))
  {
    var cleanedLink := YtLinkHelper.CanonicalLink(dirtyLink, parse(dirtyLink)).value;
    TrackSelection.ListingFailureSelectsNothing(runListing(YtDlpCommands.ListSubsProcess(exe, cleanedLink)));
  }

  /**
   * 63e9 comes from the cleaning step alone: exactly when a track was chosen
   * and downloaded, its lines carry the header, and fewer than four lines
   * survive cleaning.
   */
  lemma ExtractionFailedIff(dirtyLink: string, parse: string -> Option<YtLinkHelper.Uri>, exe: string, uuid: string,
                            runListing: YtDlpCommands.ProcessSpec -> TrackSelection.ListingOutcome,
                            runDownload: YtDlpCommands.DownloadPlan -> DownloadOutcome)
    requires |uuid| >= 8
    ensures LoadSpec(dirtyLink, parse, exe, uuid, runListing, runDownload) == Failure(YtLoadingException(ExtractionFailedId))
      <==> (YtLinkHelper.IsValidLink(parse(dirtyLink))
            && YtLinkHelper.CanonicalLink(dirtyLink, parse(dirtyLink)).Success?
            && var cleanedLink := YtLinkHelper.CanonicalLink(dirtyLink, parse(dirtyLink)).value;
               var preferred := TrackSelection.SelectSpec(runListing(YtDlpCommands.ListSubsProcess(exe, cleanedLink)));
               preferred.Some?
               && var content := DownloadSpec(runDownload(YtDlpCommands.DownloadProcess(exe, cleanedLink, TrackSelection.LangCode(preferred.value.0), preferred.value.1, uuid)));
                  content.Some?
                  && VttCleaner.HasVttHeader(Split(content.value, '\n'))
                  && |VttCleaner.CleanAll(Split(content.value, '\n'))| < 4)
  {
    assert ExtractionFailedId[0] == '6' && MalformedLinkId[0] == '4' && NoSubtitlesId[0] == '4';
    assert InvalidLinkId[0] == '8';
    var parsed := parse(dirtyLink);
    if YtLinkHelper.IsValidLink(parsed) {
      var c := YtLinkHelper.CanonicalLink(dirtyLink, parsed);
      assert c.Failure? ==> c.error.id == MalformedLinkId;
      if c.Success? {
        var preferred := TrackSelection.SelectSpec(runListing(YtDlpCommands.ListSubsProcess(exe, c.value)));
        if preferred.Some? {
          var content := DownloadSpec(runDownload(YtDlpCommands.DownloadProcess(exe, c.value, TrackSelection.LangCode(preferred.value.0), preferred.value.1, uuid)));
          if content.Some? {
            VttCleaner.CleanSpecFails(Split(content.value, '\n'));
          }
        }
      }
    }
  }

  /** Each cleaned line brings no whitespace to its ends, so one space between them never doubles. */
  lemma {:induction false} JoinCleanedLines(parts: seq<string>)
    requires forall k :: 0 <= k < |parts| ==> VttCleaner.IsCleanedLine(parts[k])
    ensures Trimmed(Join(parts, " "))
    ensures VttCleaner.NoDoubleSpace(Join(parts, " "))
    ensures |parts| > 0 ==> Join(parts, " ") != ""
  {
    if |parts| > 1 {
      JoinCleanedLines(parts[1..]);
      JoinTwo(parts[0], Join(parts[1..], " "));
    }
  }

  /** Two trimmed, single-spaced, non-empty strings around one space. */
  lemma JoinTwo(a: string, b: string)
    requires a != "" && Trimmed(a) && VttCleaner.NoDoubleSpace(a)
    requires b != "" && Trimmed(b) && VttCleaner.NoDoubleSpace(b)
    ensures Trimmed(a + " " + b) && VttCleaner.NoDoubleSpace(a + " " + b)
  {
    var s := a + " " + b;
    assert forall i :: 0 <= i < |a| ==> s[i] == a[i];
    assert forall i :: 0 <= i < |b| ==> s[|a| + 1 + i] == b[i];
    assert !VttCleaner.IsSpace(a[|a| - 1]) && !VttCleaner.IsSpace(b[0]);
    forall i | 0 <= i < |s| - 1
      ensures !(VttCleaner.IsSpace(s[i]) && VttCleaner.IsSpace(s[i + 1]))
    {
      if i < |a| - 1 {
      } else if i == |a| - 1 || i == |a| {
      } else {
        assert s[i] == b[i - |a| - 1] && s[i + 1] == b[i - |a|];
      }
    }
  }

  /**
   * A successful load returns the canonical link, no title, and the language
   * of a track the listing of that link selected (so the listing exited with
   * 0); its text is the cleaned lines of the downloaded track joined by
   * single spaces, with no whitespace at either end and none doubled.
   */
  lemma LoadSuccess(dirtyLink: string, parse: string -> Option<YtLinkHelper.Uri>, exe: string, uuid: string,
                    runListing: YtDlpCommands.ProcessSpec -> TrackSelection.ListingOutcome,
                    runDownload: YtDlpCommands.DownloadPlan -> DownloadOutcome)
    requires |uuid| >= 8
    requires LoadSpec(dirtyLink, parse, exe, uuid, runListing, runDownload).Success?
    ensures var y := LoadSpec(dirtyLink, parse, exe, uuid, runListing, runDownload).value;
      var listing := runListing(YtDlpCommands.ListSubsProcess(exe, y.link));
      YtLinkHelper.IsValidLink(parse(dirtyLink))
      && YtLinkHelper.CanonicalLink(dirtyLink, parse(dirtyLink)) == Success(y.link)
      && y.title == None
      && listing.Listed? && listing.exitCode == 0
      && (exists isAuto :: TrackSelection.SelectSpec(listing) == Some((y.lang, isAuto)))
      && Trimmed(y.subtitles)
      && VttCleaner.NoDoubleSpace(y.subtitles)
  {
    var y := LoadSpec(dirtyLink, parse, exe, uuid, runListing, runDownload).value;
    var listing := runListing(YtDlpCommands.ListSubsProcess(exe, y.link));
    if listing.ListingFailed? || listing.exitCode != 0 {
      TrackSelection.ListingFailureSelectsNothing(listing);
    }
    var preferred := TrackSelection.SelectSpec(listing).value;
    var content := DownloadSpec(runDownload(YtDlpCommands.DownloadProcess(exe, y.link, TrackSelection.LangCode(preferred.0), preferred.1, uuid))).value;
    var lines := Split(content, '\n');
    VttCleaner.CleanSpecLines(lines);
    JoinCleanedLines(VttCleaner.CleanSpec(lines).value);
    assert TrackSelection.SelectSpec(listing) == Some((y.lang, preferred.1));
  }
}
