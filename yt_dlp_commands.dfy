/**
 * YtDlpProcessBuilderCreator: the two yt-dlp command lines the loader runs,
 * and the path of the file the download writes.
 *
 * A ProcessBuilder is modelled by its command and working directory. The
 * executable path and the random UUID are parameters; creating the temporary
 * directory is left out. Path.resolve of a plain file name is modelled as
 * joining with '/'.
 */
module YtDlpCommands {
  import opened Wrappers
  import opened JavaStrings

  /** A process to start: its command line and its working directory. */
  datatype ProcessSpec = ProcessSpec(command: seq<string>, directory: string)

  /** The download process and the path of the subtitles file it produces. */
  datatype DownloadPlan = DownloadPlan(process: ProcessSpec, outputPath: string)

  const TempDir := "./temp-subtitles"

  const AutoSubsFlag := "--write-auto-subs"
  const ManualSubsFlag := "--write-subs"

  /** Path.resolve of a relative file name. */
  function Resolve(dir: string, name: string): string {
    dir + "/" + name
  }

  /** The output name without extensions: "temp_subs_" and the first 8 characters of the UUID. */
  function TempFileName(uuid: string): string
    requires |uuid| >= 8
  {
    "temp_subs_" + uuid[..8]
  }

  function SubsTypeFlag(isAutoSubs: bool): string {
    if isAutoSubs then AutoSubsFlag else ManualSubsFlag
  }

  /** createListSubsProcessBuilder */
  function ListSubsProcess(exe: string, videoUrl: string): ProcessSpec {
    ProcessSpec([exe, "--list-subs", videoUrl], ".")
  }

  /** createProcessBuilder: the download command, and where yt-dlp writes `<template>.<lang>.vtt`. */
  function DownloadProcess(exe: string, videoUrl: string, lang: string, isAutoSubs: bool, uuid: string): DownloadPlan
    requires |uuid| >= 8
  {
    var name := TempFileName(uuid);
    var template := Resolve(TempDir, name);
    var command := [exe, "--skip-download", SubsTypeFlag(isAutoSubs), "--sub-lang", lang,
                    "--sub-format", "vtt", "-o", template, videoUrl];
    DownloadPlan(ProcessSpec(command, "."), Resolve(TempDir, name + "." + lang + ".vtt"))
  }

  // ----- Reading the command lines back -----

  /** The video URL of a list-subs command line, if it is one. */
  function ParseListSubs(command: seq<string>): Option<string> {
    if |command| == 3 && command[1] == "--list-subs" then Some(command[2]) else None
  }

  /** What a download command line asks for. */
  datatype DownloadRequest = DownloadRequest(videoUrl: string, lang: string, isAutoSubs: bool, template: string)

  /** The request a yt-dlp download command line in the shape above carries, if it is one. */
  function ParseDownload(command: seq<string>): Option<DownloadRequest> {
    if |command| == 10
      && command[1] == "--skip-download"
      && (command[2] == AutoSubsFlag || command[2] == ManualSubsFlag)
      && command[3] == "--sub-lang" && command[5] == "--sub-format" && command[6] == "vtt"
      && command[7] == "-o"
    then Some(DownloadRequest(command[9], command[4], command[2] == AutoSubsFlag, command[8]))
    else None
  }

  /** The list-subs command line carries the URL verbatim, after the executable and "--list-subs". */
  lemma ListSubsRoundTrip(exe: string, videoUrl: string)
    ensures ParseListSubs(ListSubsProcess(exe, videoUrl).command) == Some(videoUrl)
    ensures ListSubsProcess(exe, videoUrl).command[0] == exe
    ensures ListSubsProcess(exe, videoUrl).directory == "."
  {
  }

  /**
   * The download command line carries the URL, the language (verbatim, even
   * empty) and the kind of subtitles, and writes to the template in the
   * temporary directory; it runs the executable in ".".
   */
  lemma DownloadRoundTrip(exe: string, videoUrl: string, lang: string, isAutoSubs: bool, uuid: string)
    requires |uuid| >= 8
    ensures var plan := DownloadProcess(exe, videoUrl, lang, isAutoSubs, uuid);
      ParseDownload(plan.process.command)
        == Some(DownloadRequest(videoUrl, lang, isAutoSubs, Resolve(TempDir, TempFileName(uuid))))
      && plan.process.command[0] == exe
      && plan.process.directory == "."
  {
  }

  /**
   * Exactly one subtitle-type flag: the one chosen by isAutoSubs, unless the
   * executable, the language or the URL happens to be spelled like the other.
   */
  lemma ExactlyOneSubsTypeFlag(exe: string, videoUrl: string, lang: string, isAutoSubs: bool, uuid: string)
    requires |uuid| >= 8
    requires exe != AutoSubsFlag && exe != ManualSubsFlag
    requires videoUrl != AutoSubsFlag && videoUrl != ManualSubsFlag
    requires lang != AutoSubsFlag && lang != ManualSubsFlag
    ensures var command := DownloadProcess(exe, videoUrl, lang, isAutoSubs, uuid).process.command;
      (AutoSubsFlag in command <==> isAutoSubs) && (ManualSubsFlag in command <==> !isAutoSubs)
  {
    var plan := DownloadProcess(exe, videoUrl, lang, isAutoSubs, uuid);
    var command := plan.process.command;
    var template := command[8];
    assert template[..2] == "./";
    assert AutoSubsFlag[..2] == "--" && ManualSubsFlag[..2] == "--";
    assert template != AutoSubsFlag && template != ManualSubsFlag;
  }

  /**
   * The output path is the template followed by "." and the language and
   * ".vtt", inside the temporary directory, so it always ends in ".vtt".
   */
  lemma OutputPathShape(exe: string, videoUrl: string, lang: string, isAutoSubs: bool, uuid: string)
    requires |uuid| >= 8
    ensures var plan := DownloadProcess(exe, videoUrl, lang, isAutoSubs, uuid);
      plan.outputPath == plan.process.command[8] + "." + lang + ".vtt"
      && StartsWith(plan.outputPath, "./temp-subtitles/temp_subs_")
      && EndsWith(plan.outputPath, ".vtt")
  {
    var plan := DownloadProcess(exe, videoUrl, lang, isAutoSubs, uuid);
    var p := plan.outputPath;
    assert p == "./temp-subtitles/temp_subs_" + (uuid[..8] + "." + lang + ".vtt");
    assert p[|p| - 4..] == ".vtt";
  }

  /** Two UUIDs with different first 8 characters give different output paths. */
  lemma OutputPathsDiffer(exe: string, videoUrl: string, lang: string, isAutoSubs: bool, uuid1: string, uuid2: string)
    requires |uuid1| >= 8 && |uuid2| >= 8 && uuid1[..8] != uuid2[..8]
    ensures DownloadProcess(exe, videoUrl, lang, isAutoSubs, uuid1).outputPath
         != DownloadProcess(exe, videoUrl, lang, isAutoSubs, uuid2).outputPath
  {
    var p1 := DownloadProcess(exe, videoUrl, lang, isAutoSubs, uuid1).outputPath;
    var p2 := DownloadProcess(exe, videoUrl, lang, isAutoSubs, uuid2).outputPath;
    var k := |"./temp-subtitles/temp_subs_"|;
    assert p1[k..k + 8] == uuid1[..8];
    assert p2[k..k + 8] == uuid2[..8];
  }

  /** Different languages give different download command lines. */
  lemma LanguagesDiffer(exe: string, videoUrl: string, lang1: string, lang2: string, isAutoSubs: bool, uuid: string)
    requires |uuid| >= 8 && lang1 != lang2
    ensures DownloadProcess(exe, videoUrl, lang1, isAutoSubs, uuid).process.command
         != DownloadProcess(exe, videoUrl, lang2, isAutoSubs, uuid).process.command
  {
    assert DownloadProcess(exe, videoUrl, lang1, isAutoSubs, uuid).process.command[4] == lang1;
  }
}
