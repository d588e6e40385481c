/**
 * The one exception type the loader surfaces to its callers, reduced to the
 * stable short id it carries (the human-readable message is not modelled).
 */
module YtErrors {

  datatype YtLoadingException = YtLoadingException(id: string)

  /** The link does not have the shape of a YouTube video link. */
  const InvalidLinkId := "824c"
  /** The link could not be parsed or rebuilt as a URI. */
  const MalformedLinkId := "4bc5"
  /** No eligible subtitle track, or the download produced nothing usable. */
  const NoSubtitlesId := "48ae"
  /** Any other failure while extracting the subtitles. */
  const ExtractionFailedId := "63e9"
}
