/**
 * The shapes of types/index.ts: an extracted post and the extension's
 * settings. Absent values (`null`) are `None`.
 */
module TweetTypes {
  import opened Wrappers

  datatype Author = Author(name: string, handle: string, avatarUrl: Option<string>)

  datatype Video = Video(thumbnailUrl: Option<string>, tweetUrl: string)

  /** Engagement counts as the page shows them (digits with separators). */
  datatype Metrics = Metrics(replies: string, reposts: string, likes: string)

  datatype TweetData = TweetData(
    id: string,
    author: Author,
    text: string,
    timestamp: string,
    images: seq<string>,
    video: Option<Video>,
    quoteTweet: Option<TweetData>,
    metrics: Option<Metrics>,
    url: string)

  datatype ExportMethod = Uri | RestApi | Clipboard

  datatype ExtensionSettings = ExtensionSettings(
    vaultName: string,
    savePath: string,
    exportMethod: ExportMethod,
    restApiPort: int,
    restApiKey: string,
    includeMetrics: bool,
    includeImages: bool,
    dateFormat: string,
    fileNameTemplate: string)

  const DefaultSettings: ExtensionSettings := ExtensionSettings(
    "", "Clippings/Twitter", Uri, 27123, "", true, true, "YYYY-MM-DD", "{{title}}")
}
