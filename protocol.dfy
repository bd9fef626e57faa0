/**
 * The window messages exchanged between the isolated-world extractor
 * (utils/extractor.ts) and the page-world bridge
 * (entrypoints/api-bridge.content.ts). Each constructor is one value of the
 * `type` field; any other payload is `Other`.
 */
module Protocol {
  import opened Wrappers

  datatype MessageData =
    | FetchTweet(tweetId: string, callbackId: string)
      // `XTO_FETCH_TWEET`
    | TweetResult(callbackId: string, text: Option<string>, cacheSize: nat)
      // `XTO_TWEET_RESULT`
    | DebugRequest
      // `XTO_DEBUG`
    | DebugResult(cacheSize: nat, cachedIds: seq<string>, graphqlOps: seq<string>,
                  preScannedHash: Option<string>, scannedScriptCount: nat)
      // `XTO_DEBUG_RESULT`
    | Other

  /** A `message` event: whether `event.source === window`, and its data. */
  datatype WindowMessage = WindowMessage(fromThisWindow: bool, data: MessageData)
}
