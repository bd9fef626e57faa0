# X post clipper: page bridge, extractor rules and Markdown export

This project models the core of a browser extension that clips posts from
X (formerly Twitter) into an Obsidian vault. It has three parts.

- **The page-world bridge** (`entrypoints/api-bridge.content.ts`). It runs in
  the page's own JavaScript context.
  - It scans X's script bundles for the `TweetResultByRestId` query hash and
    for a fallback features object.
  - It watches X's own API calls. From their URLs it records each GraphQL
    operation's hash and features. From their response bodies it collects
    every post's full text into a bounded cache.
  - When the isolated extension script asks for a post that is not cached, it
    sends one active GraphQL request and caches the answer.
- **The extractor** (`utils/extractor.ts`). It reads a post out of the page:
  - the post identifier and permalink;
  - the large-size image URLs;
  - the engagement counts;
  - the choice between the visible text and the bridge's full text.
  It also holds the request/reply/timeout state machine it uses to ask the
  bridge.
- **The exporter** (`utils/markdown.ts`). It builds the Markdown document, the
  date stamp, the short title and the file name.

Modules and files:

- **`PageBridge.Bridge`** (bridge.dfy) is the bridge's state as a class. Its
  fields are:
  - `cache`, the tweet-text cache;
  - `ops`, the `graphqlInfo` map;
  - `scannedSrcs`;
  - `preScannedHash` and `fallbackFeatures`.

  Each event the script reacts to is one method:
  - a script element appears;
  - bundle text arrives;
  - an API request is seen;
  - a response body is parsed;
  - a window message arrives.

  Every method states the complete new state in terms of the pure functions
  below.
- **`TweetCache`** states the cache's insertion and eviction rules.
- **`OrderedMaps`** models a JavaScript `Map` that keeps insertion order, as a
  sequence of keys plus a map.
- **`TweetRecords`** describes which JSON nodes count as posts, which text and
  URL entities each path reads, and the depth-bounded traversal.
- **`TextResolver`** models `resolveUrls`.
- **`BundleScan`** and **`RequestParsing`** model the regular expressions and
  string slicing:
  - the bundle scan;
  - the GraphQL URL;
  - the `ct0` cookie.
- **`OpLookup`** models the priority order for hashes and features.
- **`Extractor`** holds the identifier, URL, metric and image rules, and
  `ExtractTweetData` over an abstract view of the article element. Its
  `BridgeCall` class is the requester's listener/timer state machine.
- **`Markdown`** models `formatTweetAsMarkdown`, `formatDate`,
  `generateTitle` and `generateFileName`.

Notes on the behaviour as modelled:

- **Passive eviction.** The passive cache write evicts the oldest entry only
  when the cache holds at least 1000 entries and the oldest key is truthy.
  An empty-string key is never evicted, so the cache can grow past 1000
  (`TweetCache.EmptyOldestKeyOverflows`).
- **Active write.** The write in `fetchTweetViaGraphQL` never evicts, so it
  can take the cache to 1001 entries (`TweetCache.ActivePutOverflows`).
  Together with the previous point, the 1000-entry bound holds only for the
  passive path, and only while no key is empty (`TweetCache.PutAllBounded`).
- **Image URLs.** The image rewrite replaces the first `name=\w+` anywhere in
  the URL, not only in the query string. A URL such as
  `https://x/?name=pbs.twimg.com` keeps the image but loses the host name.
  So the image list is stated as "the rewritten URLs of the kept sources"
  (`Extractor.KeptImagesSound`, `Extractor.KeptImagesComplete`), and the
  usual rewrite of a media URL is a separate lemma
  (`Extractor.LargeImageOfMediaUrl`).
- **Video thumbnail.** The thumbnail line of the video block is written when
  `thumbnailUrl` is truthy. The code tests `if (tweet.video.thumbnailUrl)`,
  so an empty string behaves like `null`.
- **Active versus passive text.** The active path and the passive path read
  URL entities differently. When a long-form note has no entity set, the
  passive path falls back to the legacy entities and the active path uses
  none (`TweetRecords.NoteWithoutEntitySetDiffers`).

## Model

| member | source | states |
|---|---|---|
| PageBridge.Bridge.constructor | entrypoints/api-bridge.content.ts:19-40 | The bridge starts with an empty cache, no observed operations, no scanned sources, and no scanned hash or features |
| PageBridge.Bridge.ScanScriptElement | entrypoints/api-bridge.content.ts:42-49 | A bundle is fetched exactly when its source is non-empty, not yet scanned, and under twimg.com or x.com; then, and only then, the source is recorded as scanned |
| PageBridge.Bridge.OnBundleText | entrypoints/api-bridge.content.ts:51-78 | Bundle text sets the scanned hash only while it is unset and the query-id pattern matches. It sets the fallback features only while they are unset, the features pattern matches and the candidate object parses. Otherwise both are unchanged |
| PageBridge.Bridge.AdoptHash | entrypoints/api-bridge.content.ts:53-60 | The scanned hash is written once: when it is falsy and the bundle holds a match, it becomes the first match's query id |
| PageBridge.Bridge.AdoptFeatures | entrypoints/api-bridge.content.ts:63-77 | The fallback features are written once, to the brace-delimited candidate around the first features match, and only if that candidate parses |
| PageBridge.Bridge.CaptureRequest | entrypoints/api-bridge.content.ts:114-148 | A response body is read iff the URL contains `/i/api/`. A GraphQL URL records its hash and features under its operation name, keeping the name's first position. Non-empty features fill unset fallback features |
| PageBridge.Bridge.CacheTweetFromResult | entrypoints/api-bridge.content.ts:176-196 | The cache becomes the passive put of the node's identifier and resolved text |
| PageBridge.Bridge.ExtractAndCacheTweets | entrypoints/api-bridge.content.ts:153-174 | After the traversal, the cache equals the passive puts of `Harvest(obj, depth)` applied in order |
| PageBridge.Bridge.ExtractWithinBounds | entrypoints/api-bridge.content.ts:158-173 | An object within the depth bound caches its own post first, then its children's, in order |
| PageBridge.Bridge.VisitNode | entrypoints/api-bridge.content.ts:158-165 | A node that passes the post test is cached; any other node leaves the cache alone |
| PageBridge.Bridge.ExtractChildren | entrypoints/api-bridge.content.ts:168-173 | The children are visited left to right at depth + 1, and their writes are applied in that order |
| PageBridge.ActiveRequest | entrypoints/api-bridge.content.ts:289-305 | No request is sent iff the CSRF token or the hash is falsy. A sent request carries a non-empty hash, token and features, and the post identifier asked for |
| PageBridge.Bridge.PrepareRequest | entrypoints/api-bridge.content.ts:289-305 | The request built from the current state is `ActiveRequest` of the observed operations, scanned strings and cookie |
| PageBridge.ReadResponse | entrypoints/api-bridge.content.ts:318-346 | The text read from a response is exactly `ActiveText` of the parsed body |
| PageBridge.Bridge.ReceiveResponse | entrypoints/api-bridge.content.ts:318-349 | A response that yields text is written under the asked identifier without eviction; otherwise the cache is unchanged |
| PageBridge.Bridge.StoreActive | entrypoints/api-bridge.content.ts:348 | The active write sets the identifier's text without evicting anything |
| PageBridge.Bridge.FetchTweetViaGraphQL | entrypoints/api-bridge.content.ts:286-353 | Without a token or hash nothing is sent and nothing is cached. Otherwise the answer's text, if any, is returned and cached under the asked identifier |
| PageBridge.Bridge.HandleMessage | entrypoints/api-bridge.content.ts:358-390 | Messages from other windows or of other types are ignored. A fetch request replies with the cached text, falling back to one active request only when the cached text is falsy and the identifier non-empty. The reply carries the cache size after the call. A debug request reports at most 10 cached ids, the operation names, the scanned hash and the scanned-source count |
| TweetCache.PassivePut | entrypoints/api-bridge.content.ts:191-195 | The passive write leaves a well-formed cache in which the identifier maps to the new text. Below capacity, or at capacity when the oldest key is the empty string, it is a plain `set`, the active write: nothing is evicted and an existing key keeps its place. What it evicts at capacity is stated by the lemmas below |
| TweetCache.ActivePut | entrypoints/api-bridge.content.ts:348 | The active write only sets the identifier: every other entry and the key order stay, and a new identifier is appended, so nothing is evicted |
| TweetCache.Lookup | entrypoints/api-bridge.content.ts:365 | A lookup finds a value iff the identifier is cached, and then it is the cached text |
| TweetCache.PassivePutStores | entrypoints/api-bridge.content.ts:191-195 | After a passive put the identifier maps to the new text, and every other remaining entry is unchanged |
| TweetCache.PassivePutBounded | entrypoints/api-bridge.content.ts:191-195 | A passive put keeps the cache within 1000 entries when it was within 1000 and a full cache's oldest key is non-empty |
| TweetCache.PassivePutEvictsOldest | entrypoints/api-bridge.content.ts:191-195 | At capacity with a non-empty oldest key, a passive put removes that key unless it is the one being written. A surviving identifier keeps its place; a new one, or the evicted key itself, is appended at the end of the order |
| TweetCache.EmptyOldestKeyOverflows | entrypoints/api-bridge.content.ts:192-193 | At capacity with an empty oldest key, nothing is evicted and a new identifier grows the cache past the bound |
| TweetCache.ActivePutOverflows | entrypoints/api-bridge.content.ts:348 | An active write of a new identifier into a full cache leaves 1001 entries |
| TweetCache.PutAllBounded | entrypoints/api-bridge.content.ts:191-195 | Any run of passive writes with non-empty identifiers keeps a bounded cache without empty keys bounded and without empty keys |
| TweetCache.PutAllAppend | entrypoints/api-bridge.content.ts:153-174 | Applying two runs of writes one after the other is the same as applying their concatenation |
| TweetCache.PutAllOne | entrypoints/api-bridge.content.ts:191-195 | A run of one write is that single passive put |
| OrderedMaps.Set | entrypoints/api-bridge.content.ts:131 | `Map.set` updates the entry. A new key is appended to the order and an existing key keeps its position. The size grows iff the key is new |
| OrderedMaps.Delete | entrypoints/api-bridge.content.ts:193 | `Map.delete` removes the entry and its key from the order, and the size drops iff the key was present |
| OrderedMaps.RemoveFirstKey | entrypoints/api-bridge.content.ts:192-193 | Removing the first key of an insertion order leaves the rest of the order |
| OrderedMaps.SizeIsEntryCount | entrypoints/api-bridge.content.ts:191 | `size` is the number of entries |
| TextResolver.ResolveUrls | entrypoints/api-bridge.content.ts:198-217 | The loop's result is the function `ResolvedText`: URL entities expanded in order, then media links removed with a trim after each |
| TextResolver.ResolvedText | entrypoints/api-bridge.content.ts:198-217 | No contract of its own: URL entities expanded in order, then media links removed with a trim after each. Its behaviour is stated by the lemmas that follow |
| TextResolver.ResolveWithoutTokens | entrypoints/api-bridge.content.ts:198-217 | A trimmed text containing none of the short links is returned unchanged |
| TextResolver.ExpandWithoutTokens | entrypoints/api-bridge.content.ts:203-210 | Expansion changes nothing when no short link occurs in the text |
| TextResolver.StripWithoutTokens | entrypoints/api-bridge.content.ts:211-215 | Media stripping changes a trimmed text only if a media link occurs in it |
| TextResolver.NoMediaUrlNoTrim | entrypoints/api-bridge.content.ts:211-215 | Without media links the text is not trimmed: the result is the expanded text itself |
| TextResolver.StripNothing | entrypoints/api-bridge.content.ts:212 | Media entities without a url are skipped |
| TextResolver.MediaUrlTrims | entrypoints/api-bridge.content.ts:213 | One media entity with a link makes the result trimmed |
| TextResolver.StripKeepsTrimmed | entrypoints/api-bridge.content.ts:211-215 | Stripping keeps a trimmed text trimmed |
| TextResolver.OnlyFirstOccurrenceExpanded | entrypoints/api-bridge.content.ts:205-208 | Only the first occurrence of a short link is replaced, by its expanded, display or short form in that order |
| TextResolver.ExpandExample | entrypoints/api-bridge.content.ts:203-210 | "See t.co/abc" with that link's expanded URL becomes "See https://example.com/p" |
| TextResolver.ExpandAfterPrefix | entrypoints/api-bridge.content.ts:203-210 | A short link after a prefix that cannot start it is replaced in place |
| TweetRecords.EntityList | entrypoints/api-bridge.content.ts:179-180 | An entity array is read element by element; anything other than an array reads as no entities |
| TweetRecords.PassiveRaw | entrypoints/api-bridge.content.ts:177-189 | The passive text is the note text when that is a string, otherwise the legacy full text. The URL entities are the note's entity set or else the legacy ones. The media are the legacy media |
| TweetRecords.PassiveWrite | entrypoints/api-bridge.content.ts:176-195 | No contract of its own: the write is the node's `id_str` and its resolved passive text. `ActiveMatchesPassive` relates the text to the active path |
| TweetRecords.OwnWrites | entrypoints/api-bridge.content.ts:158-165 | A node contributes at most one write, its own |
| TweetRecords.Harvest | entrypoints/api-bridge.content.ts:153-174 | No contract of its own: the writes of the traversal, in order. They are exactly the writes of the post nodes within depth 40 (`HarvestSound`, `HarvestComplete`), the node's own write first (`HarvestInBounds`) |
| TweetRecords.HarvestAll | entrypoints/api-bridge.content.ts:168-173 | No contract of its own: the children's writes, left to right. Stated by `HarvestAllSound` and `HarvestAllComplete` |
| TweetRecords.HarvestInBounds | entrypoints/api-bridge.content.ts:153-173 | Within depth 40, an object's writes are its own followed by its children's at depth + 1 |
| TweetRecords.HarvestOutOfBounds | entrypoints/api-bridge.content.ts:154 | Beyond depth 40, or for a non-object, nothing is written |
| TweetRecords.HarvestSound | entrypoints/api-bridge.content.ts:153-174 | Every cached write comes from a post node reachable within depth 40 |
| TweetRecords.HarvestAllSound | entrypoints/api-bridge.content.ts:168-173 | Every write from a list of children comes from a post node inside one of them |
| TweetRecords.HarvestComplete | entrypoints/api-bridge.content.ts:153-174 | Every post node reachable within depth 40 is written |
| TweetRecords.HarvestAllComplete | entrypoints/api-bridge.content.ts:168-173 | Every post node inside any child is written by the children's traversal |
| TweetRecords.SelectTweet | entrypoints/api-bridge.content.ts:321-326 | The result is found iff `tweetResult` or else `tweet_result` is truthy. A `tweet` wrapper is unwrapped when not nullish |
| TweetRecords.ActiveRaw | entrypoints/api-bridge.content.ts:328-340 | A string note text is used, with only the note's entity set, and yields nothing when empty. Otherwise a non-empty legacy full text is used. The media are always the legacy media |
| TweetRecords.ActiveText | entrypoints/api-bridge.content.ts:318-346 | No body, no selected post, or no raw text means no text |
| TweetRecords.ActiveMatchesPassive | entrypoints/api-bridge.content.ts:183-187 | For a post with non-empty text whose note, if any, carries an entity set, both paths read the same text, URLs and media |
| TweetRecords.NoteWithoutEntitySetDiffers | entrypoints/api-bridge.content.ts:186 | A concrete note without an entity set: the active path reads no URL entities while the passive path reads the legacy ones |
| BundleScan.QueryIdCapture | entrypoints/api-bridge.content.ts:58 | The captured query id is non-empty and free of quotes |
| BundleScan.FindQueryId | entrypoints/api-bridge.content.ts:54-56 | The scan returns the leftmost position where the query-id pattern matches, or -1 if there is none |
| BundleScan.ScanQueryId | entrypoints/api-bridge.content.ts:54-59 | There is a hash iff the pattern matches somewhere, and it is a non-empty, quote-free id |
| BundleScan.ScanFindsLeadingQueryId | entrypoints/api-bridge.content.ts:54-58 | `queryId:"id"`, then a gap of at most 80 characters without `}`, then the operation marker, yields exactly `id` |
| BundleScan.FindFeatures | entrypoints/api-bridge.content.ts:64-66 | The features scan returns the leftmost match of the features pattern, or -1 |
| BundleScan.FeaturesIndexIsMatch | entrypoints/api-bridge.content.ts:70 | `indexOf` of the matched text finds the match itself, not an earlier copy |
| BundleScan.LastOpenBrace | entrypoints/api-bridge.content.ts:70 | The brace found is the last `{` at or before the index, or -1 if there is none |
| BundleScan.FeaturesCandidate | entrypoints/api-bridge.content.ts:64-73 | There is a candidate iff the pattern matches. A non-empty candidate ends at its first `}` |
| BundleScan.CandidateAtMatch | entrypoints/api-bridge.content.ts:70-73 | The candidate is the slice taken at the leftmost match |
| BundleScan.CandidateStartsAtBrace | entrypoints/api-bridge.content.ts:70-73 | With a `{` before the match, the candidate is a prefix of the text from the last such brace, at least two characters long and starting with `{` |
| BundleScan.CandidateStopsAtFirstCloseBrace | entrypoints/api-bridge.content.ts:72-73 | A `}` between the opening brace and the match cuts the candidate there |
| OpLookup.FirstIndex | entrypoints/api-bridge.content.ts:234-241 | The first usable name in list order is found, or -1 |
| OpLookup.FirstHash | entrypoints/api-bridge.content.ts:234-241 | The hash of the first recorded operation among the names, or nothing when none is recorded |
| OpLookup.FirstFeatures | entrypoints/api-bridge.content.ts:247-254 | The features of the first recorded operation whose features are non-empty, or nothing |
| OpLookup.GraphQLHash | entrypoints/api-bridge.content.ts:232-243 | Without any of the three operations recorded, the scanned hash is used |
| OpLookup.GraphQLHashPriority | entrypoints/api-bridge.content.ts:232-243 | The hash of TweetResultByRestId, else TweetDetail, else TimelineTweetDetail, else the scanned hash |
| OpLookup.DefaultFeatures | entrypoints/api-bridge.content.ts:258-283 | The built-in features are one JSON object text |
| OpLookup.Features | entrypoints/api-bridge.content.ts:245-284 | The features are never empty. Without recorded features, the truthy fallback or else the built-in default is used |
| OpLookup.FeaturesPriorityOrder | entrypoints/api-bridge.content.ts:245-284 | The non-empty features of TweetResultByRestId, else TweetDetail, else HomeTimeline, else the fallback, else the default |
| RequestParsing.FindGraphql | entrypoints/api-bridge.content.ts:125 | The leftmost position where the GraphQL path pattern matches, or -1 |
| RequestParsing.GraphqlCapture | entrypoints/api-bridge.content.ts:125-127 | The captured hash is non-empty without `/`, and the operation name is a non-empty word |
| RequestParsing.GraphqlPath | entrypoints/api-bridge.content.ts:125-127 | The URL yields an operation iff the pattern matches anywhere, with those capture shapes |
| RequestParsing.GraphqlPathOfApiUrl | entrypoints/api-bridge.content.ts:125-127 | `/i/api/graphql/<hash>/<op><query>` yields exactly that hash and operation |
| RequestParsing.FindCsrfPiece | entrypoints/api-bridge.content.ts:226 | `find` returns the first cookie piece that starts with `ct0=` after trimming, or -1 |
| RequestParsing.PieceToken | entrypoints/api-bridge.content.ts:227-228 | The token is the trimmed piece without its `ct0=` prefix |
| RequestParsing.CsrfToken | entrypoints/api-bridge.content.ts:222-230 | No token iff no piece of the `;`-split cookie starts with `ct0=`. Otherwise the first such piece's token |
| RequestParsing.CsrfTokenHasNoSemicolon | entrypoints/api-bridge.content.ts:222-230 | A token never contains `;` |
| RequestParsing.CsrfTokenAfterOtherCookie | entrypoints/api-bridge.content.ts:222-230 | In `a=1; ct0=v`, the token is `v` |
| Extractor.PostId | utils/extractor.ts:30 | The identifier is the part of the path after its last `/` (the whole path when there is none), and it contains no `/` |
| Extractor.PostIdOfPermalink | utils/extractor.ts:30 | The identifier of `prefix/id` is `id` |
| Extractor.PostIdOfNoPath | utils/extractor.ts:28-30 | A missing permalink gives the empty identifier |
| Extractor.PostUrl | utils/extractor.ts:29 | The URL is empty iff the path is empty, and otherwise it is `https://x.com` followed by the path |
| Extractor.Metric | utils/extractor.ts:66-69 | The count is the first run of a digit then digits and commas in the label, or "0" when there is no label or no digit |
| Extractor.MetricOfLikeLabel | utils/extractor.ts:66-69 | "1,234 Likes. Like" reads as "1,234" |
| Extractor.FindSizeParam | utils/extractor.ts:47 | The leftmost `name=` followed by a word character, or -1 |
| Extractor.LargeImage | utils/extractor.ts:47 | No contract of its own: the leftmost `name=\w+` becomes `name=large`. Stated by the three lemmas below |
| Extractor.LargeImageWithoutParam | utils/extractor.ts:47 | A source without a size parameter is kept as it is |
| Extractor.LargeImageAtLeftmost | utils/extractor.ts:47 | Only the leftmost size parameter is rewritten to `name=large` |
| Extractor.LargeImageOfMediaUrl | utils/extractor.ts:47 | A media URL with `name=<size>` and no earlier `name` gets `name=large` in place of the size and keeps the rest |
| Extractor.KeptTail | utils/extractor.ts:45-49 | One photo contributes one URL iff its source is truthy and contains `pbs.twimg.com` |
| Extractor.KeptImages | utils/extractor.ts:42-50 | There are at most as many images as photos, and none when no source qualifies |
| Extractor.KeptImagesSound | utils/extractor.ts:42-50 | Every image is the rewritten URL of a qualifying photo source |
| Extractor.KeptImagesComplete | utils/extractor.ts:42-50 | Every qualifying photo source's rewritten URL is among the images |
| Extractor.CollectImages | utils/extractor.ts:42-50 | The loop collects exactly `KeptImages` of the photo sources |
| Extractor.ChosenText | utils/extractor.ts:35-40 | The bridge's text replaces the visible text iff the identifier is non-empty and the bridge's text is non-empty |
| Extractor.ExtractTweetData | utils/extractor.ts:4-88 | The bridge is asked iff the identifier is non-empty. The post's identifier, URL, text, timestamp, images, video, metrics, author and quote are built by the rules above |
| Extractor.Step | utils/extractor.ts:98-117 | A settled call ignores all events. Only the matching reply from this window or the timer settles a pending call; settling removes the listener and clears the timer |
| Extractor.Run | utils/extractor.ts:98-117 | Over any run of events, a state whose listener and timer live exactly while the call is pending stays so |
| Extractor.FirstDecisive | utils/extractor.ts:98-117 | The first event that settles the call, or -1 |
| Extractor.SettledStays | utils/extractor.ts:104-106 | Once settled, the outcome never changes |
| Extractor.RunSettles | utils/extractor.ts:94-119 | After any event sequence, the outcome is decided by the first decisive event: the reply's text, or a timeout. Without one the call is still pending |
| Extractor.BridgeCall.constructor | utils/extractor.ts:95-111 | A new call is listening with the timer armed and no outcome |
| Extractor.BridgeCall.Request | utils/extractor.ts:111 | The posted request names the post and the call's callback id |
| Extractor.BridgeCall.OnMessage | utils/extractor.ts:98-108 | A delivered message moves the call's state by `Step` |
| Extractor.BridgeCall.OnTimer | utils/extractor.ts:114-117 | The timer firing moves the call's state by `Step` |
| Extractor.BridgeCall.Result | utils/extractor.ts:106 | A result is available iff the call has settled; it is the reply's text, or nothing after a timeout |
| Markdown.TwoDigits | utils/markdown.ts:73-76 | Below 100 the padded number is exactly two digits that read back as the number |
| Markdown.FormatDate | utils/markdown.ts:71-84 | No contract of its own: the first `YYYY`, `MM`, `DD`, `HH` and `mm` replaced in that order. Stated by the two lemmas below |
| Markdown.FormatDateDefault | utils/markdown.ts:71-84 | With `YYYY-MM-DD`, the stamp is the year, the two-digit month and the two-digit day, joined by dashes |
| Markdown.FormatDateWithoutTokens | utils/markdown.ts:78-83 | A format without Y, M, D, H or m is returned as it is |
| Markdown.HandleWithoutAt | utils/markdown.ts:92 | A leading `@` is removed, and a handle without `@` is kept |
| Markdown.FallbackTitle | utils/markdown.ts:104 | The fallback title `{handle}-{id}` is never empty |
| Markdown.StripMentions | utils/markdown.ts:108 | The result is a suffix of the text that no longer starts with a mention. A text without a leading mention is unchanged |
| Markdown.StripMentionsDropsMention | utils/markdown.ts:108 | A leading mention goes as a whole: the `@`, its maximal run of word characters and the maximal run of whitespace after it; what follows is stripped in turn |
| Markdown.RemoveUrls | utils/markdown.ts:109 | Removing links never lengthens the text; which text it removes is stated by the two lemmas below |
| Markdown.RemoveUrlsWithoutLinks | utils/markdown.ts:109 | A text without `http://` or `https://` is unchanged |
| Markdown.RemoveUrlsDropsLink | utils/markdown.ts:109 | A link runs up to the next whitespace and is removed entirely |
| Markdown.CollapseNewlines | utils/markdown.ts:110 | No newline remains, and the text does not grow |
| Markdown.CollapseNewlinesRun | utils/markdown.ts:110 | Text before the first newline is kept, the maximal run of newlines there becomes one space, and the rest is collapsed in turn |
| Markdown.CollapseWithoutNewlines | utils/markdown.ts:110 | A text without newlines is unchanged |
| Markdown.FirstSentence | utils/markdown.ts:116 | The shortest non-empty prefix followed by a sentence end and whitespace, or -1 |
| Markdown.SentencePrefix | utils/markdown.ts:116-119 | The first sentence is kept iff it has at least 10 characters; otherwise the text stays whole |
| Markdown.TruncateAtWord | utils/markdown.ts:122-124 | Texts of at most 50 characters stay. Longer ones are cut to 50 and then before their last whitespace, if any |
| Markdown.TrimEndChars | utils/markdown.ts:130 | Exactly the trailing run of punctuation is removed |
| Markdown.Polish | utils/markdown.ts:122-130 | The polished title is at most 50 characters, trimmed, and free of file-name-unsafe characters |
| Markdown.CleanTitle | utils/markdown.ts:103-132 | A title from the text is non-empty, at most 50 characters, trimmed and safe. Blank text gives none |
| Markdown.Title | utils/markdown.ts:102-135 | The title is never empty. It is the fallback when the text gives none, and otherwise short and safe |
| Markdown.PolishTitle | utils/markdown.ts:116-130 | The statement sequence computes `Polish` |
| Markdown.GenerateTitle | utils/markdown.ts:102-135 | The statement sequence computes `Title` |
| Markdown.DatePart | utils/markdown.ts:94 | The date part is the timestamp's prefix before its first `T` |
| Markdown.SafeName | utils/markdown.ts:95 | Every unsafe character of the name becomes `-` and every other character is kept |
| Markdown.GenerateFileName | utils/markdown.ts:86-96 | No contract of its own: the first of each placeholder replaced in order. Stated by the three lemmas below |
| Markdown.FileNameWithoutPlaceholders | utils/markdown.ts:86-96 | A template containing none of `{{title}}`, `{{handle}}`, `{{id}}`, `{{date}}`, `{{name}}` is the file name itself |
| Markdown.FileNameWithoutBraces | utils/markdown.ts:86-96 | A template without any `{` is the file name itself |
| Markdown.DefaultFileNameIsTitle | utils/markdown.ts:86-96 | With the default `{{title}}` template, the file name is the title whenever the title comes from the text |
| Markdown.FrontMatter | utils/markdown.ts:13-25 | The front matter is fenced, with five base entries and, iff metrics are enabled and present, likes, reposts and replies. It is 11 lines long with metrics and 8 without |
| Markdown.Header | utils/markdown.ts:28-31 | No contract of its own: the heading and the info line, each followed by a blank line, as `PushHeaderAndBody` appends them |
| Markdown.ImageLines | utils/markdown.ts:39-41 | One line per image, numbered from 1, in order |
| Markdown.ImageBlock | utils/markdown.ts:38-43 | The block is present iff images are enabled and there are images, and then it is the numbered lines followed by a blank line |
| Markdown.VideoBlock | utils/markdown.ts:46-53 | The block is present iff there is a video. Its thumbnail line is present iff the thumbnail URL is truthy, and it ends with the watch line and a blank line |
| Markdown.QuoteBlock | utils/markdown.ts:56-66 | The block is present iff there is a quote. It shows author and text, and the link line iff the quote's URL is non-empty |
| Markdown.PushFrontMatter | utils/markdown.ts:13-25 | The pushes append exactly the front matter |
| Markdown.PushHeaderAndBody | utils/markdown.ts:28-35 | The pushes append the heading, the info line and the post text, each followed by a blank line |
| Markdown.PushImages | utils/markdown.ts:38-43 | The loop appends exactly the image block |
| Markdown.PushVideo | utils/markdown.ts:46-53 | The pushes append exactly the video block |
| Markdown.PushQuote | utils/markdown.ts:56-66 | The pushes append exactly the quote block |
| Markdown.FormatTweetAsMarkdown | utils/markdown.ts:3-69 | The document is the newline join of front matter, header, body, images, video and quote, with the date formatted once |
| Markdown.DocumentLines | utils/markdown.ts:12-66 | No contract of its own: front matter, header, body, images, video and quote in that order. `FormatTweetAsMarkdown` joins them; `DocumentOpensWithFence` and `DocumentHoldsText` state properties of the result |
| Markdown.DocumentOpensWithFence | utils/markdown.ts:13 | Every document starts with a `---` line |
| Markdown.DocumentHoldsText | utils/markdown.ts:34-35 | The post text appears in the document as a line of its own |

## Left out

- Browser plumbing is not modelled:
  - the `MutationObserver`, the `readyState` check and the existing-script scan;
  - `fetch` itself, and the patched `fetch` returning X's response unchanged;
  - `postMessage`, `addEventListener` and `setTimeout`.

  Their effects are the `Bridge` and `BridgeCall` methods, and their inputs
  are method parameters:
  - fetched bundle text;
  - whether a candidate or URL parses;
  - the `features` query parameter;
  - the parsed response body, `None` when the response is not ok or its body
    does not parse;
  - the cookie.
- Asynchrony is not modelled. Each message handler is one atomic call,
  including the awaits inside `fetchTweetViaGraphQL`
  (entrypoints/api-bridge.content.ts:304 and :320): `PageBridge.Bridge.HandleMessage`
  fuses the cache lookup, the active fetch and the reply (:365-377). Passive
  writes that land during those awaits are not modelled: in the source they
  can change the reply's `cacheSize` and can cache the post before the active
  write at :348. Every other asynchronous continuation is one method call,
  and interleavings between them are not modelled.
- `Date.now`, `Math.random` and `new Date()` are inputs:
  - the callback id;
  - the current time string `now`;
  - the date components of `DateParts`.

  An unparsable timestamp (where JavaScript prints `NaN`) is not modelled.
- DOM queries (`querySelector`, `innerText`, `textContent`, `closest`) are
  inputs. `Extractor.ArticleView` holds their results, already trimmed.
- `extractQuoteTweet` is a DOM query and is not modelled. The quote is an
  input. Its identifier and URL follow the same rules as `PostId` and
  `PostUrl`.
- `JSON.parse` of a features candidate is the boolean input `candidateParses`.
- `new URL(...)` is the input `urlParses`.
- `JSON.stringify` and `encodeURIComponent` of the request variables, the
  bearer token and the request headers are not modelled. The request is the
  value `ApiRequest`.
- Regular-expression classes are ASCII only: `\s` and `trim()` are ASCII
  whitespace, and `\w` is ASCII letters, digits and `_`. Other Unicode
  whitespace is not modelled.
- String lengths count characters, not UTF-16 code units.
- In the `String.replace` calls, the replacement strings are inserted
  literally. `$` patterns in them are not expanded.
- EntityList: a `null` element of an entity list reads as an entity without a `url`, and is skipped. In the source, `u.url` or `m.url` on it throws (entrypoints/api-bridge.content.ts:204, 212). So does a `for…of` over a list that is an object, number or boolean, which the model reads as no entities. On the passive path the throw ends the whole traversal of that response (caught at :142-143). That post and every post after it in the traversal stay uncached, while `Harvest`, `HarvestComplete` and `Bridge.ExtractAndCacheTweets` cache them. On the active path the throw is caught at :350, so nothing is returned or cached, while `ActiveText`, `ReceiveResponse` and `FetchTweetViaGraphQL` return and cache the text. Modelling this would need a failure result carried through the traversal.
- JSON objects with a repeated key are not excluded by the `Json` type. `JSON.parse` never produces them, so the model is faithful only for objects with distinct keys.
- In the cached JSON, an entity field or `full_text` that is present but not
  a string is treated as absent, and so is an entity list that is not an
  array. JSON numbers are integers; only their truthiness matters here.
- `Extractor.LargeImage`: no closed-form contract. Its behaviour is stated by
  `LargeImageWithoutParam`, `LargeImageAtLeftmost` and `LargeImageOfMediaUrl`.
- `Markdown.RemoveUrls`: its own contract states only that the text does not
  grow. What it removes is stated by `RemoveUrlsWithoutLinks` and
  `RemoveUrlsDropsLink`.
- `Markdown.FormatDate`: proved closed-form only for the default
  `YYYY-MM-DD` format and for formats without tokens.
- The other files are context and are not part of this model:
  - `entrypoints/content.ts` (the button injection and the export flow);
  - `entrypoints/background.ts`;
  - `utils/obsidian.ts`;
  - `utils/storage.ts`;
  - `utils/selectors.ts`;
  - the options page.
- `hashScanPromise` is declared but never used, and has no model.
