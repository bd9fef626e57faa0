/**
 * The page-world bridge of entrypoints/api-bridge.content.ts as one object:
 * the tweet-text cache, the observed GraphQL operations, the scanned script
 * sources and the two write-once strings, with one method per event the
 * script reacts to. Network replies, fetched bundle text and parsed response
 * bodies arrive as method inputs; the requests the bridge would send are
 * returned as values.
 */
module PageBridge {
  import opened Wrappers
  import opened JsStrings
  import opened Json
  import OrderedMaps
  import opened TweetCache
  import opened TextResolver
  import opened TweetRecords
  import opened BundleScan
  import opened RequestParsing
  import opened OpLookup
  import opened Protocol

  /** The active `TweetResultByRestId` request: its query hash, the post asked for, the features and the CSRF header. */
  datatype ApiRequest = ApiRequest(hash: string, tweetId: string, features: string, csrfToken: string)

  /** `!v` for a string-or-null value. */
  predicate IsFalsy(v: Option<string>) {
    v.None? || v.value == ""
  }

  /** Script sources worth scanning: under `twimg.com` or `x.com`. */
  predicate IsBundleSource(src: string) {
    Contains(src, "twimg.com") || Contains(src, "x.com")
  }

  /**
   * The request `fetchTweetViaGraphQL(tweetId)` sends with `cookie`, given
   * the observed operations and the two scanned strings; `None` when it
   * returns before sending.
   */
  function ActiveRequest(ops: map<string, OpInfo>, preScannedHash: Option<string>, fallbackFeatures: Option<string>,
                         tweetId: string, cookie: string): (r: Option<ApiRequest>)
    ensures r.None? <==> IsFalsy(CsrfToken(cookie)) || IsFalsy(GraphQLHash(ops, preScannedHash))
    ensures r.Some? ==> r.value.hash != "" && r.value.csrfToken != "" && r.value.features != ""
    ensures r.Some? ==> r.value.tweetId == tweetId
  {
    var ct0 := CsrfToken(cookie);
    var hash := GraphQLHash(ops, preScannedHash);
    if IsFalsy(ct0) || IsFalsy(hash) then None
    else Some(ApiRequest(hash.value, tweetId, Features(ops, fallbackFeatures), ct0.value))
  }

  /** How many cached identifiers the debug reply lists. */
  const DebugIdCount: nat := 10

  /**
   * The steps of `fetchTweetViaGraphQL` after the request: pick the post out
   * of the body, pick its text and entities, resolve the text.
   */
  method ReadResponse(response: Option<Json>) returns (text: Option<string>)
    ensures text == ActiveText(response)
  {
    if response.None? {
      return None;
    }
    var tweet := SelectTweet(response);
    if tweet.None? {
      return None;
    }
    var raw := ActiveRaw(tweet.value);
    if raw.None? {
      return None;
    }
    var resolved := ResolveUrls(raw.value.text, raw.value.urls, raw.value.media);
    text := Some(resolved);
  }

  class Bridge {
    var cache: Cache
    var ops: OrderedMaps.OrderedMap<OpInfo>
    var scannedSrcs: set<string>
    var preScannedHash: Option<string>
    var fallbackFeatures: Option<string>

    ghost predicate Valid()
      reads this
    {
      OrderedMaps.Valid(cache) && OrderedMaps.Valid(ops)
    }

    /** The state of a freshly loaded page. */
    constructor()
      ensures Valid()
      ensures cache == OrderedMaps.Empty() && ops == OrderedMaps.Empty() && scannedSrcs == {}
      ensures preScannedHash == None && fallbackFeatures == None
    {
      cache := OrderedMaps.Empty();
      ops := OrderedMaps.Empty();
      scannedSrcs := {};
      preScannedHash := None;
      fallbackFeatures := None;
    }

    /**
     * `scanScriptElement`: a source is fetched only when it is non-empty,
     * not seen before and a bundle source; it is recorded before the fetch
     * starts, so it is never fetched twice.
     */
    method ScanScriptElement(src: string) returns (fetch: bool)
      requires Valid()
      modifies this`scannedSrcs
      ensures Valid()
      ensures fetch <==> src != "" && src !in old(scannedSrcs) && IsBundleSource(src)
      ensures scannedSrcs == if fetch then old(scannedSrcs) + {src} else old(scannedSrcs)
    {
      if src == "" || src in scannedSrcs {
        return false;
      }
      if !Contains(src, "twimg.com") && !Contains(src, "x.com") {
        return false;
      }
      scannedSrcs := scannedSrcs + {src};
      fetch := true;
    }

    /**
     * The continuation of that fetch, given the bundle's text and whether
     * `JSON.parse` accepts the feature candidate the text yields (never
     * the case for an empty candidate or a lone `}`): each
     * write-once string is set only
     * while it is still falsy, the hash from the query-identifier pattern
     * and the features from the candidate object when it parses.
     */
    method OnBundleText(text: string, candidateParses: bool)
      requires Valid()
      requires FeaturesCandidate(text).Some? && |FeaturesCandidate(text).value| < 2 ==> !candidateParses
      modifies this`preScannedHash, this`fallbackFeatures
      ensures Valid()
      ensures preScannedHash ==
        if IsFalsy(old(preScannedHash)) && ScanQueryId(text).Some? then ScanQueryId(text) else old(preScannedHash)
      ensures fallbackFeatures ==
        if IsFalsy(old(fallbackFeatures)) && FeaturesCandidate(text).Some? && candidateParses
        then FeaturesCandidate(text) else old(fallbackFeatures)
    {
      AdoptHash(text);
      AdoptFeatures(text, candidateParses);
    }

    /** The first half of the scan: `preScannedHash`, while falsy. */
    method AdoptHash(text: string)
      requires Valid()
      modifies this`preScannedHash
      ensures Valid()
      ensures preScannedHash ==
        if IsFalsy(old(preScannedHash)) && ScanQueryId(text).Some? then ScanQueryId(text) else old(preScannedHash)
    {
      if IsFalsy(preScannedHash) {
        var m := ScanQueryId(text);
        if m.Some? {
          preScannedHash := m;
        }
      }
    }

    /** The second half: `fallbackFeatures`, while falsy. */
    method AdoptFeatures(text: string, candidateParses: bool)
      requires Valid()
      requires FeaturesCandidate(text).Some? && |FeaturesCandidate(text).value| < 2 ==> !candidateParses
      modifies this`fallbackFeatures
      ensures Valid()
      ensures fallbackFeatures ==
        if IsFalsy(old(fallbackFeatures)) && FeaturesCandidate(text).Some? && candidateParses
        then FeaturesCandidate(text) else old(fallbackFeatures)
    {
      if IsFalsy(fallbackFeatures) {
        var candidate := FeaturesCandidate(text);
        if candidate.Some? && candidateParses {
          fallbackFeatures := candidate;
        }
      }
    }

    /**
     * The fetch wrapper's bookkeeping for a request URL: an `/i/api/` URL
     * whose path names a GraphQL operation overwrites that operation's entry
     * (when `new URL` accepts the URL), with its `features` parameter or `""`;
     * non-empty features also become the fallback while it is falsy. The
     * result says whether the response body is then read for posts.
     */
    method CaptureRequest(url: string, urlParses: bool, featuresParam: Option<string>) returns (readsBody: bool)
      requires Valid()
      modifies this`ops, this`fallbackFeatures
      ensures Valid()
      ensures readsBody <==> Contains(url, ApiMarker)
      ensures var p := GraphqlPath(url);
        var observed := readsBody && p.Some? && urlParses;
        var f := featuresParam.GetOr("");
        && ops == (if observed then OrderedMaps.Set(old(ops), p.value.opName, OpInfo(p.value.hash, f)) else old(ops))
        && fallbackFeatures == (if observed && f != "" && IsFalsy(old(fallbackFeatures)) then Some(f) else old(fallbackFeatures))
    {
      readsBody := Contains(url, ApiMarker);
      if readsBody {
        var gql := GraphqlPath(url);
        if gql.Some? && urlParses {
          var features := featuresParam.GetOr("");
          ops := OrderedMaps.Set(ops, gql.value.opName, OpInfo(gql.value.hash, features));
          if features != "" && IsFalsy(fallbackFeatures) {
            fallbackFeatures := Some(features);
          }
        }
      }
    }

    /** `cacheTweetFromResult`: resolve the post's text and insert it with eviction. */
    method CacheTweetFromResult(r: Json)
      requires Valid() && IsTweetNode(r)
      modifies this`cache
      ensures Valid()
      ensures cache == PassivePut(old(cache), PassiveWrite(r).id, PassiveWrite(r).text)
    {
      var id := TweetId(r);
      var raw := PassiveRaw(r);
      var text := ResolveUrls(raw.text, raw.urls, raw.media);
      if OrderedMaps.Size(cache) >= MaxCacheSize {
        var firstKey := cache.keys[0];
        if firstKey != "" {
          cache := OrderedMaps.Delete(cache, firstKey);
        }
      }
      cache := OrderedMaps.Set(cache, id, text);
    }

    /**
     * `extractAndCacheTweets(obj, depth)`: the cache afterwards is the cache
     * before with the traversal's writes inserted in order.
     */
    method ExtractAndCacheTweets(obj: Json, depth: nat)
      requires Valid()
      modifies this`cache
      ensures Valid()
      ensures cache == PutAll(old(cache), Harvest(obj, depth))
      decreases obj, 2
    {
      if depth > MaxDepth || !IsObject(obj) {
        HarvestOutOfBounds(obj, depth);
      } else {
        ExtractWithinBounds(obj, depth);
      }
    }

    /** An object within the depth bound: its own step, then its children. */
    method ExtractWithinBounds(obj: Json, depth: nat)
      requires Valid() && depth <= MaxDepth && IsObject(obj)
      modifies this`cache
      ensures Valid()
      ensures cache == PutAll(old(cache), Harvest(obj, depth))
      decreases obj, 1
    {
      VisitNode(obj);
      ExtractChildren(obj, Children(obj), depth + 1);
      HarvestInBounds(obj, depth);
      PutAllAppend(old(cache), OwnWrites(obj), HarvestAll(obj, Children(obj), depth + 1));
    }

    /** The node's own step of `extractAndCacheTweets`: cache it when it is a post. */
    method VisitNode(obj: Json)
      requires Valid()
      modifies this`cache
      ensures Valid()
      ensures cache == PutAll(old(cache), OwnWrites(obj))
    {
      if IsTweetNode(obj) {
        CacheTweetFromResult(obj);
        PutAllOne(old(cache), PassiveWrite(obj));
      }
    }

    /** The recursion of `extractAndCacheTweets` into the children `items` of `parent`, left to right. */
    method ExtractChildren(ghost parent: Json, items: seq<Json>, depth: nat)
      requires Valid() && forall k :: 0 <= k < |items| ==> items[k] < parent
      modifies this`cache
      ensures Valid()
      ensures cache == PutAll(old(cache), HarvestAll(parent, items, depth))
      decreases parent, 0
    {
      for i := 0 to |items|
        invariant Valid()
        invariant cache == PutAll(old(cache), HarvestAll(parent, items[..i], depth))
      {
        HarvestAllSnoc(parent, items, i, depth);
        PutAllAppend(old(cache), HarvestAll(parent, items[..i], depth), Harvest(items[i], depth));
        ExtractAndCacheTweets(items[i], depth);
      }
      assert items[..|items|] == items;
    }

    /**
     * The response handling of `fetchTweetViaGraphQL`, given the parsed body
     * (`None` when the response is not ok or not JSON): nothing is sent
     * without a CSRF token and a hash, and the cache is written, without
     * eviction, only when text is returned.
     */
    method FetchTweetViaGraphQL(tweetId: string, cookie: string, response: Option<Json>)
      returns (sent: Option<ApiRequest>, text: Option<string>)
      requires Valid()
      modifies this`cache
      ensures Valid()
      ensures sent == ActiveRequest(old(ops.entries), old(preScannedHash), old(fallbackFeatures), tweetId, cookie)
      ensures text == if sent.None? then None else ActiveText(response)
      ensures cache == if text.Some? then ActivePut(old(cache), tweetId, text.value) else old(cache)
    {
      sent := PrepareRequest(tweetId, cookie);
      text := None;
      if sent.Some? {
        text := ReceiveResponse(tweetId, response);
      }
    }

    /** After the request: read the body and store the text it yields, if any. */
    method ReceiveResponse(tweetId: string, response: Option<Json>) returns (text: Option<string>)
      requires Valid()
      modifies this`cache
      ensures Valid()
      ensures text == ActiveText(response)
      ensures cache == if text.Some? then ActivePut(old(cache), tweetId, text.value) else old(cache)
    {
      text := ReadResponse(response);
      if text.Some? {
        StoreActive(tweetId, text.value);
      }
    }

    /** The checks and lookups before the request is sent: the CSRF token, then the hash, then the features. */
    method PrepareRequest(tweetId: string, cookie: string) returns (sent: Option<ApiRequest>)
      requires Valid()
      ensures sent == ActiveRequest(ops.entries, preScannedHash, fallbackFeatures, tweetId, cookie)
    {
      var ct0 := CsrfToken(cookie);
      if IsFalsy(ct0) {
        return None;
      }
      var hash := GraphQLHash(ops.entries, preScannedHash);
      if IsFalsy(hash) {
        return None;
      }
      var features := Features(ops.entries, fallbackFeatures);
      sent := Some(ApiRequest(hash.value, tweetId, features, ct0.value));
    }

    /** The write of the active path: `set`, with no eviction. */
    method StoreActive(id: string, text: string)
      requires Valid()
      modifies this`cache
      ensures Valid()
      ensures cache == ActivePut(old(cache), id, text)
    {
      cache := ActivePut(cache, id, text);
    }

    /**
     * The `message` listener. A fetch request is answered with its own
     * `callbackId` and, when the cache holds non-empty text for the post,
     * with that text and no request; otherwise, for a non-empty identifier,
     * with the active fallback's result. A debug request is answered with
     * the state's summary, listing at most the first ten cached identifiers; anything
     * else, and anything from another window, goes unanswered.
     */
    method HandleMessage(m: WindowMessage, cookie: string, response: Option<Json>)
      returns (reply: Option<MessageData>, sent: Option<ApiRequest>)
      requires Valid()
      modifies this`cache
      ensures Valid()
      ensures !m.fromThisWindow || !(m.data.FetchTweet? || m.data.DebugRequest?) ==>
        reply == None && sent == None && cache == old(cache)
      ensures m.fromThisWindow && m.data.FetchTweet? ==>
        var cached := Lookup(old(cache), m.data.tweetId);
        var fallback := IsFalsy(cached) && m.data.tweetId != "";
        var text := if !fallback then cached else if sent.None? then None else ActiveText(response);
        && sent == (if fallback then ActiveRequest(old(ops.entries), old(preScannedHash), old(fallbackFeatures), m.data.tweetId, cookie) else None)
        && reply == Some(TweetResult(m.data.callbackId, text, OrderedMaps.Size(cache)))
        && cache == (if fallback && text.Some? then ActivePut(old(cache), m.data.tweetId, text.value) else old(cache))
      ensures m.fromThisWindow && m.data.DebugRequest? ==>
        && sent == None && cache == old(cache) && reply.Some? && reply.value.DebugResult?
        && reply.value.cacheSize == OrderedMaps.Size(cache)
        && reply.value.cachedIds <= cache.keys
        && |reply.value.cachedIds| == (if |cache.keys| < DebugIdCount then |cache.keys| else DebugIdCount)
        && reply.value.graphqlOps == ops.keys
        && reply.value.preScannedHash == preScannedHash
        && reply.value.scannedScriptCount == |scannedSrcs|
    {
      reply, sent := None, None;
      if !m.fromThisWindow {
        return;
      }
      match m.data
      case FetchTweet(tweetId, callbackId) =>
        var text := Lookup(cache, tweetId);
        if IsFalsy(text) && tweetId != "" {
          sent, text := FetchTweetViaGraphQL(tweetId, cookie, response);
        }
        reply := Some(TweetResult(callbackId, text, OrderedMaps.Size(cache)));
      case DebugRequest =>
        var n := if |cache.keys| < DebugIdCount then |cache.keys| else DebugIdCount;
        reply := Some(DebugResult(OrderedMaps.Size(cache), cache.keys[..n], ops.keys, preScannedHash, |scannedSrcs|));
      case _ =>
    }
  }
}
