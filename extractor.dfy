/**
 * The isolated-world side of utils/extractor.ts: the one-shot request to the
 * page-world bridge (`fetchFullTweetFromBridge`) as a small state machine
 * driven by window messages and the timer, and the string rules
 * `extractTweetData` applies to what it reads off the rendered post.
 */
module Extractor {
  import opened Wrappers
  import opened JsStrings
  import opened Protocol
  import opened TweetTypes

  // ---------------------------------------------------------------- identifier and permalink

  const SiteOrigin: string := "https://x.com"

  /** `tweetPath.split('/').pop() ?? ''`: the last `/`-separated segment of the permalink. */
  function PostId(tweetPath: string): (id: string)
    ensures '/' !in id
    ensures |id| <= |tweetPath| && id == tweetPath[|tweetPath| - |id|..]
    ensures |id| < |tweetPath| ==> tweetPath[|tweetPath| - |id| - 1] == '/'
  {
    LastSegment(tweetPath, '/')
  }

  /** No permalink, no identifier. */
  lemma PostIdOfNoPath()
    ensures PostId("") == ""
  {
  }

  /** A permalink `.../status/{id}` gives back the identifier, whatever precedes its last `/`. */
  lemma PostIdOfPermalink(prefix: string, id: string)
    requires '/' !in id
    ensures PostId(prefix + "/" + id) == id
  {
    var s := prefix + "/" + id;
    var r := PostId(s);
    assert s[|s| - |id| - 1] == '/';
    if |r| > |id| {
      assert false;
    } else if |r| < |id| {
      assert false;
    }
    assert r == s[|s| - |id|..] == id;
  }

  /** `tweetPath ? `https://x.com${tweetPath}` : ''`. */
  function PostUrl(tweetPath: string): (url: string)
    ensures url == "" <==> tweetPath == ""
    ensures url != "" ==> StartsWith(url, SiteOrigin) && url[|SiteOrigin|..] == tweetPath
  {
    if tweetPath == "" then "" else SiteOrigin + tweetPath
  }

  // ---------------------------------------------------------------- metrics

  /** `[\d,]`. */
  predicate IsDigitOrComma(c: char) {
    IsDigit(c) || c == ','
  }

  /** `r` is the leftmost match of the pattern `\d[\d,]*` in `s`: it starts at the first digit and runs as far as digits and commas go. */
  predicate FirstDigitRun(s: string, r: string) {
    exists i | 0 <= i <= |s| :: OccursAt(s, r, i)
      && (forall k :: 0 <= k < i ==> !IsDigit(s[k]))
      && (i + |r| == |s| || !IsDigitOrComma(s[i + |r|]))
  }

  predicate HasDigit(s: string) {
    exists k :: 0 <= k < |s| && IsDigit(s[k])
  }

  /**
   * `getMetric`: the first run of a digit followed by digits and commas in
   * the element's `aria-label`, else `'0'` (no element, no label, or no
   * digit in it).
   */
  function Metric(ariaLabel: Option<string>): (r: string)
    ensures r != [] && IsDigit(r[0]) && forall k :: 0 <= k < |r| ==> IsDigitOrComma(r[k])
    ensures ariaLabel.None? || !HasDigit(ariaLabel.value) ==> r == "0"
    ensures ariaLabel.Some? && HasDigit(ariaLabel.value) ==> FirstDigitRun(ariaLabel.value, r)
  {
    match ariaLabel
    case None => "0"
    case Some(s) =>
      var i := FindChar(s, 0, IsDigit);
      if i < 0 then "0"
      else
        var e := SpanEnd(s, i + 1, IsDigitOrComma);
        assert OccursAt(s, s[i..e], i);
        s[i..e]
  }

  /** The like button's label `1,234 Likes. Like` reads as `1,234`. */
  lemma MetricOfLikeLabel()
    ensures Metric(Some("1,234 Likes. Like")) == "1,234"
  {
    var s := "1,234 Likes. Like";
    assert FindChar(s, 0, IsDigit) == 0;
    SpanEndIs(s, 1, 5, IsDigitOrComma);
    assert s[0..5] == "1,234";
  }

  // ---------------------------------------------------------------- images

  const ImageHost: string := "pbs.twimg.com"
  const SizeKey: string := "name="
  const LargeSize: string := "name=large"

  /** `/name=\w+/` matches at `i`. */
  predicate SizeParamAt(s: string, i: nat) {
    OccursAt(s, SizeKey, i) && i + |SizeKey| < |s| && IsWordChar(s[i + |SizeKey|])
  }

  function FindSizeParam(s: string, i: nat): (r: int)
    ensures r == -1 || (i <= r && SizeParamAt(s, r))
    ensures forall q :: i <= q && (r == -1 || q < r) ==> !SizeParamAt(s, q)
    decreases |s| - i
  {
    if i >= |s| then -1 else if SizeParamAt(s, i) then i else FindSizeParam(s, i + 1)
  }

  /** The leftmost match of `/name=\w+/` starts at `p`. */
  predicate LeftmostSizeParam(s: string, p: nat) {
    SizeParamAt(s, p) && forall q :: 0 <= q < p ==> !SizeParamAt(s, q)
  }

  /** The match at `p` replaced by `name=large`. */
  function EnlargeAt(s: string, p: nat): string
    requires SizeParamAt(s, p)
  {
    s[..p] + LargeSize + s[SpanEnd(s, p + |SizeKey|, IsWordChar)..]
  }

  /**
   * `src.replace(/name=\w+/, 'name=large')`: the leftmost `name=` followed
   * by a run of word characters becomes `name=large`; without one the
   * source is kept.
   */
  function LargeImage(src: string): string {
    var p := FindSizeParam(src, 0);
    if p < 0 then src else EnlargeAt(src, p)
  }

  /** Without a size parameter the source is kept. */
  lemma LargeImageWithoutParam(src: string)
    requires forall q: nat :: !SizeParamAt(src, q)
    ensures LargeImage(src) == src
  {
  }

  /** The leftmost size parameter is the one replaced. */
  lemma LargeImageAtLeftmost(src: string, p: nat)
    requires LeftmostSizeParam(src, p)
    ensures LargeImage(src) == EnlargeAt(src, p)
  {
    var r := FindSizeParam(src, 0);
    assert r != -1 && r <= p && r >= p;
  }

  /** No `name=` starts inside a prefix that does not spell `name`, when `name` follows it. */
  lemma NoSizeKeyInPrefix(prefix: string, tail: string)
    requires !Contains(prefix, "name")
    requires |tail| >= 4 && tail[..4] == "name"
    ensures forall q :: 0 <= q < |prefix| ==> !OccursAt(prefix + tail, SizeKey, q)
  {
    var s := prefix + tail;
    var p := |prefix|;
    forall q | 0 <= q < p ensures !OccursAt(s, SizeKey, q) {
      if q + 4 <= p {
        assert !OccursAt(prefix, "name", q);
        assert s[q..q + 4] == prefix[q..q + 4];
        assert s[q..q + 5][..4] == s[q..q + 4];
      } else {
        assert s[q + 4] == tail[..4][q + 4 - p];
      }
    }
  }

  /** A run of word characters followed by a non-word character (or the end) is the whole `\w+`. */
  lemma WordRunEnds(s: string, w: nat, size: string, rest: string)
    requires w <= |s| && s[w..] == size + rest
    requires forall k :: 0 <= k < |size| ==> IsWordChar(size[k])
    requires rest == [] || !IsWordChar(rest[0])
    ensures SpanEnd(s, w, IsWordChar) == w + |size|
  {
    forall k | w <= k < w + |size| ensures IsWordChar(s[k]) {
      assert s[k] == s[w..][k - w];
    }
    if rest != [] {
      assert s[w + |size|] == s[w..][|size|];
    }
    SpanEndIs(s, w, w + |size|, IsWordChar);
  }

  /**
   * A media URL whose query ends in `name=<size>` is asked for at the large
   * size, when nothing before the parameter spells `name`.
   */
  lemma LargeImageOfMediaUrl(prefix: string, size: string, rest: string)
    requires !Contains(prefix, "name")
    requires size != [] && forall k :: 0 <= k < |size| ==> IsWordChar(size[k])
    requires rest == [] || !IsWordChar(rest[0])
    ensures LargeImage(prefix + SizeKey + size + rest) == prefix + LargeSize + rest
  {
    var tail := SizeKey + size + rest;
    var s := prefix + tail;
    assert s == prefix + SizeKey + size + rest;
    var p := |prefix|;
    var w := p + |SizeKey|;
    assert LeftmostSizeParam(s, p) by {
      assert tail[..4] == "name";
      NoSizeKeyInPrefix(prefix, tail);
      assert s[p..] == tail;
      assert s[p..w] == tail[..5] == SizeKey;
      assert s[w] == tail[5] == size[0];
    }
    assert SpanEnd(s, w, IsWordChar) == w + |size| by {
      assert s[w..] == size + rest;
      WordRunEnds(s, w, size, rest);
    }
    assert EnlargeAt(s, p) == prefix + LargeSize + rest by {
      assert s[..p] == prefix;
      assert s[w + |size|..] == rest;
    }
    LargeImageAtLeftmost(s, p);
  }

  /** `img?.src && img.src.includes('pbs.twimg.com')`. */
  predicate Kept(src: Option<string>) {
    src.Some? && src.value != "" && Contains(src.value, ImageHost)
  }

  /** What one photo element adds: its large image when its source is kept. */
  function KeptTail(src: Option<string>): (r: seq<string>)
    ensures |r| <= 1 && (r != [] <==> Kept(src))
  {
    if Kept(src) then [LargeImage(src.value)] else []
  }

  /**
   * The `images` of `extractTweetData`, in photo order: the kept sources,
   * each at the large size.
   */
  function KeptImages(srcs: seq<Option<string>>): (r: seq<string>)
    ensures |r| <= |srcs|
    ensures (forall j :: 0 <= j < |srcs| ==> !Kept(srcs[j])) ==> r == []
  {
    if srcs == [] then []
    else KeptImages(srcs[..|srcs| - 1]) + KeptTail(srcs[|srcs| - 1])
  }

  /** Every image comes from a kept source. */
  lemma {:induction false} KeptImagesSound(srcs: seq<Option<string>>, k: nat)
    requires k < |KeptImages(srcs)|
    ensures exists j :: 0 <= j < |srcs| && Kept(srcs[j]) && KeptImages(srcs)[k] == LargeImage(srcs[j].value)
    decreases |srcs|
  {
    var init := srcs[..|srcs| - 1];
    var last := |srcs| - 1;
    if k < |KeptImages(init)| {
      KeptImagesSound(init, k);
      var j :| 0 <= j < |init| && Kept(init[j]) && KeptImages(init)[k] == LargeImage(init[j].value);
      assert init[j] == srcs[j];
      assert KeptImages(srcs)[k] == KeptImages(init)[k];
    } else {
      assert KeptImages(srcs)[k] == KeptTail(srcs[last])[0];
    }
  }

  /** Every kept source gives an image. */
  lemma {:induction false} KeptImagesComplete(srcs: seq<Option<string>>, j: nat)
    requires j < |srcs| && Kept(srcs[j])
    ensures LargeImage(srcs[j].value) in KeptImages(srcs)
    decreases |srcs|
  {
    var init := srcs[..|srcs| - 1];
    var last := |srcs| - 1;
    var x := LargeImage(srcs[j].value);
    if j < last {
      assert init[j] == srcs[j];
      KeptImagesComplete(init, j);
      var i :| 0 <= i < |KeptImages(init)| && KeptImages(init)[i] == x;
      assert KeptImages(srcs)[i] == x;
    } else {
      assert KeptImages(srcs)[|KeptImages(init)|] == x;
    }
  }

  /** The `forEach` over the photo elements, pushing each kept image. */
  method CollectImages(srcs: seq<Option<string>>) returns (images: seq<string>)
    ensures images == KeptImages(srcs)
  {
    images := [];
    for i := 0 to |srcs|
      invariant images == KeptImages(srcs[..i])
    {
      assert srcs[..i + 1][..i] == srcs[..i];
      if Kept(srcs[i]) {
        images := images + [LargeImage(srcs[i].value)];
      }
    }
    assert srcs[..|srcs|] == srcs;
  }

  // ---------------------------------------------------------------- the post

  /**
   * The text `extractTweetData` keeps: the bridge's text replaces the
   * rendered text only when the post has an identifier and the bridge
   * answered with a non-empty string.
   */
  function ChosenText(domText: string, id: string, fullText: Option<string>): (text: string)
    ensures text != domText ==> id != "" && fullText == Some(text) && text != ""
    ensures id != "" && fullText.Some? && fullText.value != "" ==> text == fullText.value
    ensures id == "" || fullText.None? || fullText.value == "" ==> text == domText
  {
    if id != "" && fullText.Some? && fullText.value != "" then fullText.value else domText
  }

  /**
   * What `extractTweetData` reads off a rendered post: author name and
   * handle (already defaulted), avatar, the trimmed rendered text, the
   * `datetime` attribute, the permalink's `href`, each photo's `img` source,
   * the video player (present or not, with its thumbnail), the quoted post,
   * and the three buttons' `aria-label`s.
   */
  datatype ArticleView = ArticleView(
    name: string, handle: string, avatarUrl: Option<string>,
    domText: string, datetime: Option<string>, permalink: Option<string>,
    photoSrcs: seq<Option<string>>, videoPlayer: Option<Option<string>>,
    quote: Option<TweetData>,
    replyLabel: Option<string>, retweetLabel: Option<string>, likeLabel: Option<string>)

  /**
   * `extractTweetData`, the bridge's answer and the current time given: it
   * asks the bridge exactly when the identifier is non-empty, and builds the
   * post from the string rules above.
   */
  method ExtractTweetData(view: ArticleView, now: string, bridgeText: Option<string>)
    returns (asked: bool, tweet: TweetData)
    ensures asked <==> tweet.id != ""
    ensures var path := view.permalink.GetOr("");
      tweet.id == PostId(path) && tweet.url == PostUrl(path)
    ensures tweet.text == ChosenText(view.domText, tweet.id, if asked then bridgeText else None)
    ensures tweet.timestamp == view.datetime.GetOr(now)
    ensures tweet.images == KeptImages(view.photoSrcs)
    ensures tweet.video == if view.videoPlayer.None? then None else Some(Video(view.videoPlayer.value, tweet.url))
    ensures tweet.metrics == Some(Metrics(Metric(view.replyLabel), Metric(view.retweetLabel), Metric(view.likeLabel)))
    ensures tweet.author == Author(view.name, view.handle, view.avatarUrl) && tweet.quoteTweet == view.quote
  {
    var text := view.domText;
    var timestamp := view.datetime.GetOr(now);
    var tweetPath := view.permalink.GetOr("");
    var url := PostUrl(tweetPath);
    var id := PostId(tweetPath);
    asked := id != "";
    if asked {
      if bridgeText.Some? && bridgeText.value != "" {
        text := bridgeText.value;
      }
    }
    var images := CollectImages(view.photoSrcs);
    var video: Option<Video> := None;
    if view.videoPlayer.Some? {
      video := Some(Video(view.videoPlayer.value, url));
    }
    var metrics := Metrics(Metric(view.replyLabel), Metric(view.retweetLabel), Metric(view.likeLabel));
    tweet := TweetData(id, Author(view.name, view.handle, view.avatarUrl), text, timestamp, images,
                       video, view.quote, Some(metrics), url);
  }

  // ---------------------------------------------------------------- the bridge call

  /** How a call was settled: still waiting, answered by a reply, or given up by the timer. */
  datatype Outcome = Pending | Replied(text: Option<string>) | TimedOut

  /** Whether the `message` listener is registered, whether the timer is armed, and the outcome. */
  datatype CallState = CallState(listening: bool, timerArmed: bool, outcome: Outcome)

  /** An event the call can see: a window message reaching its listener, or its timer firing. */
  datatype CallEvent = Delivered(m: WindowMessage) | TimerFired

  /** The filter of the listener: from this window, a tweet result, and the call's own `callbackId`. */
  predicate IsReply(m: WindowMessage, callbackId: string) {
    m.fromThisWindow && m.data.TweetResult? && m.data.callbackId == callbackId
  }

  /** An event that settles a pending call. */
  predicate Decisive(e: CallEvent, callbackId: string) {
    e.TimerFired? || IsReply(e.m, callbackId)
  }

  /** Listener and timer live exactly as long as the call is pending. */
  predicate Consistent(s: CallState) {
    (s.listening <==> s.outcome.Pending?) && (s.timerArmed <==> s.outcome.Pending?)
  }

  /** Right after the request is posted: listening, timer armed, nothing resolved. */
  const Started: CallState := CallState(true, true, Pending)

  /** The value the promise resolves with. */
  function Resolved(o: Outcome): Option<string>
    requires !o.Pending?
  {
    match o
    case Replied(t) => t
    case TimedOut => None
  }

  /**
   * One event. A message reaches the handler only while it is registered,
   * and the handler acts only on a reply: it removes itself, clears the
   * timer and resolves with the reply's text. The timer fires only while
   * armed: it removes the listener and resolves with null. A promise keeps
   * its first resolution.
   */
  function Step(s: CallState, callbackId: string, e: CallEvent): (r: CallState)
    ensures Consistent(s) ==> Consistent(r)
    ensures Consistent(s) && !s.outcome.Pending? ==> r == s
    ensures !Decisive(e, callbackId) ==> r == s
    ensures s == Started && Decisive(e, callbackId) ==>
      !r.listening && !r.timerArmed && r.outcome == if e.TimerFired? then TimedOut else Replied(e.m.data.text)
  {
    match e
    case Delivered(m) =>
      if s.listening && IsReply(m, callbackId) then
        CallState(false, false, if s.outcome.Pending? then Replied(m.data.text) else s.outcome)
      else s
    case TimerFired =>
      if s.timerArmed then CallState(false, false, if s.outcome.Pending? then TimedOut else s.outcome)
      else s
  }

  /** The events `evs`, one at a time, in order; listener and timer stay tied to the outcome throughout. */
  function Run(s: CallState, callbackId: string, evs: seq<CallEvent>): (r: CallState)
    ensures Consistent(s) ==> Consistent(r)
    decreases |evs|
  {
    if evs == [] then s else Run(Step(s, callbackId, evs[0]), callbackId, evs[1..])
  }

  /** The index of the first settling event, or -1. */
  function FirstDecisive(evs: seq<CallEvent>, callbackId: string): (k: int)
    ensures k == -1 || (0 <= k < |evs| && Decisive(evs[k], callbackId))
    ensures forall j :: 0 <= j < |evs| && (k == -1 || j < k) ==> !Decisive(evs[j], callbackId)
    decreases |evs|
  {
    if evs == [] then -1
    else if Decisive(evs[0], callbackId) then 0
    else
      var k := FirstDecisive(evs[1..], callbackId);
      assert forall j :: 1 <= j < |evs| ==> evs[j] == evs[1..][j - 1];
      if k < 0 then -1 else k + 1
  }

  /** Once settled, a call ignores every later event: a late reply after the timeout changes nothing. */
  lemma {:induction false} SettledStays(s: CallState, callbackId: string, evs: seq<CallEvent>)
    requires Consistent(s) && !s.outcome.Pending?
    ensures Run(s, callbackId, evs) == s
    decreases |evs|
  {
    if evs != [] {
      SettledStays(Step(s, callbackId, evs[0]), callbackId, evs[1..]);
    }
  }

  /**
   * Exactly one path settles a call: the first event that is either a
   * matching reply or the timer decides. A reply resolves with its text, the
   * timer with null; either way the listener is removed and the timer is no
   * longer armed. Without such an event the call is still pending and
   * listening.
   */
  lemma {:induction false} RunSettles(callbackId: string, evs: seq<CallEvent>)
    ensures var k := FirstDecisive(evs, callbackId);
      var r := Run(Started, callbackId, evs);
      Consistent(r)
      && (k == -1 ==> r == Started)
      && (k >= 0 ==> r.outcome == if evs[k].TimerFired? then TimedOut else Replied(evs[k].m.data.text))
    decreases |evs|
  {
    if evs != [] {
      var s := Step(Started, callbackId, evs[0]);
      if Decisive(evs[0], callbackId) {
        SettledStays(s, callbackId, evs[1..]);
      } else {
        RunSettles(callbackId, evs[1..]);
      }
    }
  }

  /** The requester's half of `fetchFullTweetFromBridge`, one object per call. */
  class BridgeCall {
    const tweetId: string
    /** A fresh token per call (`xto_<time>_<random>` in the page); here an input. */
    const callbackId: string
    var listening: bool
    var timerArmed: bool
    var outcome: Outcome

    function State(): CallState
      reads this
    {
      CallState(listening, timerArmed, outcome)
    }

    /** Register the listener, post the request, arm the 8-second timer. */
    constructor(tweetId: string, callbackId: string)
      ensures this.tweetId == tweetId && this.callbackId == callbackId
      ensures State() == Started
    {
      this.tweetId := tweetId;
      this.callbackId := callbackId;
      listening, timerArmed, outcome := true, true, Pending;
    }

    /** The message the constructor posts. */
    function Request(): (m: MessageData)
      ensures m.FetchTweet? && m.tweetId == tweetId && m.callbackId == callbackId
    {
      FetchTweet(tweetId, callbackId)
    }

    /** A window `message` event. */
    method OnMessage(m: WindowMessage)
      modifies this
      ensures State() == Step(old(State()), callbackId, Delivered(m))
    {
      if listening && IsReply(m, callbackId) {
        listening := false;
        timerArmed := false;
        if outcome.Pending? {
          outcome := Replied(m.data.text);
        }
      }
    }

    /** The timer callback. */
    method OnTimer()
      modifies this
      ensures State() == Step(old(State()), callbackId, TimerFired)
    {
      if timerArmed {
        timerArmed := false;
        listening := false;
        if outcome.Pending? {
          outcome := TimedOut;
        }
      }
    }

    /** The promise: `None` while pending, else the value it resolved with. */
    method Result() returns (r: Option<Option<string>>)
      ensures r.None? <==> outcome.Pending?
      ensures r.Some? ==> r.value == Resolved(outcome)
    {
      if outcome.Pending? {
        r := None;
      } else {
        r := Some(Resolved(outcome));
      }
    }
  }
}
