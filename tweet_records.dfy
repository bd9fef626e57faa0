/**
 * Reading posts out of parsed API responses in
 * entrypoints/api-bridge.content.ts: which nodes of a response tree are
 * posts, which text and entities a post contributes on the passive path
 * (`cacheTweetFromResult`) and on the active path (`fetchTweetViaGraphQL`),
 * and the depth-bounded traversal of `extractAndCacheTweets`.
 */
module TweetRecords {
  import opened Wrappers
  import opened Json
  import opened TextResolver
  import opened TweetCache

  /** Nodes deeper than this are not visited. */
  const MaxDepth: nat := 40

  /** A post's text before `resolveUrls`, with the entities it is resolved against. */
  datatype RawText = RawText(text: string, urls: seq<Entity>, media: seq<Entity>)

  /** One URL or media entity object; a field that is not a string counts as absent. */
  function EntityOf(j: Json): Entity {
    Entity(AsString(Prop(j, "url")), AsString(Prop(j, "expanded_url")), AsString(Prop(j, "display_url")))
  }

  /** An entity array; anything else holds no entities. */
  function EntityList(v: Option<Json>): (r: seq<Entity>)
    ensures v.Some? && v.value.JArr? ==> |r| == |v.value.items| && forall i :: 0 <= i < |r| ==> r[i] == EntityOf(v.value.items[i])
    ensures !(v.Some? && v.value.JArr?) ==> r == []
  {
    match v
    case Some(JArr(items)) => seq(|items|, i requires 0 <= i < |items| => EntityOf(items[i]))
    case _ => []
  }

  /** `x ?? []`. */
  function OrEmpty(v: Option<Json>): Option<Json> {
    Coalesce(v, Some(JArr([])))
  }

  /** The guard of `extractAndCacheTweets`: `legacy` is an object whose `id_str` and `full_text` are strings. */
  predicate IsTweetNode(r: Json) {
    var legacy := Prop(r, "legacy");
    Truthy(legacy) && IsObject(legacy.value)
    && AsString(Get(legacy, "id_str")).Some?
    && AsString(Get(legacy, "full_text")).Some?
  }

  /** `r.note_tweet?.note_tweet_results?.result` when that is truthy and its `text` is a string. */
  function NoteText(r: Json): Option<string> {
    var note := GetPath(Some(r), ["note_tweet", "note_tweet_results", "result"]);
    if Truthy(note) then AsString(Get(note, "text")) else None
  }

  function NoteUrls(r: Json): Option<Json> {
    GetPath(Some(r), ["note_tweet", "note_tweet_results", "result", "entity_set", "urls"])
  }

  function LegacyUrls(r: Json): Option<Json> {
    GetPath(Some(r), ["legacy", "entities", "urls"])
  }

  function LegacyMedia(r: Json): seq<Entity> {
    EntityList(OrEmpty(GetPath(Some(r), ["legacy", "entities", "media"])))
  }

  function TweetId(r: Json): string
    requires IsTweetNode(r)
  {
    AsString(GetPath(Some(r), ["legacy", "id_str"])).value
  }

  /**
   * `cacheTweetFromResult` before resolution: the note text when it is a
   * string, else `legacy.full_text`; the note's URL entities falling back to
   * the legacy ones; the legacy media always.
   */
  function PassiveRaw(r: Json): (raw: RawText)
    requires IsTweetNode(r)
    ensures NoteText(r).Some? ==> raw.text == NoteText(r).value
    ensures NoteText(r).None? ==> raw.text == AsString(GetPath(Some(r), ["legacy", "full_text"])).value
    ensures raw.urls == EntityList(if NoteText(r).Some? then Coalesce(NoteUrls(r), OrEmpty(LegacyUrls(r))) else OrEmpty(LegacyUrls(r)))
    ensures raw.media == LegacyMedia(r)
  {
    var legacyUrls := OrEmpty(LegacyUrls(r));
    match NoteText(r)
    case Some(t) => RawText(t, EntityList(Coalesce(NoteUrls(r), legacyUrls)), LegacyMedia(r))
    case None => RawText(AsString(GetPath(Some(r), ["legacy", "full_text"])).value, EntityList(legacyUrls), LegacyMedia(r))
  }

  /** The cache write `cacheTweetFromResult` makes for a post node. */
  function PassiveWrite(r: Json): Write
    requires IsTweetNode(r)
  {
    var raw := PassiveRaw(r);
    Write(TweetId(r), ResolvedText(raw.text, raw.urls, raw.media))
  }

  /** The write a node makes itself: one for a post node, none otherwise. */
  function OwnWrites(j: Json): (r: seq<Write>)
    ensures |r| <= 1
  {
    if IsTweetNode(j) then [PassiveWrite(j)] else []
  }

  /** The writes `extractAndCacheTweets(j, depth)` makes, in order: the node itself first, then its children left to right. */
  function Harvest(j: Json, depth: nat): seq<Write>
    decreases j, 1
  {
    if depth > MaxDepth || !IsObject(j) then []
    else OwnWrites(j) + HarvestAll(j, Children(j), depth + 1)
  }

  /** Within the bound, an object or array writes its own post first and then its children's. */
  lemma HarvestInBounds(j: Json, depth: nat)
    requires depth <= MaxDepth && IsObject(j)
    ensures Harvest(j, depth) == OwnWrites(j) + HarvestAll(j, Children(j), depth + 1)
  {
  }

  /** The writes of the traversal of the children `items` of `parent`, in order. */
  function HarvestAll(ghost parent: Json, items: seq<Json>, depth: nat): seq<Write>
    requires forall k :: 0 <= k < |items| ==> items[k] < parent
    decreases parent, 0, |items|
  {
    if items == [] then []
    else HarvestAll(parent, items[..|items| - 1], depth) + Harvest(items[|items| - 1], depth)
  }

  lemma HarvestAllSnoc(parent: Json, items: seq<Json>, i: nat, depth: nat)
    requires i < |items| && forall k :: 0 <= k < |items| ==> items[k] < parent
    ensures HarvestAll(parent, items[..i + 1], depth) == HarvestAll(parent, items[..i], depth) + Harvest(items[i], depth)
  {
    assert items[..i + 1][..i] == items[..i];
  }

  /**
   * `n` is reached from `j` by descending into array elements and object
   * values, `j` being at depth `d` and `n` at depth `k`.
   */
  ghost predicate Within(j: Json, n: Json, d: nat, k: nat)
    decreases j
  {
    (n == j && k == d)
    || exists i :: 0 <= i < |Children(j)| && Within(Children(j)[i], n, d + 1, k)
  }

  lemma {:induction false} WithinDeeper(j: Json, n: Json, d: nat, k: nat)
    requires Within(j, n, d, k)
    ensures d <= k
    decreases j
  {
    if !(n == j && k == d) {
      var i :| 0 <= i < |Children(j)| && Within(Children(j)[i], n, d + 1, k);
      WithinDeeper(Children(j)[i], n, d + 1, k);
    }
  }

  /** Nothing is written below the depth bound or for a node that is not an object or array. */
  lemma HarvestOutOfBounds(j: Json, depth: nat)
    requires depth > MaxDepth || !IsObject(j)
    ensures Harvest(j, depth) == []
  {
  }

  /** Every write comes from a post node reached from `j` at depth at most 40. */
  lemma {:induction false} HarvestSound(j: Json, d: nat, w: Write)
    requires w in Harvest(j, d)
    ensures exists n, k: nat :: Within(j, n, d, k) && k <= MaxDepth && IsTweetNode(n) && w == PassiveWrite(n)
    decreases j, 1
  {
    if w in OwnWrites(j) {
      assert Within(j, j, d, d);
    } else {
      HarvestAllSound(j, Children(j), d + 1, w);
      var i, n, k: nat :| 0 <= i < |Children(j)| && Within(Children(j)[i], n, d + 1, k) && k <= MaxDepth
        && IsTweetNode(n) && w == PassiveWrite(n);
      assert Within(j, n, d, k);
    }
  }

  lemma {:induction false} HarvestAllSound(parent: Json, items: seq<Json>, d: nat, w: Write)
    requires forall k :: 0 <= k < |items| ==> items[k] < parent
    requires w in HarvestAll(parent, items, d)
    ensures exists i, n, k: nat ::
      (0 <= i < |items| && Within(items[i], n, d, k) && k <= MaxDepth && IsTweetNode(n) && w == PassiveWrite(n))
    decreases parent, 0, |items|
  {
    var last := |items| - 1;
    if w in HarvestAll(parent, items[..last], d) {
      HarvestAllSound(parent, items[..last], d, w);
      var i, n, k: nat :| 0 <= i < |items[..last]| && Within(items[..last][i], n, d, k) && k <= MaxDepth
        && IsTweetNode(n) && w == PassiveWrite(n);
      assert items[..last][i] == items[i];
    } else {
      HarvestSound(items[last], d, w);
    }
  }

  /** Every post node reached from `j` at depth at most 40 is written. */
  lemma {:induction false} HarvestComplete(j: Json, d: nat, n: Json, k: nat)
    requires Within(j, n, d, k) && k <= MaxDepth && IsTweetNode(n)
    ensures PassiveWrite(n) in Harvest(j, d)
    decreases j, 1
  {
    WithinDeeper(j, n, d, k);
    if n == j && k == d {
      assert IsObject(j);
    } else {
      var i :| 0 <= i < |Children(j)| && Within(Children(j)[i], n, d + 1, k);
      HarvestAllComplete(j, Children(j), d + 1, i, n, k);
    }
  }

  lemma {:induction false} HarvestAllComplete(parent: Json, items: seq<Json>, d: nat, i: nat, n: Json, k: nat)
    requires forall k :: 0 <= k < |items| ==> items[k] < parent
    requires i < |items| && Within(items[i], n, d, k) && k <= MaxDepth && IsTweetNode(n)
    ensures PassiveWrite(n) in HarvestAll(parent, items, d)
    decreases parent, 0, |items|
  {
    var last := |items| - 1;
    if i == last {
      HarvestComplete(items[i], d, n, k);
    } else {
      assert items[..last][i] == items[i];
      HarvestAllComplete(parent, items[..last], d, i, n, k);
    }
  }

  /** `data?.data?.tweetResult?.result ?? data?.data?.tweet_result?.result`, unwrapped from `tweet` when present; `None` when falsy. */
  function SelectTweet(data: Option<Json>): (r: Option<Json>)
    ensures var result := Coalesce(GetPath(data, ["data", "tweetResult", "result"]), GetPath(data, ["data", "tweet_result", "result"]));
      (r.None? <==> !Truthy(result))
      && (r.Some? && !Nullish(Get(result, "tweet")) ==> r == Get(result, "tweet"))
      && (r.Some? && Nullish(Get(result, "tweet")) ==> r == result)
  {
    var result := Coalesce(GetPath(data, ["data", "tweetResult", "result"]), GetPath(data, ["data", "tweet_result", "result"]));
    if !Truthy(result) then None else Coalesce(Get(result, "tweet"), result)
  }

  /**
   * The text step of `fetchTweetViaGraphQL`: the note text when it is a
   * string, with the note's URL entities or none; else a truthy string
   * `legacy.full_text` with the legacy URL entities; `None` when the chosen
   * text is empty or there is none. Media come from `legacy` either way.
   */
  function ActiveRaw(tweet: Json): (r: Option<RawText>)
    ensures r.Some? ==> r.value.text != "" && r.value.media == LegacyMedia(tweet)
    ensures NoteText(tweet).Some? ==>
      r == if NoteText(tweet).value == "" then None
           else Some(RawText(NoteText(tweet).value, EntityList(OrEmpty(NoteUrls(tweet))), LegacyMedia(tweet)))
    ensures NoteText(tweet).None? ==>
      (r.Some? <==> AsString(GetPath(Some(tweet), ["legacy", "full_text"])).Some?
                    && AsString(GetPath(Some(tweet), ["legacy", "full_text"])).value != "")
  {
    match NoteText(tweet)
    case Some(t) =>
      if t == "" then None else Some(RawText(t, EntityList(OrEmpty(NoteUrls(tweet))), LegacyMedia(tweet)))
    case None =>
      var full := GetPath(Some(tweet), ["legacy", "full_text"]);
      if Truthy(full) && AsString(full).Some? then
        Some(RawText(AsString(full).value, EntityList(OrEmpty(LegacyUrls(tweet))), LegacyMedia(tweet)))
      else None
  }

  /**
   * What `fetchTweetViaGraphQL` returns for a response body, once its
   * request was sent: `None` for a failed response, a falsy result, or no
   * usable text; otherwise the resolved text.
   */
  function ActiveText(response: Option<Json>): (r: Option<string>)
    ensures response.None? ==> r.None?
    ensures r.None? <==> SelectTweet(response).None? || ActiveRaw(SelectTweet(response).value).None?
  {
    match SelectTweet(response)
    case None => None
    case Some(tweet) =>
      match ActiveRaw(tweet)
      case None => None
      case Some(raw) => Some(ResolvedText(raw.text, raw.urls, raw.media))
  }

  /**
   * The two paths agree on a post node with non-empty text, unless the post
   * has a note text but the note carries no URL entity list of its own.
   */
  lemma ActiveMatchesPassive(r: Json)
    requires IsTweetNode(r) && PassiveRaw(r).text != ""
    requires NoteText(r).Some? ==> !Nullish(NoteUrls(r))
    ensures ActiveRaw(r) == Some(PassiveRaw(r))
  {
    if NoteText(r).None? {
      assert GetPath(Some(r), ["legacy", "full_text"]) == Get(Get(Some(r), "legacy"), "full_text");
    }
  }

  /**
   * As written the paths can disagree: for a note without `entity_set`, the
   * passive path resolves the note text against the legacy URL entities and
   * the active path against none.
   */
  lemma NoteWithoutEntitySetDiffers()
    ensures var r := NoteOnlyPost();
      IsTweetNode(r) && ActiveRaw(r).Some? && ActiveRaw(r).value.urls == [] && PassiveRaw(r).urls != []
  {
    var r := NoteOnlyPost();
    NoteOnlyPostIsNode();
    NoteOnlyPostNoteText();
    NoteOnlyPostNoteUrls();
    NoteOnlyPostLegacyUrls();
    assert |PassiveRaw(r).urls| == 1;
  }

  /** A post whose note has text but no `entity_set`, and whose legacy part lists one URL entity. */
  function NoteOnlyPost(): Json {
    JObj(["legacy", "note_tweet"], [
      JObj(["id_str", "full_text", "entities"], [JStr("1"), JStr("u"),
        JObj(["urls"], [JArr([JObj(["url"], [JStr("u")])])])]),
      JObj(["note_tweet_results"], [JObj(["result"], [JObj(["text"], [JStr("u")])])])])
  }

  lemma NoteOnlyPostIsNode()
    ensures IsTweetNode(NoteOnlyPost())
  {
    var r := NoteOnlyPost();
    assert Prop(r, "legacy") == Some(r.vals[0]);
  }

  lemma NoteOnlyPostNoteText()
    ensures NoteText(NoteOnlyPost()) == Some("u")
  {
    var r := NoteOnlyPost();
    var nt := r.vals[1];
    var res := nt.vals[0];
    assert Get(Some(r), "note_tweet") == Some(nt);
    assert Get(Some(nt), "note_tweet_results") == Some(res);
    assert Get(Some(res), "result") == Some(res.vals[0]);
  }

  lemma NoteOnlyPostNoteUrls()
    ensures NoteUrls(NoteOnlyPost()).None?
  {
    var r := NoteOnlyPost();
    var nt := r.vals[1];
    var res := nt.vals[0];
    var note := res.vals[0];
    assert Get(Some(r), "note_tweet") == Some(nt);
    assert Get(Some(nt), "note_tweet_results") == Some(res);
    assert Get(Some(res), "result") == Some(note);
    assert Get(Some(note), "entity_set") == None;
  }

  lemma NoteOnlyPostLegacyUrls()
    ensures LegacyUrls(NoteOnlyPost()) == Some(JArr([JObj(["url"], [JStr("u")])]))
  {
    var r := NoteOnlyPost();
    var legacy := r.vals[0];
    assert Get(Some(r), "legacy") == Some(legacy);
    assert Get(Some(legacy), "entities") == Some(legacy.vals[2]);
  }
}
