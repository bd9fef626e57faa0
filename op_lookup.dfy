/**
 * The two priority chains of entrypoints/api-bridge.content.ts that pick
 * what an active request is sent with: the query hash (`getGraphQLHash`) and
 * the feature-flag string (`getFeatures`), from the operations observed on the
 * page, the values scanned out of script bundles, and a fixed default.
 */
module OpLookup {
  import opened Wrappers

  /** What was observed for one GraphQL operation: its query hash and its `features` parameter. */
  datatype OpInfo = OpInfo(hash: string, features: string)

  const HashPriority: seq<string> := ["TweetResultByRestId", "TweetDetail", "TimelineTweetDetail"]
  const FeaturesPriority: seq<string> := ["TweetResultByRestId", "TweetDetail", "HomeTimeline"]

  /** `names[k]` is the first of `names` that `usable` accepts. */
  predicate FirstUsable(names: seq<string>, usable: string -> bool, k: int) {
    0 <= k < |names| && usable(names[k]) && forall j :: 0 <= j < k ==> !usable(names[j])
  }

  /** The index of the first name `usable` accepts, or -1. */
  function FirstIndex(names: seq<string>, usable: string -> bool, i: nat): (r: int)
    ensures r == -1 || (i <= r < |names| && usable(names[r]))
    ensures forall k :: i <= k < |names| && (r == -1 || k < r) ==> !usable(names[k])
    decreases |names| - i
  {
    if i >= |names| then -1 else if usable(names[i]) then i else FirstIndex(names, usable, i + 1)
  }

  /** The hash of the first of `names` that has been observed (`if (info) return info.hash`). */
  function FirstHash(ops: map<string, OpInfo>, names: seq<string>): (r: Option<string>)
    ensures r.None? ==> forall k :: 0 <= k < |names| ==> names[k] !in ops
    ensures r.Some? ==> exists k :: FirstUsable(names, n => n in ops, k) && r.value == ops[names[k]].hash
  {
    var k := FirstIndex(names, n => n in ops, 0);
    if k < 0 then None
    else
      assert FirstUsable(names, n => n in ops, k);
      Some(ops[names[k]].hash)
  }

  /** The first non-empty `features` among `names` (`if (info?.features) return info.features`). */
  function FirstFeatures(ops: map<string, OpInfo>, names: seq<string>): (r: Option<string>)
    ensures r.None? ==> forall k :: 0 <= k < |names| ==> names[k] !in ops || ops[names[k]].features == ""
    ensures r.Some? ==> r.value != ""
    ensures r.Some? ==> exists k :: FirstUsable(names, n => n in ops && ops[n].features != "", k) && r.value == ops[names[k]].features
  {
    var k := FirstIndex(names, n => n in ops && ops[n].features != "", 0);
    if k < 0 then None
    else
      assert FirstUsable(names, n => n in ops && ops[n].features != "", k);
      Some(ops[names[k]].features)
  }

  /** `getGraphQLHash`: an observed operation's hash, else the hash scanned out of a bundle. */
  function GraphQLHash(ops: map<string, OpInfo>, preScannedHash: Option<string>): (r: Option<string>)
    ensures (forall k :: 0 <= k < |HashPriority| ==> HashPriority[k] !in ops) ==> r == preScannedHash
  {
    match FirstHash(ops, HashPriority)
    case Some(h) => Some(h)
    case None => preScannedHash
  }

  /** The hash chain in the order the source lists it. */
  lemma GraphQLHashPriority(ops: map<string, OpInfo>, preScannedHash: Option<string>)
    ensures GraphQLHash(ops, preScannedHash) ==
      if "TweetResultByRestId" in ops then Some(ops["TweetResultByRestId"].hash)
      else if "TweetDetail" in ops then Some(ops["TweetDetail"].hash)
      else if "TimelineTweetDetail" in ops then Some(ops["TimelineTweetDetail"].hash)
      else preScannedHash
  {
    var names := HashPriority;
    var r := FirstHash(ops, names);
    if r.Some? {
      var k :| FirstUsable(names, n => n in ops, k) && r.value == ops[names[k]].hash;
      assert k == 0 || names[0] !in ops;
      assert k == 2 ==> names[1] !in ops;
    } else {
      assert names[0] !in ops && names[1] !in ops && names[2] !in ops;
    }
  }

  /** One boolean flag of the default feature object. */
  datatype Flag = Flag(name: string, on: bool)

  /** The fixed default of `getFeatures`, in its key order. */
  const DefaultFlags: seq<Flag> := [
    Flag("longform_notetweets_consumption_enabled", true),
    Flag("longform_notetweets_rich_text_read_enabled", true),
    Flag("longform_notetweets_inline_media_enabled", true),
    Flag("responsive_web_graphql_exclude_directive_enabled", true),
    Flag("verified_phone_label_enabled", false),
    Flag("responsive_web_graphql_skip_user_profile_image_extensions_enabled", false),
    Flag("responsive_web_graphql_timeline_navigation_enabled", true),
    Flag("creator_subscriptions_tweet_preview_api_enabled", true),
    Flag("c9s_tweet_anatomy_moderator_badge_enabled", true),
    Flag("tweetypie_unmention_optimization_enabled", true),
    Flag("responsive_web_edit_tweet_api_enabled", true),
    Flag("graphql_is_translatable_rweb_tweet_is_translatable_enabled", true),
    Flag("view_counts_everywhere_api_enabled", true),
    Flag("freedom_of_speech_not_reach_fetch_enabled", true),
    Flag("standardized_nudges_misinfo", true),
    Flag("tweet_with_visibility_results_prefer_gql_limited_actions_policy_enabled", true),
    Flag("rweb_video_timestamps_enabled", true),
    Flag("tweet_awards_web_tipping_enabled", false),
    Flag("responsive_web_twitter_article_tweet_consumption_enabled", true),
    Flag("responsive_web_enhance_cards_enabled", false),
    Flag("rweb_tipjar_consumption_enabled", true),
    Flag("creator_subscriptions_quote_tweet_preview_enabled", false),
    Flag("communities_web_enable_tweet_community_results_fetch", true),
    Flag("articles_preview_enabled", true)
  ]

  /** `"name":true` or `"name":false`. */
  function FlagJson(f: Flag): string {
    "\"" + f.name + "\":" + (if f.on then "true" else "false")
  }

  /** The members of a flat boolean object, comma-separated, as `JSON.stringify` writes them. */
  function MembersJson(flags: seq<Flag>): string {
    if flags == [] then ""
    else if |flags| == 1 then FlagJson(flags[0])
    else FlagJson(flags[0]) + "," + MembersJson(flags[1..])
  }

  /** The serialized default: a braced list of the 24 flags. */
  function DefaultFeatures(): (r: string)
    ensures |r| >= 2 && r[0] == '{' && r[|r| - 1] == '}'
  {
    "{" + MembersJson(DefaultFlags) + "}"
  }

  /**
   * `getFeatures`: an observed operation's non-empty `features`, else the
   * fallback when it is non-empty, else the default.
   */
  function Features(ops: map<string, OpInfo>, fallbackFeatures: Option<string>): (r: string)
    ensures r != ""
    ensures (forall k :: 0 <= k < |FeaturesPriority| ==> FeaturesPriority[k] !in ops || ops[FeaturesPriority[k]].features == "")
      ==> r == if fallbackFeatures.Some? && fallbackFeatures.value != "" then fallbackFeatures.value else DefaultFeatures()
  {
    match FirstFeatures(ops, FeaturesPriority)
    case Some(f) => f
    case None =>
      if fallbackFeatures.Some? && fallbackFeatures.value != "" then fallbackFeatures.value else DefaultFeatures()
  }

  /** The features chain in the order the source lists it. */
  lemma FeaturesPriorityOrder(ops: map<string, OpInfo>, fallbackFeatures: Option<string>)
    ensures Features(ops, fallbackFeatures) ==
      if "TweetResultByRestId" in ops && ops["TweetResultByRestId"].features != "" then ops["TweetResultByRestId"].features
      else if "TweetDetail" in ops && ops["TweetDetail"].features != "" then ops["TweetDetail"].features
      else if "HomeTimeline" in ops && ops["HomeTimeline"].features != "" then ops["HomeTimeline"].features
      else if fallbackFeatures.Some? && fallbackFeatures.value != "" then fallbackFeatures.value
      else DefaultFeatures()
  {
    var names := FeaturesPriority;
    var usable := n => n in ops && ops[n].features != "";
    var r := FirstFeatures(ops, names);
    if r.Some? {
      var k :| FirstUsable(names, usable, k) && r.value == ops[names[k]].features;
      assert k == 0 || !usable(names[0]);
      assert k == 2 ==> !usable(names[1]);
    } else {
      assert !usable(names[0]) && !usable(names[1]) && !usable(names[2]);
    }
  }
}
