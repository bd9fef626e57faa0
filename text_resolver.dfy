/**
 * `resolveUrls` of entrypoints/api-bridge.content.ts: turns a post's raw text
 * into display text by expanding its short links and dropping its media
 * links.
 */
module TextResolver {
  import opened Wrappers
  import opened JsStrings

  /** A URL or media entity: its short `url` and the long forms the API may give. */
  datatype Entity = Entity(url: Option<string>, expandedUrl: Option<string>, displayUrl: Option<string>)

  /** `if (u.url)`: the entity has a non-empty short form. */
  predicate HasUrl(e: Entity) {
    e.url.Some? && e.url.value != ""
  }

  /** `u.expanded_url ?? u.display_url ?? u.url`. */
  function LongForm(e: Entity): string
    requires HasUrl(e)
  {
    if e.expandedUrl.Some? then e.expandedUrl.value
    else if e.displayUrl.Some? then e.displayUrl.value
    else e.url.value
  }

  /** One turn of the first loop. */
  function ExpandOne(text: string, u: Entity): string {
    if HasUrl(u) then ReplaceFirst(text, u.url.value, LongForm(u)) else text
  }

  /** One turn of the second loop: the first occurrence goes, then the text is trimmed. */
  function StripOne(text: string, m: Entity): string {
    if HasUrl(m) then Trim(ReplaceFirst(text, m.url.value, "")) else text
  }

  /** The first loop over the URL entities, in order. */
  function ExpandUrls(text: string, urls: seq<Entity>): string
    decreases |urls|
  {
    if urls == [] then text else ExpandUrls(ExpandOne(text, urls[0]), urls[1..])
  }

  /** The second loop over the media entities, in order. */
  function StripMedia(text: string, media: seq<Entity>): string
    decreases |media|
  {
    if media == [] then text else StripMedia(StripOne(text, media[0]), media[1..])
  }

  /** What `resolveUrls(text, urls, media)` returns. */
  function ResolvedText(text: string, urls: seq<Entity>, media: seq<Entity>): string {
    StripMedia(ExpandUrls(text, urls), media)
  }

  /** `resolveUrls`, with its two loops reassigning `text`. */
  method ResolveUrls(text: string, urls: seq<Entity>, media: seq<Entity>) returns (r: string)
    ensures r == ResolvedText(text, urls, media)
  {
    r := text;
    for i := 0 to |urls|
      invariant ExpandUrls(r, urls[i..]) == ExpandUrls(text, urls)
    {
      assert urls[i..][1..] == urls[i + 1..];
      var u := urls[i];
      if HasUrl(u) {
        r := ReplaceFirst(r, u.url.value, LongForm(u));
      }
    }
    var expanded := r;
    for i := 0 to |media|
      invariant StripMedia(r, media[i..]) == StripMedia(expanded, media)
    {
      assert media[i..][1..] == media[i + 1..];
      var m := media[i];
      if HasUrl(m) {
        r := Trim(ReplaceFirst(r, m.url.value, ""));
      }
    }
  }

  /** No URL entity whose short form occurs in the text: the first loop changes nothing. */
  predicate NoShortUrlIn(text: string, urls: seq<Entity>) {
    forall k :: 0 <= k < |urls| && HasUrl(urls[k]) ==> !Contains(text, urls[k].url.value)
  }

  /**
   * Resolving text that holds none of the entities' short forms is the
   * identity, when the text is already trimmed (or there is nothing that
   * would trim it).
   */
  lemma {:induction false} ResolveWithoutTokens(text: string, urls: seq<Entity>, media: seq<Entity>)
    requires NoShortUrlIn(text, urls) && NoShortUrlIn(text, media)
    requires Trimmed(text)
    ensures ResolvedText(text, urls, media) == text
  {
    ExpandWithoutTokens(text, urls);
    StripWithoutTokens(text, media);
  }

  lemma {:induction false} ExpandWithoutTokens(text: string, urls: seq<Entity>)
    requires NoShortUrlIn(text, urls)
    ensures ExpandUrls(text, urls) == text
    decreases |urls|
  {
    if urls != [] {
      assert ExpandOne(text, urls[0]) == text;
      assert NoShortUrlIn(text, urls[1..]) by {
        forall k | 0 <= k < |urls[1..]| && HasUrl(urls[1..][k])
          ensures !Contains(text, urls[1..][k].url.value)
        {
          assert urls[1..][k] == urls[k + 1];
        }
      }
      ExpandWithoutTokens(text, urls[1..]);
    }
  }

  lemma {:induction false} StripWithoutTokens(text: string, media: seq<Entity>)
    requires NoShortUrlIn(text, media) && Trimmed(text)
    ensures StripMedia(text, media) == text
    decreases |media|
  {
    if media != [] {
      assert StripOne(text, media[0]) == text;
      assert NoShortUrlIn(text, media[1..]) by {
        forall k | 0 <= k < |media[1..]| && HasUrl(media[1..][k])
          ensures !Contains(text, media[1..][k].url.value)
        {
          assert media[1..][k] == media[k + 1];
        }
      }
      StripWithoutTokens(text, media[1..]);
    }
  }

  /** Without a media entity that has a short form, nothing is trimmed: the result is the first loop's. */
  lemma {:induction false} NoMediaUrlNoTrim(text: string, urls: seq<Entity>, media: seq<Entity>)
    requires forall k :: 0 <= k < |media| ==> !HasUrl(media[k])
    ensures ResolvedText(text, urls, media) == ExpandUrls(text, urls)
  {
    StripNothing(ExpandUrls(text, urls), media);
  }

  lemma {:induction false} StripNothing(text: string, media: seq<Entity>)
    requires forall k :: 0 <= k < |media| ==> !HasUrl(media[k])
    ensures StripMedia(text, media) == text
    decreases |media|
  {
    if media != [] {
      assert forall k :: 0 <= k < |media[1..]| ==> media[1..][k] == media[k + 1];
      StripNothing(text, media[1..]);
    }
  }

  /** With at least one media entity that has a short form, the result is trimmed, whether or not that form occurred. */
  lemma {:induction false} MediaUrlTrims(text: string, media: seq<Entity>, k: nat)
    requires k < |media| && HasUrl(media[k])
    ensures Trimmed(StripMedia(text, media))
    decreases |media|
  {
    var t := StripOne(text, media[0]);
    if k == 0 {
      StripKeepsTrimmed(t, media[1..]);
    } else {
      MediaUrlTrims(t, media[1..], k - 1);
    }
  }

  lemma {:induction false} StripKeepsTrimmed(text: string, media: seq<Entity>)
    requires Trimmed(text)
    ensures Trimmed(StripMedia(text, media))
    decreases |media|
  {
    if media != [] {
      StripKeepsTrimmed(StripOne(text, media[0]), media[1..]);
    }
  }

  /**
   * A URL entity replaces only the first occurrence of its short form: the
   * text before it is kept, the long form follows, and everything after the
   * occurrence (later occurrences included) is kept as it was.
   */
  lemma OnlyFirstOccurrenceExpanded(text: string, u: Entity, i: nat)
    requires HasUrl(u) && OccursAt(text, u.url.value, i)
    requires forall j :: 0 <= j < i ==> !OccursAt(text, u.url.value, j)
    ensures ExpandUrls(text, [u]) == text[..i] + LongForm(u) + text[i + |u.url.value|..]
  {
    IndexOfIsFirst(text, u.url.value, i);
    assert [u][1..] == [];
  }

  /** The worked case: `"See t.co/abc"` with that short link expanded to `https://example.com/p`. */
  lemma ExpandExample()
    ensures ResolvedText("See t.co/abc", [Entity(Some("t.co/abc"), Some("https://example.com/p"), None)], [])
      == "See https://example.com/p"
  {
    var short, long := "t.co/abc", "https://example.com/p";
    assert "See t.co/abc" == "See " + short;
    assert "See https://example.com/p" == "See " + long;
    ExpandAfterPrefix("See ", short, long);
  }

  lemma ExpandAfterPrefix(prefix: string, short: string, long: string)
    requires short != [] && short[0] !in prefix
    ensures ResolvedText(prefix + short, [Entity(Some(short), Some(long), None)], []) == prefix + long
  {
    var u := Entity(Some(short), Some(long), None);
    ReplaceFirstSkipsPrefix(prefix, short, short, long);
    ReplaceWhole(short, long);
    assert ExpandOne(prefix + short, u) == prefix + long;
    assert [u][1..] == [];
    assert ExpandUrls(prefix + short, [u]) == ExpandUrls(prefix + long, []);
  }
}
