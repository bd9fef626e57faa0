/**
 * What the bridge looks for in the text of a fetched script bundle
 * (`scanScriptElement` in entrypoints/api-bridge.content.ts): the query
 * identifier of the `TweetResultByRestId` operation, and a candidate
 * feature-flag object. Both regular expressions are written out as the
 * leftmost match they find.
 */
module BundleScan {
  import opened Wrappers
  import opened JsStrings

  const QueryIdPrefix: string := "queryId:\""
  const OperationMarker: string := "operationName:\"TweetResultByRestId\""
  /** The most characters `[^}]{0,80}` lets lie between the identifier and the marker. */
  const MaxGap: nat := 80
  const FeaturesKey: string := "longform_notetweets_consumption_enabled"

  predicate NotQuote(c: char) { c != '"' }
  predicate NotCloseBrace(c: char) { c != '}' }
  predicate IsCloseBrace(c: char) { c == '}' }
  predicate IsOpenBrace(c: char) { c == '{' }

  // ------------------------------------------------ queryId:"([^"]+)"[^}]{0,80}operationName:"TweetResultByRestId"

  /** `[^}]{0,80}operationName:"TweetResultByRestId"` matches from `from`. */
  predicate GapThenMarker(text: string, from: nat)
    requires from <= |text|
  {
    exists j | from <= j <= from + MaxGap ::
      j <= SpanEnd(text, from, NotCloseBrace) && OccursAt(text, OperationMarker, j)
  }

  /** The query-identifier pattern matches at `p`. */
  predicate QueryIdMatchAt(text: string, p: nat) {
    OccursAt(text, QueryIdPrefix, p)
    && var s := p + |QueryIdPrefix|;
    var e := SpanEnd(text, s, NotQuote);
    s < e < |text| && GapThenMarker(text, e + 1)
  }

  /** The captured group of a match at `p`. */
  function QueryIdCapture(text: string, p: nat): (r: string)
    requires QueryIdMatchAt(text, p)
    ensures r != [] && '"' !in r
  {
    var s := p + |QueryIdPrefix|;
    text[s..SpanEnd(text, s, NotQuote)]
  }

  /** The leftmost match at or after `p`, or -1. */
  function FindQueryId(text: string, p: nat): (r: int)
    ensures r == -1 || (p <= r && QueryIdMatchAt(text, r))
    ensures forall q :: p <= q && (r == -1 || q < r) ==> !QueryIdMatchAt(text, q)
    decreases |text| - p
  {
    if p >= |text| then -1
    else if QueryIdMatchAt(text, p) then p
    else FindQueryId(text, p + 1)
  }

  /** `text.match(...)?.[1]`: the identifier of the leftmost match. */
  function ScanQueryId(text: string): (r: Option<string>)
    ensures r.None? <==> forall q: nat :: !QueryIdMatchAt(text, q)
    ensures r.Some? ==> r.value != [] && '"' !in r.value
  {
    var p := FindQueryId(text, 0);
    if p < 0 then None else Some(QueryIdCapture(text, p))
  }

  /**
   * A bundle that begins with an operation definition yields its
   * identifier: any non-empty identifier without a quote, followed within 80
   * characters that contain no `}` by the operation marker.
   */
  lemma ScanFindsLeadingQueryId(id: string, gap: string, rest: string)
    requires id != [] && '"' !in id
    requires |gap| <= MaxGap && '}' !in gap
    ensures ScanQueryId(QueryIdPrefix + id + "\"" + gap + OperationMarker + rest) == Some(id)
  {
    var t3 := gap + (OperationMarker + rest);
    var text := QueryIdPrefix + (id + ("\"" + t3));
    assert text == QueryIdPrefix + id + "\"" + gap + OperationMarker + rest;
    QuotedIdentifier(id, t3);
    var g := |QueryIdPrefix| + |id| + 1;
    forall k | g <= k < g + |gap| ensures NotCloseBrace(text[k]) {
      assert text[k] == t3[k - g] == gap[k - g];
    }
    GapMarker(text, g, gap, OperationMarker + rest);
    assert QueryIdMatchAt(text, 0);
  }

  /** The prefix, a quote-free identifier and its closing quote. */
  lemma QuotedIdentifier(id: string, tail: string)
    requires '"' !in id
    ensures var text := QueryIdPrefix + (id + ("\"" + tail));
      var s := |QueryIdPrefix|;
      OccursAt(text, QueryIdPrefix, 0) && SpanEnd(text, s, NotQuote) == s + |id|
      && text[s..s + |id|] == id && text[s + |id| + 1..] == tail
  {
    var text := QueryIdPrefix + (id + ("\"" + tail));
    var s := |QueryIdPrefix|;
    var e := s + |id|;
    assert text[..s] == QueryIdPrefix;
    forall k | s <= k < e ensures NotQuote(text[k]) {
      assert text[k] == id[k - s];
    }
    assert text[e] == '"';
    SpanEndIs(text, s, e, NotQuote);
  }

  lemma GapMarker(text: string, g: nat, gap: string, tail: string)
    requires g <= |text| && text[g..] == gap + tail && StartsWith(tail, OperationMarker)
    requires |gap| <= MaxGap && forall k :: g <= k < g + |gap| ==> NotCloseBrace(text[k])
    ensures GapThenMarker(text, g)
  {
    OccursAfter(gap, tail, OperationMarker, 0);
    OccursAfter(text[..g], text[g..], OperationMarker, |gap|);
    assert text[..g] + text[g..] == text;
    SpanEndAtLeast(text, g, g + |gap|, NotCloseBrace);
  }

  // ------------------------------------------------ longform_notetweets_consumption_enabled[^}]+}

  /** The feature-flag pattern matches at `p`: the key, at least one non-`}` character, then `}`. */
  predicate FeaturesMatchAt(text: string, p: nat) {
    OccursAt(text, FeaturesKey, p)
    && var s := p + |FeaturesKey|;
    s < SpanEnd(text, s, NotCloseBrace) < |text|
  }

  /** The matched text of a match at `p`, up to and including its `}`. */
  function FeaturesMatchText(text: string, p: nat): (m: string)
    requires FeaturesMatchAt(text, p)
    ensures OccursAt(text, m, p)
  {
    var s := p + |FeaturesKey|;
    text[p..SpanEnd(text, s, NotCloseBrace) + 1]
  }

  function FindFeatures(text: string, p: nat): (r: int)
    ensures r == -1 || (p <= r && FeaturesMatchAt(text, r))
    ensures forall q :: p <= q && (r == -1 || q < r) ==> !FeaturesMatchAt(text, q)
    decreases |text| - p
  {
    if p >= |text| then -1
    else if FeaturesMatchAt(text, p) then p
    else FindFeatures(text, p + 1)
  }

  /** Wherever the matched text occurs, the pattern matches there too. */
  lemma OccurrenceIsMatch(text: string, p: nat, q: nat)
    requires FeaturesMatchAt(text, p)
    ensures OccursAt(text, FeaturesMatchText(text, p), q) ==> FeaturesMatchAt(text, q)
  {
    var m := FeaturesMatchText(text, p);
    var n := |FeaturesKey|;
    var e := SpanEnd(text, p + n, NotCloseBrace);
    if OccursAt(text, m, q) {
      assert |m| == e + 1 - p;
      forall k | q <= k < q + |m| ensures text[k] == text[p + (k - q)] {
        assert text[q..q + |m|][k - q] == m[k - q];
      }
      assert text[q..q + n] == FeaturesKey by {
        assert text[q..q + n] == text[p..p + n];
      }
      forall k | q + n <= k < q + |m| - 1 ensures NotCloseBrace(text[k]) {
        assert text[k] == text[p + (k - q)];
      }
      assert text[q + |m| - 1] == '}';
      SpanEndIs(text, q + n, q + |m| - 1, NotCloseBrace);
    }
  }

  /** The match is found again by `text.indexOf(featMatch[0])`: its first occurrence is where it was matched. */
  lemma FeaturesIndexIsMatch(text: string)
    requires FindFeatures(text, 0) >= 0
    ensures IndexOf(text, FeaturesMatchText(text, FindFeatures(text, 0))) == FindFeatures(text, 0)
  {
    var p := FindFeatures(text, 0);
    var m := FeaturesMatchText(text, p);
    forall q | 0 <= q < p ensures !OccursAt(text, m, q) {
      OccurrenceIsMatch(text, p, q);
    }
    IndexOfIsFirst(text, m, p);
  }

  /** The start of the candidate: `text.lastIndexOf('{', idx)`, the last `{` at or before `idx`, or -1. */
  function LastOpenBrace(text: string, idx: nat): (r: int)
    requires idx < |text|
    ensures r == -1 || (0 <= r <= idx && text[r] == '{')
    ensures forall k :: r < k <= idx ==> text[k] != '{'
  {
    FindLastChar(text, idx + 1, IsOpenBrace)
  }

  /**
   * The candidate of lines 70-73: from the last `{` at or before the match
   * (from the last character when there is none, as `slice(-1)` does) up to
   * and including the first `}` after it; empty when the slice holds no `}`.
   */
  function FeaturesCandidate(text: string): (r: Option<string>)
    ensures r.Some? <==> FindFeatures(text, 0) >= 0
    ensures r.Some? && r.value != [] ==> r.value[|r.value| - 1] == '}' && '}' !in r.value[..|r.value| - 1]
  {
    var p := FindFeatures(text, 0);
    if p < 0 then None
    else Some(CandidateAt(text, IndexOf(text, FeaturesMatchText(text, p))))
  }

  /** The candidate for a match found at `idx`. */
  function CandidateAt(text: string, idx: nat): (r: string)
    requires idx < |text|
    ensures r != [] ==> r[|r| - 1] == '}' && '}' !in r[..|r| - 1]
  {
    var start := LastOpenBrace(text, idx);
    var sub := if start < 0 then text[|text| - 1..] else text[start..];
    var end := FindChar(sub, 0, IsCloseBrace) + 1;
    sub[..end]
  }

  /** The candidate is the one for the match's own position. */
  lemma CandidateAtMatch(text: string)
    requires FindFeatures(text, 0) >= 0
    ensures FeaturesCandidate(text) == Some(CandidateAt(text, FindFeatures(text, 0)))
  {
    FeaturesIndexIsMatch(text);
  }

  /** Where the text has a `{` before the match, the candidate starts with the last such `{`, and is never empty. */
  lemma CandidateStartsAtBrace(text: string)
    requires FindFeatures(text, 0) >= 0
    requires exists k :: 0 <= k <= FindFeatures(text, 0) && text[k] == '{'
    ensures var c := FeaturesCandidate(text).value;
      var start := LastOpenBrace(text, FindFeatures(text, 0));
      0 <= start && |c| >= 2 && c[0] == '{' && c <= text[start..]
  {
    CandidateAtMatch(text);
    CandidateAtBrace(text, FindFeatures(text, 0));
  }

  /** The same for the candidate at a match position `p`. */
  lemma CandidateAtBrace(text: string, p: nat)
    requires FeaturesMatchAt(text, p)
    requires exists k :: 0 <= k <= p && text[k] == '{'
    ensures var c := CandidateAt(text, p);
      var start := LastOpenBrace(text, p);
      0 <= start && |c| >= 2 && c[0] == '{' && c <= text[start..]
  {
    var start := LastOpenBrace(text, p);
    var k :| 0 <= k <= p && text[k] == '{';
    assert start >= k;
    var sub := text[start..];
    CloseBraceAfterMatch(text, p, start);
    assert sub[0] == '{';
  }

  /** A match at `p` closes with a `}`, so any suffix starting at or before `p` holds one. */
  lemma CloseBraceAfterMatch(text: string, p: nat, start: nat)
    requires FeaturesMatchAt(text, p) && start <= p
    ensures FindChar(text[start..], 0, IsCloseBrace) >= 0
  {
    var e := SpanEnd(text, p + |FeaturesKey|, NotCloseBrace);
    assert text[start..][e - start] == '}';
  }

  /**
   * The candidate stops at the first `}` after its `{`, not at the brace
   * that closes it: when a `}` lies between that `{` and the key, the
   * candidate ends before the key.
   */
  lemma CandidateStopsAtFirstCloseBrace(text: string, j: nat)
    requires FindFeatures(text, 0) >= 0
    requires LastOpenBrace(text, FindFeatures(text, 0)) >= 0
    requires LastOpenBrace(text, FindFeatures(text, 0)) < j < FindFeatures(text, 0) && text[j] == '}'
    ensures |FeaturesCandidate(text).value| <= j - LastOpenBrace(text, FindFeatures(text, 0)) + 1
  {
    CandidateAtMatch(text);
    CandidateAtStops(text, FindFeatures(text, 0), j);
  }

  /** The same for the candidate at a position `idx`. */
  lemma CandidateAtStops(text: string, idx: nat, j: nat)
    requires idx < |text| && LastOpenBrace(text, idx) >= 0
    requires LastOpenBrace(text, idx) < j < idx && text[j] == '}'
    ensures |CandidateAt(text, idx)| <= j - LastOpenBrace(text, idx) + 1
  {
    var start := LastOpenBrace(text, idx);
    var sub := text[start..];
    assert sub[j - start] == '}';
  }
}
