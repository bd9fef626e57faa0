/**
 * The two strings the bridge reads off the page's own traffic and cookies
 * (entrypoints/api-bridge.content.ts): the `/graphql/{hash}/{operation}`
 * path of an intercepted API URL, and the `ct0` anti-forgery token of the
 * cookie string.
 */
module RequestParsing {
  import opened Wrappers
  import opened JsStrings

  const GraphqlPrefix: string := "/graphql/"
  const ApiMarker: string := "/i/api/"
  const CsrfPrefix: string := "ct0="

  predicate NotSlash(c: char) { c != '/' }

  // ------------------------------------------------ \/graphql\/([^/]+)\/(\w+)

  /** `/graphql/`, a non-empty run without `/`, a `/`, and at least one word character, at `p`. */
  predicate GraphqlMatchAt(url: string, p: nat) {
    OccursAt(url, GraphqlPrefix, p)
    && var s := p + |GraphqlPrefix|;
    var e := SpanEnd(url, s, NotSlash);
    s < e && e + 1 < |url| && IsWordChar(url[e + 1])
  }

  function FindGraphql(url: string, p: nat): (r: int)
    ensures r == -1 || (p <= r && GraphqlMatchAt(url, r))
    ensures forall q :: p <= q && (r == -1 || q < r) ==> !GraphqlMatchAt(url, q)
    decreases |url| - p
  {
    if p >= |url| then -1
    else if GraphqlMatchAt(url, p) then p
    else FindGraphql(url, p + 1)
  }

  /** The operation's hash and name, captured by the leftmost match. */
  datatype OpPath = OpPath(hash: string, opName: string)

  /** The two groups of a match at `p`. */
  function GraphqlCapture(url: string, p: nat): (r: OpPath)
    requires GraphqlMatchAt(url, p)
    ensures r.hash != [] && '/' !in r.hash
    ensures r.opName != [] && forall k :: 0 <= k < |r.opName| ==> IsWordChar(r.opName[k])
  {
    var s := p + |GraphqlPrefix|;
    var e := SpanEnd(url, s, NotSlash);
    OpPath(url[s..e], url[e + 1..SpanEnd(url, e + 1, IsWordChar)])
  }

  /** `url.match(/\/graphql\/([^/]+)\/(\w+)/)`, its two groups. */
  function GraphqlPath(url: string): (r: Option<OpPath>)
    ensures r.None? <==> forall q: nat :: !GraphqlMatchAt(url, q)
    ensures r.Some? ==> r.value.hash != [] && '/' !in r.value.hash
    ensures r.Some? ==> r.value.opName != [] && forall k :: 0 <= k < |r.value.opName| ==> IsWordChar(r.value.opName[k])
  {
    var p := FindGraphql(url, 0);
    if p < 0 then None else Some(GraphqlCapture(url, p))
  }

  /**
   * An API URL of the usual shape gives back its hash and operation name:
   * the path `/i/api/graphql/{hash}/{op}` followed by anything that does not
   * start with a word character.
   */
  lemma GraphqlPathOfApiUrl(hash: string, op: string, query: string)
    requires hash != [] && '/' !in hash
    requires op != [] && forall k :: 0 <= k < |op| ==> IsWordChar(op[k])
    requires query == [] || !IsWordChar(query[0])
    ensures GraphqlPath("/i/api" + GraphqlPrefix + hash + "/" + op + query) == Some(OpPath(hash, op))
  {
    var url := "/i/api" + (GraphqlPrefix + (hash + ("/" + (op + query))));
    assert url == "/i/api" + GraphqlPrefix + hash + "/" + op + query;
    ApiUrlMatch(hash, op, query);
  }

  lemma ApiUrlMatch(hash: string, op: string, query: string)
    requires hash != [] && '/' !in hash
    requires op != [] && forall k :: 0 <= k < |op| ==> IsWordChar(op[k])
    requires query == [] || !IsWordChar(query[0])
    ensures GraphqlPath("/i/api" + (GraphqlPrefix + (hash + ("/" + (op + query))))) == Some(OpPath(hash, op))
  {
    var url := "/i/api" + (GraphqlPrefix + (hash + ("/" + (op + query))));
    var e := 6 + |GraphqlPrefix| + |hash|;
    HashSegment(hash, op + query);
    WordRun(url, e + 1, op, query);
    NoMatchInApiPrefix(url);
    GraphqlPathAt(url, 6, hash, op);
  }

  /** The path read off a match at `p`, the leftmost one, whose hash and operation runs are known. */
  lemma GraphqlPathAt(url: string, p: nat, hash: string, op: string)
    requires forall q :: 0 <= q < p ==> !GraphqlMatchAt(url, q)
    requires OccursAt(url, GraphqlPrefix, p)
    requires var s := p + |GraphqlPrefix|;
      SpanEnd(url, s, NotSlash) == s + |hash| && url[s..s + |hash|] == hash && hash != []
    requires var w := p + |GraphqlPrefix| + |hash| + 1;
      w < |url| && SpanEnd(url, w, IsWordChar) == w + |op| && url[w..w + |op|] == op && IsWordChar(url[w])
    ensures GraphqlPath(url) == Some(OpPath(hash, op))
  {
    assert GraphqlMatchAt(url, p);
    LeftmostGraphql(url, p);
    CaptureAt(url, p, hash, op);
  }

  lemma LeftmostGraphql(url: string, p: nat)
    requires GraphqlMatchAt(url, p) && forall q :: 0 <= q < p ==> !GraphqlMatchAt(url, q)
    ensures FindGraphql(url, 0) == p
  {
  }

  lemma CaptureAt(url: string, p: nat, hash: string, op: string)
    requires GraphqlMatchAt(url, p)
    requires var s := p + |GraphqlPrefix|;
      SpanEnd(url, s, NotSlash) == s + |hash| && url[s..s + |hash|] == hash
    requires var w := p + |GraphqlPrefix| + |hash| + 1;
      w < |url| && SpanEnd(url, w, IsWordChar) == w + |op| && url[w..w + |op|] == op
    ensures GraphqlCapture(url, p) == OpPath(hash, op)
  {
  }

  /** The `/graphql/` prefix after `/i/api`, then a slash-free hash and its closing `/`. */
  lemma HashSegment(hash: string, tail: string)
    requires '/' !in hash
    ensures var url := "/i/api" + (GraphqlPrefix + (hash + ("/" + tail)));
      var s := 6 + |GraphqlPrefix|;
      OccursAt(url, GraphqlPrefix, 6) && SpanEnd(url, s, NotSlash) == s + |hash|
      && url[s..s + |hash|] == hash && url[s + |hash| + 1..] == tail
  {
    var url := "/i/api" + (GraphqlPrefix + (hash + ("/" + tail)));
    var s := 6 + |GraphqlPrefix|;
    var e := s + |hash|;
    assert url[6..s] == GraphqlPrefix;
    forall k | s <= k < e ensures NotSlash(url[k]) {
      assert url[k] == hash[k - s];
    }
    assert url[e] == '/';
    SpanEndIs(url, s, e, NotSlash);
  }

  /** `/i/api` holds no match of its own. */
  lemma NoMatchInApiPrefix(url: string)
    requires |url| >= 6 && url[..6] == "/i/api"
    ensures forall q :: 0 <= q < 6 ==> !GraphqlMatchAt(url, q)
  {
    forall q | 0 <= q < 6 ensures !OccursAt(url, GraphqlPrefix, q) {
      if q + |GraphqlPrefix| <= |url| {
        assert url[q] == "/i/api"[q];
        assert url[q + 1] == if q < 5 then "/i/api"[q + 1] else url[6];
        assert url[q..q + |GraphqlPrefix|][0] == url[q];
        assert url[q..q + |GraphqlPrefix|][1] == url[q + 1];
      }
    }
  }

  lemma WordRun(url: string, i: nat, op: string, query: string)
    requires i <= |url| && url[i..] == op + query
    requires op != [] && forall k :: 0 <= k < |op| ==> IsWordChar(op[k])
    requires query == [] || !IsWordChar(query[0])
    ensures SpanEnd(url, i, IsWordChar) == i + |op| && url[i..i + |op|] == op && IsWordChar(url[i])
  {
    forall k | i <= k < i + |op| ensures IsWordChar(url[k]) {
      assert url[k] == url[i..][k - i] == op[k - i];
    }
    if query != [] {
      assert url[i + |op|] == query[0];
    }
    SpanEndIs(url, i, i + |op|, IsWordChar);
    assert url[i..i + |op|] == url[i..][..|op|];
  }

  // ------------------------------------------------ document.cookie

  /** A cookie piece that, trimmed, begins with `ct0=`. */
  predicate IsCsrfPiece(piece: string) {
    StartsWith(Trim(piece), CsrfPrefix)
  }

  /** The first piece at or after `i` that is the `ct0` piece, or -1. */
  function FindCsrfPiece(pieces: seq<string>, i: nat): (r: int)
    ensures r == -1 || (i <= r < |pieces| && IsCsrfPiece(pieces[r]))
    ensures forall k :: i <= k < |pieces| && (r == -1 || k < r) ==> !IsCsrfPiece(pieces[k])
    decreases |pieces| - i
  {
    if i >= |pieces| then -1
    else if IsCsrfPiece(pieces[i]) then i
    else FindCsrfPiece(pieces, i + 1)
  }

  /** What follows `ct0=` in the trimmed piece. */
  function PieceToken(piece: string): (r: string)
    requires IsCsrfPiece(piece)
    ensures CsrfPrefix + r == Trim(piece)
  {
    var t := Trim(piece);
    assert t[..4] == CsrfPrefix;
    assert t == t[..4] + t[4..];
    t[4..]
  }

  /** The token is taken from its piece, so it holds no `;`. */
  lemma PieceTokenHasNoSemicolon(piece: string)
    requires IsCsrfPiece(piece) && ';' !in piece
    ensures ';' !in PieceToken(piece)
  {
    var t := Trim(piece);
    TrimCharsIn(piece);
    forall k | 0 <= k < |PieceToken(piece)| ensures PieceToken(piece)[k] != ';' {
      assert PieceToken(piece)[k] == t[k + 4];
      assert t[k + 4] in piece;
    }
  }

  /** The token of the first `ct0` piece, or `None` when there is none. */
  function CsrfFromPieces(pieces: seq<string>): (r: Option<string>)
    ensures r.None? ==> forall k :: 0 <= k < |pieces| ==> !IsCsrfPiece(pieces[k])
    ensures r.Some? ==> exists k :: FirstCsrfPiece(pieces, k) && r.value == PieceToken(pieces[k])
  {
    var i := FindCsrfPiece(pieces, 0);
    if i < 0 then None
    else
      assert FirstCsrfPiece(pieces, i);
      Some(PieceToken(pieces[i]))
  }

  /**
   * `getCsrfToken`: the rest, after `ct0=`, of the first `;`-separated piece
   * of the cookie that begins with `ct0=` once trimmed; `None` when no piece
   * does.
   */
  function CsrfToken(cookie: string): (r: Option<string>)
    ensures r.None? ==> forall k :: 0 <= k < |Split(cookie, ';')| ==> !IsCsrfPiece(Split(cookie, ';')[k])
    ensures r.Some? ==> exists k :: FirstCsrfPiece(Split(cookie, ';'), k) && r.value == PieceToken(Split(cookie, ';')[k])
  {
    CsrfFromPieces(Split(cookie, ';'))
  }

  /** `pieces[k]` is the first `ct0` piece. */
  predicate FirstCsrfPiece(pieces: seq<string>, k: int) {
    0 <= k < |pieces| && IsCsrfPiece(pieces[k]) && forall j :: 0 <= j < k ==> !IsCsrfPiece(pieces[j])
  }

  /** The token never contains the separator. */
  lemma CsrfTokenHasNoSemicolon(cookie: string)
    requires CsrfToken(cookie).Some?
    ensures ';' !in CsrfToken(cookie).value
  {
    var k :| FirstCsrfPiece(Split(cookie, ';'), k) && CsrfToken(cookie).value == PieceToken(Split(cookie, ';')[k]);
    PieceTokenHasNoSemicolon(Split(cookie, ';')[k]);
  }

  /** The token is found after other cookies: `a=1; ct0=` followed by a trimmed value without `;`. */
  lemma CsrfTokenAfterOtherCookie(v: string)
    requires ';' !in v && Trimmed(v)
    ensures CsrfToken("a=1; ct0=" + v) == Some(v)
  {
    CookieSplit(v);
    TokenPieces(v);
  }

  lemma CookieSplit(v: string)
    requires ';' !in v
    ensures Split("a=1; ct0=" + v, ';') == ["a=1", " ct0=" + v]
  {
    var second := " ct0=" + v;
    assert "a=1; ct0=" + v == "a=1" + [';'] + second;
    assert ';' !in second by {
      assert forall k :: 5 <= k < |second| ==> second[k] == v[k - 5];
    }
    SplitAtFirstSep("a=1", ';', second);
    SplitWithoutSep(second, ';');
  }

  lemma TokenPieces(v: string)
    requires Trimmed(v)
    ensures CsrfFromPieces(["a=1", " ct0=" + v]) == Some(v)
  {
    OtherCookieIsNotCsrf();
    CsrfPieceToken(v);
    assert FindCsrfPiece(["a=1", " ct0=" + v], 0) == 1;
  }

  lemma OtherCookieIsNotCsrf()
    ensures !IsCsrfPiece("a=1")
  {
    assert Trim("a=1") == "a=1";
  }

  /** The piece ` ct0=<v>` is the `ct0` piece, and its token is `v` when `v` is trimmed. */
  lemma CsrfPieceToken(v: string)
    requires Trimmed(v)
    ensures IsCsrfPiece(" ct0=" + v) && PieceToken(" ct0=" + v) == v
  {
    var piece := CsrfPrefix + v;
    assert " ct0=" + v == " " + piece;
    assert Trimmed(piece) by {
      assert piece[|piece| - 1] == if v == [] then '=' else v[|v| - 1];
    }
    TrimLeadingSpace(piece);
    assert StartsWith(piece, CsrfPrefix) by {
      assert piece[..4] == CsrfPrefix;
    }
    assert piece[4..] == v;
  }
}
