/**
 * utils/markdown.ts: the document an extracted post is exported as, the
 * date stamp in it, the file name and the short title the file name is
 * built from. Date components are inputs (the local-time fields of the
 * post's timestamp).
 */
module Markdown {
  import opened Wrappers
  import opened JsStrings
  import opened TweetTypes

  // ---------------------------------------------------------------- formatDate

  /** `getFullYear()`, `getMonth() + 1`, `getDate()`, `getHours()`, `getMinutes()` of the post's date. */
  datatype DateParts = DateParts(year: int, month: nat, day: nat, hours: nat, minutes: nat)

  /** `n.toString().padStart(2, '0')`: below 100, exactly two digits that read back as `n`. */
  function TwoDigits(n: nat): (r: string)
    ensures |r| >= 2
    ensures n < 100 ==> |r| == 2 && (forall k :: 0 <= k < 2 ==> IsDigit(r[k])) && DigitsValue(r) == n
  {
    if n < 100 then
      PadTwoDigits(n);
      PadStart2(NatToString(n))
    else PadStart2(NatToString(n))
  }

  /**
   * `formatDate`: the first `YYYY`, then the first `MM`, `DD`, `HH` and
   * `mm` of what is left, each replaced by its component.
   */
  function FormatDate(format: string, d: DateParts): string {
    var withYear := ReplaceFirst(format, "YYYY", IntToString(d.year));
    var withMonth := ReplaceFirst(withYear, "MM", TwoDigits(d.month));
    var withDay := ReplaceFirst(withMonth, "DD", TwoDigits(d.day));
    var withHours := ReplaceFirst(withDay, "HH", TwoDigits(d.hours));
    ReplaceFirst(withHours, "mm", TwoDigits(d.minutes))
  }

  /** Only digits and dashes. */
  predicate DigitsAndDashes(s: string) {
    forall k :: 0 <= k < |s| ==> IsDigit(s[k]) || s[k] == '-'
  }

  /** A token is replaced where it first occurs when nothing before it can start it. */
  lemma ReplaceAfter(before: string, pat: string, after: string, rep: string)
    requires |pat| > 0 && pat[0] !in before
    ensures ReplaceFirst(before + pat + after, pat, rep) == before + rep + after
  {
    assert before + pat + after == before + (pat + after);
    ReplaceFirstSkipsPrefix(before, pat + after, pat, rep);
    ReplaceAtStart(pat, after, rep);
  }

  /** A letter does not occur among digits and dashes. */
  lemma LetterNotIn(s: string, c: char)
    requires DigitsAndDashes(s) && !IsDigit(c) && c != '-'
    ensures c !in s
  {
  }

  /** Digits and dashes, a dash, more digits and dashes. */
  lemma DashJoined(a: string, b: string)
    requires DigitsAndDashes(a) && DigitsAndDashes(b)
    ensures DigitsAndDashes(a + "-" + b)
  {
  }

  lemma YearStep(y: string)
    ensures ReplaceFirst("YYYY-MM-DD", "YYYY", y) == y + "-MM-DD"
  {
    assert "YYYY-MM-DD" == "YYYY" + "-MM-DD";
    ReplaceAtStart("YYYY", "-MM-DD", y);
  }

  lemma MonthStep(y: string, m: string)
    requires DigitsAndDashes(y)
    ensures ReplaceFirst(y + "-MM-DD", "MM", m) == y + "-" + m + "-DD"
  {
    DashJoined(y, "");
    LetterNotIn(y + "-", 'M');
    assert y + "-MM-DD" == (y + "-") + "MM" + "-DD";
    ReplaceAfter(y + "-", "MM", "-DD", m);
    assert (y + "-") + m + "-DD" == y + "-" + m + "-DD";
  }

  lemma DayStep(p: string, dd: string)
    requires DigitsAndDashes(p)
    ensures ReplaceFirst(p + "-DD", "DD", dd) == p + "-" + dd
  {
    DashJoined(p, "");
    LetterNotIn(p + "-", 'D');
    assert p + "-DD" == (p + "-") + "DD" + "";
    ReplaceAfter(p + "-", "DD", "", dd);
    assert (p + "-") + dd + "" == p + "-" + dd;
  }

  /** The default format `YYYY-MM-DD` gives the year, then the month and day zero-padded to two digits. */
  lemma FormatDateDefault(d: DateParts)
    requires d.year >= 0 && d.month < 100 && d.day < 100
    ensures FormatDate("YYYY-MM-DD", d) == NatToString(d.year) + "-" + TwoDigits(d.month) + "-" + TwoDigits(d.day)
  {
    var y, m, dd := NatToString(d.year), TwoDigits(d.month), TwoDigits(d.day);
    assert IntToString(d.year) == y;
    YearStep(y);
    MonthStep(y, m);
    DashJoined(y, m);
    DayStep(y + "-" + m, dd);
    var s3 := y + "-" + m + "-" + dd;
    DashJoined(y + "-" + m, dd);
    LetterNotIn(s3, 'H');
    LetterNotIn(s3, 'm');
    MissingCharNotContained(s3, "HH", 0);
    MissingCharNotContained(s3, "mm", 0);
  }

  /** A format holding none of the tokens is returned unchanged. */
  lemma FormatDateWithoutTokens(format: string, d: DateParts)
    requires 'Y' !in format && 'M' !in format && 'D' !in format && 'H' !in format && 'm' !in format
    ensures FormatDate(format, d) == format
  {
    MissingCharNotContained(format, "YYYY", 0);
    MissingCharNotContained(format, "MM", 0);
    MissingCharNotContained(format, "DD", 0);
    MissingCharNotContained(format, "HH", 0);
    MissingCharNotContained(format, "mm", 0);
  }

  // ---------------------------------------------------------------- generateTitle

  /** `handle.replace('@', '')`: the first `@` goes. */
  function HandleWithoutAt(handle: string): (r: string)
    ensures handle != [] && handle[0] == '@' ==> r == handle[1..]
    ensures '@' !in handle ==> r == handle
  {
    if handle != [] && handle[0] == '@' then
      assert handle == "@" + handle[1..];
      ReplaceAtStart("@", handle[1..], "");
      ReplaceFirst(handle, "@", "")
    else if '@' !in handle then
      MissingCharNotContained(handle, "@", 0);
      ReplaceFirst(handle, "@", "")
    else ReplaceFirst(handle, "@", "")
  }

  /** The title used when the text yields none: `{handle without @}-{id}`, never empty. */
  function FallbackTitle(t: TweetData): (r: string)
    ensures r != "" && '-' in r
  {
    var r := HandleWithoutAt(t.author.handle) + "-" + t.id;
    assert r[|HandleWithoutAt(t.author.handle)|] == '-';
    r
  }

  /** `^(@\w+\s*)+` matches at the start: an `@` and a word character. */
  predicate MentionAtStart(s: string) {
    |s| >= 2 && s[0] == '@' && IsWordChar(s[1])
  }

  /** `.replace(/^(@\w+\s*)+/, '')`: leading mentions, each with the spaces after it, are dropped. */
  function StripMentions(s: string): (r: string)
    ensures |r| <= |s| && r == s[|s| - |r|..]
    ensures !MentionAtStart(r)
    ensures !MentionAtStart(s) ==> r == s
    decreases |s|
  {
    if MentionAtStart(s) then
      var f := MentionEnd(s);
      var rest := s[f..];
      var r := StripMentions(rest);
      SuffixOfSuffix(s, f, |r|);
      r
    else s
  }

  /** Where the mention at the start of `s` ends, the spaces after it included. */
  function MentionEnd(s: string): (f: nat)
    requires MentionAtStart(s)
    ensures 2 <= f <= |s|
  {
    SpanEnd(s, SpanEnd(s, 1, IsWordChar), IsSpace)
  }

  lemma SuffixOfSuffix(s: string, f: nat, n: nat)
    requires f <= |s| && n <= |s| - f
    ensures s[f..][|s| - f - n..] == s[|s| - n..]
  {
  }

  /**
   * One mention goes with the spaces after it: `@`, the word characters up to
   * the first non-word character, then the spaces up to the first non-space;
   * what follows is stripped in turn.
   */
  lemma StripMentionsDropsMention(w: string, sp: string, rest: string)
    requires w != [] && forall k :: 0 <= k < |w| ==> IsWordChar(w[k])
    requires forall k :: 0 <= k < |sp| ==> IsSpace(sp[k])
    requires rest == [] || (!IsSpace(rest[0]) && (sp == [] ==> !IsWordChar(rest[0])))
    ensures StripMentions(['@'] + w + sp + rest) == StripMentions(rest)
  {
    var s := ['@'] + w + sp + rest;
    var e := 1 + |w|;
    var f := e + |sp|;
    MentionParts(['@'], w, sp, rest);
    StripMentionsUpTo(s, e, f);
  }

  /** The parts of `a + b + c + d`, sliced back out. */
  lemma MentionParts(a: string, b: string, c: string, d: string)
    ensures var s := a + b + c + d;
      s[..|a|] == a && s[|a|..|a| + |b|] == b && s[|a| + |b|..|a| + |b| + |c|] == c && s[|a| + |b| + |c|..] == d
  {
    var s := a + b + c + d;
    assert s[..|a|] == a;
    assert s[|a|..|a| + |b|] == b;
    assert s[|a| + |b|..|a| + |b| + |c|] == c;
    assert s[|a| + |b| + |c|..] == d;
  }

  /** The mention at the start of `s`, its word up to `e` and its spaces up to `f`, is stripped. */
  lemma StripMentionsUpTo(s: string, e: nat, f: nat)
    requires 2 <= e <= f <= |s| && s[0] == '@'
    requires forall k :: 0 <= k < |s[1..e]| ==> IsWordChar(s[1..e][k])
    requires forall k :: 0 <= k < |s[e..f]| ==> IsSpace(s[e..f][k])
    requires f == |s| || (!IsSpace(s[f]) && (e == f ==> !IsWordChar(s[f])))
    ensures MentionAtStart(s) && MentionEnd(s) == f
    ensures StripMentions(s) == StripMentions(s[f..])
  {
    assert IsWordChar(s[1..e][0]);
    forall k | 1 <= k < e ensures IsWordChar(s[k]) {
      assert s[k] == s[1..e][k - 1];
    }
    if e < f {
      assert IsSpace(s[e..f][0]);
    }
    SpanEndIs(s, 1, e, IsWordChar);
    forall k | e <= k < f ensures IsSpace(s[k]) {
      assert s[k] == s[e..f][k - e];
    }
    SpanEndIs(s, e, f, IsSpace);
  }

  /** `https?:\/\/\S+` matches at `i`. */
  predicate UrlAt(s: string, i: nat) {
    (OccursAt(s, "https://", i) && i + 8 < |s| && !IsSpace(s[i + 8]))
    || (OccursAt(s, "http://", i) && i + 7 < |s| && !IsSpace(s[i + 7]))
  }

  /**
   * `.replace(/https?:\/\/\S+/g, '')`: scanning left to right, each link
   * is removed together with every non-space character after it.
   */
  function RemoveUrls(s: string): (r: string)
    ensures |r| <= |s|
    decreases |s|
  {
    if s == [] then []
    else if UrlAt(s, 0) then
      assert s[0] == 'h';
      RemoveUrls(s[SpanEnd(s, 0, IsNotSpace)..])
    else [s[0]] + RemoveUrls(s[1..])
  }

  /** A link seen one character further on. */
  lemma UrlAtShift(s: string, i: nat)
    requires s != [] && UrlAt(s[1..], i)
    ensures UrlAt(s, i + 1)
  {
    if OccursAt(s[1..], "https://", i) {
      assert s[i + 1..i + 9] == s[1..][i..i + 8];
    } else {
      assert s[i + 1..i + 8] == s[1..][i..i + 7];
    }
  }

  /** Text without links is left as it is. */
  lemma {:induction false} RemoveUrlsWithoutLinks(s: string)
    requires forall i: nat :: !UrlAt(s, i)
    ensures RemoveUrls(s) == s
    decreases |s|
  {
    if s != [] {
      forall i: nat ensures !UrlAt(s[1..], i) {
        if UrlAt(s[1..], i) {
          UrlAtShift(s, i);
        }
      }
      RemoveUrlsWithoutLinks(s[1..]);
    }
  }

  /** A link runs up to the next space: it goes, and what follows is cleaned in turn. */
  lemma RemoveUrlsDropsLink(link: string, rest: string)
    requires UrlAt(link, 0) && forall k :: 0 <= k < |link| ==> !IsSpace(link[k])
    requires rest == [] || IsSpace(rest[0])
    ensures RemoveUrls(link + rest) == RemoveUrls(rest)
  {
    var s := link + rest;
    assert UrlAt(s, 0) by {
      if OccursAt(link, "https://", 0) {
        assert s[..8] == link[..8];
      } else {
        assert s[..7] == link[..7];
      }
    }
    forall k | 0 <= k < |link| ensures IsNotSpace(s[k]) {
      assert s[k] == link[k];
    }
    if rest != [] {
      assert s[|link|] == rest[0];
    }
    SpanEndIs(s, 0, |link|, IsNotSpace);
    assert s[|link|..] == rest;
  }

  predicate IsNewline(c: char) { c == '\n' }

  /** Text without newlines is left as it is. */
  lemma {:induction false} CollapseWithoutNewlines(s: string)
    requires '\n' !in s
    ensures CollapseNewlines(s) == s
    decreases |s|
  {
    if s != [] {
      assert s[0] != '\n';
      assert '\n' !in s[1..] by {
        forall k | 0 <= k < |s[1..]| ensures s[1..][k] != '\n' {
          assert s[1..][k] == s[k + 1];
        }
      }
      CollapseWithoutNewlines(s[1..]);
    }
  }

  /**
   * Text up to the first newline is kept, the run of newlines there becomes
   * one space, and what follows the run is collapsed in turn.
   */
  lemma {:induction false} CollapseNewlinesRun(a: string, nl: string, b: string)
    requires '\n' !in a
    requires nl != [] && forall k :: 0 <= k < |nl| ==> nl[k] == '\n'
    requires b == [] || b[0] != '\n'
    ensures CollapseNewlines(a + nl + b) == a + " " + CollapseNewlines(b)
    decreases |a|
  {
    var s := a + nl + b;
    if a == [] {
      assert s == nl + b;
      forall k | 0 <= k < |nl| ensures IsNewline(s[k]) {
        assert s[k] == nl[k];
      }
      if b != [] {
        assert s[|nl|] == b[0];
      }
      SpanEndIs(s, 0, |nl|, IsNewline);
      assert s[|nl|..] == b;
    } else {
      assert s[0] == a[0] && a[0] != '\n';
      assert '\n' !in a[1..] by {
        forall k | 0 <= k < |a[1..]| ensures a[1..][k] != '\n' {
          assert a[1..][k] == a[k + 1];
        }
      }
      CollapseNewlinesRun(a[1..], nl, b);
      assert s[1..] == a[1..] + nl + b;
      assert a == [a[0]] + a[1..];
    }
  }

  /** `.replace(/\n+/g, ' ')`: each run of newlines becomes one space. */
  function CollapseNewlines(s: string): (r: string)
    ensures |r| <= |s| && '\n' !in r
    decreases |s|
  {
    if s == [] then []
    else if s[0] == '\n' then [' '] + CollapseNewlines(s[SpanEnd(s, 0, IsNewline)..])
    else [s[0]] + CollapseNewlines(s[1..])
  }

  /** The characters `.` does not match. */
  predicate IsLineTerminator(c: char) {
    c == '\n' || c == '\r' || c == '\U{2028}' || c == '\U{2029}'
  }

  /** `[.!?。]`. */
  predicate IsSentenceEnd(c: char) {
    c == '.' || c == '!' || c == '?' || c == '\U{3002}'
  }

  /** `^(.+?)[.!?。]\s` matches with the group `s[..k]`. */
  predicate SentenceMatch(s: string, k: nat) {
    1 <= k && k + 1 < |s| && IsSentenceEnd(s[k]) && IsSpace(s[k + 1])
    && forall j :: 0 <= j < k ==> !IsLineTerminator(s[j])
  }

  function FindSentenceFrom(s: string, k: nat): (r: int)
    requires 1 <= k
    requires forall j :: 0 <= j < k - 1 && j < |s| ==> !IsLineTerminator(s[j])
    ensures r == -1 || (k <= r && SentenceMatch(s, r))
    ensures forall j: nat :: k <= j && (r == -1 || j < r) ==> !SentenceMatch(s, j)
    decreases |s| - k
  {
    if k + 1 >= |s| then -1
    else if IsLineTerminator(s[k - 1]) then -1
    else if IsSentenceEnd(s[k]) && IsSpace(s[k + 1]) then k
    else FindSentenceFrom(s, k + 1)
  }

  /** The lazy group: the shortest match, or -1. */
  function FirstSentence(s: string): (r: int)
    ensures r == -1 || (r >= 1 && SentenceMatch(s, r))
    ensures forall j: nat :: j < r || r == -1 ==> !SentenceMatch(s, j)
  {
    FindSentenceFrom(s, 1)
  }

  /** The first sentence replaces the text only when it is at least 10 characters long. */
  function SentencePrefix(s: string): (r: string)
    ensures |r| <= |s| && r == s[..|r|]
    ensures |r| < |s| ==> |r| >= 10 && SentenceMatch(s, |r|) && forall j: nat :: j < |r| ==> !SentenceMatch(s, j)
    ensures forall k: nat :: 10 <= k && SentenceMatch(s, k) && (forall j: nat :: j < k ==> !SentenceMatch(s, j)) ==> r == s[..k]
  {
    var k := FirstSentence(s);
    if k >= 10 then s[..k] else s
  }

  const MaxTitleLength: nat := 50

  /** `.slice(0, 50).replace(/\s\S*$/, '')` for text over 50 characters: cut at 50, then at the last space. */
  function TruncateAtWord(s: string): (r: string)
    ensures |s| <= MaxTitleLength ==> r == s
    ensures |r| <= MaxTitleLength && |r| <= |s| && r == s[..|r|]
    ensures |s| > MaxTitleLength && |r| < MaxTitleLength ==>
      IsSpace(s[|r|]) && forall k :: |r| < k < MaxTitleLength ==> !IsSpace(s[k])
    ensures |s| > MaxTitleLength && |r| == MaxTitleLength ==> forall k :: 0 <= k < MaxTitleLength ==> !IsSpace(s[k])
  {
    if |s| <= MaxTitleLength then s
    else
      var c := s[..MaxTitleLength];
      var i := FindLastChar(c, MaxTitleLength, IsSpace);
      if i < 0 then c else c[..i]
  }

  /** Removed anywhere in the title: ``/\?%*:|"<>#{}[]`^``. */
  const UnsafeTitleChars: set<char> :=
    {'/', '\\', '?', '%', '*', ':', '|', '"', '<', '>', '#', '{', '}', '[', ']', '`', '^'}

  /** Removed at the end of the title: `.,;:-` and the en and em dashes. */
  const TrailingPunctuation: set<char> := {'.', ',', ';', ':', '-', '\U{2013}', '\U{2014}'}

  /** `.replace(/[...]+$/, '')`: the longest run of characters from `cs` at the end goes. */
  function TrimEndChars(s: string, cs: set<char>): (r: string)
    ensures |r| <= |s| && r == s[..|r|]
    ensures r == [] || r[|r| - 1] !in cs
    ensures forall k :: |r| <= k < |s| ==> s[k] in cs
    decreases |s|
  {
    if s != [] && s[|s| - 1] in cs then TrimEndChars(s[..|s| - 1], cs) else s
  }

  /** Every character of a prefix of `s` is a character of `s`. */
  lemma PrefixCharsIn(s: string, r: string)
    requires |r| <= |s| && r == s[..|r|]
    ensures forall k :: 0 <= k < |r| ==> r[k] in s
  {
    forall k | 0 <= k < |r| ensures r[k] in s {
      assert r[k] == s[k];
    }
  }

  /**
   * The cleaning after the checks for empty text: first sentence, cut to
   * 50 characters, unsafe characters removed, trailing punctuation removed.
   */
  function Polish(cleaned: string): (r: string)
    ensures |r| <= MaxTitleLength && Trimmed(r)
    ensures forall k :: 0 <= k < |r| ==> r[k] !in UnsafeTitleChars
  {
    var cut := TruncateAtWord(SentencePrefix(cleaned));
    var safe := Trim(RemoveChars(cut, UnsafeTitleChars));
    TrimCharsIn(RemoveChars(cut, UnsafeTitleChars));
    var bare := TrimEndChars(safe, TrailingPunctuation);
    PrefixCharsIn(safe, bare);
    TrimCharsIn(bare);
    Trim(bare)
  }

  /**
   * `generateTitle` up to its fallbacks: `None` when the trimmed text is
   * empty, when nothing is left once mentions, links and newlines are dealt
   * with, or when nothing is left after cleaning.
   */
  function CleanTitle(text: string): (r: Option<string>)
    ensures r.Some? ==> r.value != "" && |r.value| <= MaxTitleLength && Trimmed(r.value)
    ensures r.Some? ==> forall k :: 0 <= k < |r.value| ==> r.value[k] !in UnsafeTitleChars
    ensures Trim(text) == "" ==> r.None?
  {
    var raw := Trim(text);
    if raw == "" then None
    else
      var cleaned := Trim(CollapseNewlines(RemoveUrls(StripMentions(raw))));
      if cleaned == "" then None
      else
        var t := Polish(cleaned);
        if t == "" then None else Some(t)
  }

  /** `generateTitle`: never empty. */
  function Title(t: TweetData): (r: string)
    ensures r != ""
    ensures CleanTitle(t.text).None? ==> r == FallbackTitle(t)
    ensures CleanTitle(t.text).Some? ==> |r| <= MaxTitleLength && forall k :: 0 <= k < |r| ==> r[k] !in UnsafeTitleChars
  {
    match CleanTitle(t.text)
    case Some(c) => c
    case None => FallbackTitle(t)
  }

  /** The cleaning steps of `generateTitle` after the first fallback, with `cleaned` reassigned step by step. */
  method PolishTitle(stripped: string) returns (cleaned: string)
    ensures cleaned == Polish(stripped)
  {
    cleaned := stripped;
    var first := FirstSentence(cleaned);
    if first >= 10 {
      cleaned := cleaned[..first];
    }
    assert cleaned == SentencePrefix(stripped);
    if |cleaned| > MaxTitleLength {
      cleaned := cleaned[..MaxTitleLength];
      var i := FindLastChar(cleaned, |cleaned|, IsSpace);
      if i >= 0 {
        cleaned := cleaned[..i];
      }
    }
    assert cleaned == TruncateAtWord(SentencePrefix(stripped));
    cleaned := Trim(RemoveChars(cleaned, UnsafeTitleChars));
    cleaned := Trim(TrimEndChars(cleaned, TrailingPunctuation));
  }

  /** `generateTitle`. */
  method GenerateTitle(t: TweetData) returns (title: string)
    ensures title == Title(t)
  {
    var raw := Trim(t.text);
    if raw == "" {
      return FallbackTitle(t);
    }
    var cleaned := StripMentions(raw);
    cleaned := RemoveUrls(cleaned);
    cleaned := CollapseNewlines(cleaned);
    cleaned := Trim(cleaned);
    if cleaned == "" {
      return FallbackTitle(t);
    }
    cleaned := PolishTitle(cleaned);
    if cleaned == "" {
      return FallbackTitle(t);
    }
    title := cleaned;
  }

  // ---------------------------------------------------------------- generateFileName

  /** Replaced by `-` in the author's name. */
  const UnsafeNameChars: set<char> := {'/', '\\', '?', '%', '*', ':', '|', '"', '<', '>'}

  /** `timestamp.split('T')[0]`. */
  function DatePart(timestamp: string): (r: string)
    ensures 'T' !in r && |r| <= |timestamp| && r == timestamp[..|r|]
    ensures |r| < |timestamp| ==> timestamp[|r|] == 'T'
  {
    FirstSegment(timestamp, 'T')
  }

  /** `name.replace(/[/\\?%*:|"<>]/g, '-')`. */
  function SafeName(name: string): (r: string)
    ensures |r| == |name|
    ensures forall k :: 0 <= k < |r| ==> r[k] !in UnsafeNameChars
    ensures forall k :: 0 <= k < |r| && name[k] !in UnsafeNameChars ==> r[k] == name[k]
  {
    ReplaceChars(name, UnsafeNameChars, '-')
  }

  /** `generateFileName`: the first of each placeholder, in this order, replaced by its value. */
  function GenerateFileName(t: TweetData, template: string): string {
    var withTitle := ReplaceFirst(template, "{{title}}", Title(t));
    var withHandle := ReplaceFirst(withTitle, "{{handle}}", HandleWithoutAt(t.author.handle));
    var withId := ReplaceFirst(withHandle, "{{id}}", t.id);
    var withDate := ReplaceFirst(withId, "{{date}}", DatePart(t.timestamp));
    ReplaceFirst(withDate, "{{name}}", SafeName(t.author.name))
  }

  /** Each placeholder starts with `{`: a string without `{` is left alone by the later replacements. */
  lemma LaterPlaceholdersAbsent(s: string, t: TweetData)
    requires '{' !in s
    ensures var withHandle := ReplaceFirst(s, "{{handle}}", HandleWithoutAt(t.author.handle));
      var withId := ReplaceFirst(withHandle, "{{id}}", t.id);
      var withDate := ReplaceFirst(withId, "{{date}}", DatePart(t.timestamp));
      ReplaceFirst(withDate, "{{name}}", SafeName(t.author.name)) == s
  {
    MissingCharNotContained(s, "{{handle}}", 0);
    MissingCharNotContained(s, "{{id}}", 0);
    MissingCharNotContained(s, "{{date}}", 0);
    MissingCharNotContained(s, "{{name}}", 0);
  }

  /** A template holding none of the five placeholders is the file name itself. */
  lemma FileNameWithoutPlaceholders(t: TweetData, template: string)
    requires !Contains(template, "{{title}}") && !Contains(template, "{{handle}}") && !Contains(template, "{{id}}")
    requires !Contains(template, "{{date}}") && !Contains(template, "{{name}}")
    ensures GenerateFileName(t, template) == template
  {
    var withTitle := ReplaceFirst(template, "{{title}}", Title(t));
    assert withTitle == template;
    var withHandle := ReplaceFirst(withTitle, "{{handle}}", HandleWithoutAt(t.author.handle));
    assert withHandle == template;
    var withId := ReplaceFirst(withHandle, "{{id}}", t.id);
    assert withId == template;
    var withDate := ReplaceFirst(withId, "{{date}}", DatePart(t.timestamp));
    assert withDate == template;
  }

  /** In particular, a template without any `{` is the file name itself. */
  lemma FileNameWithoutBraces(t: TweetData, template: string)
    requires '{' !in template
    ensures GenerateFileName(t, template) == template
  {
    MissingCharNotContained(template, "{{title}}", 0);
    MissingCharNotContained(template, "{{handle}}", 0);
    MissingCharNotContained(template, "{{id}}", 0);
    MissingCharNotContained(template, "{{date}}", 0);
    MissingCharNotContained(template, "{{name}}", 0);
    FileNameWithoutPlaceholders(t, template);
  }

  /** With the default template the file name is the title, whenever the title comes from the text. */
  lemma DefaultFileNameIsTitle(t: TweetData)
    requires CleanTitle(t.text).Some?
    ensures GenerateFileName(t, DefaultSettings.fileNameTemplate) == Title(t)
  {
    ReplaceWhole("{{title}}", Title(t));
    assert '{' in UnsafeTitleChars;
    LaterPlaceholdersAbsent(Title(t), t);
  }

  // ---------------------------------------------------------------- formatTweetAsMarkdown

  /** The metric lines are written only when enabled and the post has metrics. */
  predicate ShowsMetrics(t: TweetData, s: ExtensionSettings) {
    s.includeMetrics && t.metrics.Some?
  }

  const Fence: string := "---"

  /** A front matter entry whose value is in double quotes. */
  function QuotedEntry(key: string, value: string): string {
    key + ": \"" + value + "\""
  }

  /** A front matter entry whose value is written as is. */
  function PlainEntry(key: string, value: string): string {
    key + ": " + value
  }

  /** The entries every front matter has, after the opening fence. */
  function BaseEntries(t: TweetData, date: string): seq<string> {
    [QuotedEntry("author", t.author.name), QuotedEntry("handle", t.author.handle),
     QuotedEntry("source", t.url), PlainEntry("date", date), "type: tweet"]
  }

  function MetricEntries(m: Metrics): seq<string> {
    [PlainEntry("likes", m.likes), PlainEntry("reposts", m.reposts), PlainEntry("replies", m.replies)]
  }

  /** The front matter block, the fences included, and the blank line after it. */
  function FrontMatter(t: TweetData, s: ExtensionSettings, date: string): (r: seq<string>)
    ensures |r| == if ShowsMetrics(t, s) then 11 else 8
    ensures r[0] == Fence && r[|r| - 2] == Fence && r[|r| - 1] == ""
    ensures r[1..6] == BaseEntries(t, date)
    ensures ShowsMetrics(t, s) ==> r[6..9] == MetricEntries(t.metrics.value)
    ensures !ShowsMetrics(t, s) ==> r[6] == Fence
  {
    [Fence] + BaseEntries(t, date)
    + (if ShowsMetrics(t, s) then MetricEntries(t.metrics.value) else [])
    + [Fence, ""]
  }

  function HeadingLine(a: Author): string {
    "# " + a.name + " (" + a.handle + ")"
  }

  function InfoLine(t: TweetData, date: string): string {
    "> [!info] [Original Post](" + t.url + ") | " + date
  }

  function Header(t: TweetData, date: string): seq<string> {
    [HeadingLine(t.author), "", InfoLine(t, date), ""]
  }

  /** `![Image n](url)`. */
  function ImageLine(n: nat, url: string): string {
    "![Image " + NatToString(n) + "](" + url + ")"
  }

  /** One line per image, numbered from 1 in order. */
  function ImageLines(images: seq<string>): (r: seq<string>)
    ensures |r| == |images|
    ensures forall i :: 0 <= i < |images| ==> r[i] == ImageLine(i + 1, images[i])
  {
    seq(|images|, i requires 0 <= i < |images| => ImageLine(i + 1, images[i]))
  }

  /** The image block: present exactly when enabled and the post has images. */
  function ImageBlock(t: TweetData, s: ExtensionSettings): (r: seq<string>)
    ensures r != [] <==> s.includeImages && |t.images| > 0
    ensures r != [] ==> |r| == |t.images| + 1 && r[|t.images|] == ""
    ensures r != [] ==> forall i :: 0 <= i < |t.images| ==> r[i] == ImageLine(i + 1, t.images[i])
  {
    if s.includeImages && |t.images| > 0 then ImageLines(t.images) + [""] else []
  }

  /** `if (tweet.video.thumbnailUrl)`: a thumbnail that is present and non-empty. */
  predicate HasThumbnail(v: Video) {
    v.thumbnailUrl.Some? && v.thumbnailUrl.value != ""
  }

  const VideoCallout: string := "> [!tip] Video"
  const QuoteCallout: string := "> [!quote] Quoted Tweet"

  function ThumbnailLine(v: Video): string
    requires HasThumbnail(v)
  {
    "> ![Video thumbnail](" + v.thumbnailUrl.value + ")"
  }

  function WatchLine(t: TweetData): string {
    "> [Watch on X](" + t.url + ")"
  }

  function QuotedAuthorLine(q: TweetData): string {
    "> **" + q.author.name + "** (" + q.author.handle + ")"
  }

  function QuotedTextLine(q: TweetData): string {
    "> " + q.text
  }

  function OriginalLine(q: TweetData): string {
    "> [Original](" + q.url + ")"
  }

  /** The video block: present exactly when the post has a video, its thumbnail line exactly when it has a thumbnail. */
  function VideoBlock(t: TweetData): (r: seq<string>)
    ensures r != [] <==> t.video.Some?
    ensures t.video.Some? ==> |r| == (if HasThumbnail(t.video.value) then 4 else 3) && r[0] == VideoCallout
    ensures t.video.Some? && HasThumbnail(t.video.value) ==> r[1] == ThumbnailLine(t.video.value)
    ensures t.video.Some? ==> r[|r| - 2] == WatchLine(t) && r[|r| - 1] == ""
  {
    if t.video.None? then []
    else if HasThumbnail(t.video.value) then [VideoCallout, ThumbnailLine(t.video.value), WatchLine(t), ""]
    else [VideoCallout, WatchLine(t), ""]
  }

  /** The quote block: present exactly when the post quotes another, its link line exactly when the quote's url is non-empty. */
  function QuoteBlock(t: TweetData): (r: seq<string>)
    ensures r != [] <==> t.quoteTweet.Some?
    ensures t.quoteTweet.Some? ==> |r| == (if t.quoteTweet.value.url != "" then 5 else 4) && r[|r| - 1] == ""
    ensures t.quoteTweet.Some? ==>
      r[..3] == [QuoteCallout, QuotedAuthorLine(t.quoteTweet.value), QuotedTextLine(t.quoteTweet.value)]
    ensures t.quoteTweet.Some? && t.quoteTweet.value.url != "" ==> r[3] == OriginalLine(t.quoteTweet.value)
  {
    if t.quoteTweet.None? then []
    else
      var q := t.quoteTweet.value;
      if q.url != "" then [QuoteCallout, QuotedAuthorLine(q), QuotedTextLine(q), OriginalLine(q), ""]
      else [QuoteCallout, QuotedAuthorLine(q), QuotedTextLine(q), ""]
  }

  /** The lines of the document, in order. */
  function DocumentLines(t: TweetData, s: ExtensionSettings, date: string): seq<string> {
    FrontMatter(t, s, date) + Header(t, date) + [t.text, ""] + ImageBlock(t, s) + VideoBlock(t) + QuoteBlock(t)
  }

  /** The YAML front matter section of `formatTweetAsMarkdown`, pushed line by line. */
  method PushFrontMatter(lines: seq<string>, t: TweetData, s: ExtensionSettings, date: string)
    returns (out: seq<string>)
    ensures out == lines + FrontMatter(t, s, date)
  {
    out := lines + [Fence];
    out := out + [QuotedEntry("author", t.author.name)];
    out := out + [QuotedEntry("handle", t.author.handle)];
    out := out + [QuotedEntry("source", t.url)];
    out := out + [PlainEntry("date", date)];
    out := out + ["type: tweet"];
    assert out == lines + ([Fence] + BaseEntries(t, date));
    ghost var base := out;
    if s.includeMetrics && t.metrics.Some? {
      var m := t.metrics.value;
      out := out + [PlainEntry("likes", m.likes)];
      out := out + [PlainEntry("reposts", m.reposts)];
      out := out + [PlainEntry("replies", m.replies)];
      assert out == base + MetricEntries(m);
    }
    out := out + [Fence];
    out := out + [""];
  }

  /** The header and body sections of `formatTweetAsMarkdown`. */
  method PushHeaderAndBody(lines: seq<string>, t: TweetData, date: string) returns (out: seq<string>)
    ensures out == lines + Header(t, date) + [t.text, ""]
  {
    out := lines + [HeadingLine(t.author)];
    out := out + [""];
    out := out + [InfoLine(t, date)];
    out := out + [""];
    out := out + [t.text];
    out := out + [""];
  }

  /** The images section of `formatTweetAsMarkdown`: one numbered line per image, then a blank line. */
  method PushImages(lines: seq<string>, t: TweetData, s: ExtensionSettings) returns (out: seq<string>)
    ensures out == lines + ImageBlock(t, s)
  {
    out := lines;
    if s.includeImages && |t.images| > 0 {
      for i := 0 to |t.images|
        invariant out == lines + ImageLines(t.images[..i])
      {
        assert ImageLines(t.images[..i + 1]) == ImageLines(t.images[..i]) + [ImageLine(i + 1, t.images[i])];
        out := out + [ImageLine(i + 1, t.images[i])];
      }
      assert t.images[..|t.images|] == t.images;
      out := out + [""];
    }
  }

  /** The video section of `formatTweetAsMarkdown`. */
  method PushVideo(lines: seq<string>, t: TweetData) returns (out: seq<string>)
    ensures out == lines + VideoBlock(t)
  {
    out := lines;
    if t.video.Some? {
      var v := t.video.value;
      out := out + [VideoCallout];
      if HasThumbnail(v) {
        out := out + [ThumbnailLine(v)];
      }
      out := out + [WatchLine(t)];
      out := out + [""];
    }
  }

  /** The quote section of `formatTweetAsMarkdown`. */
  method PushQuote(lines: seq<string>, t: TweetData) returns (out: seq<string>)
    ensures out == lines + QuoteBlock(t)
  {
    out := lines;
    if t.quoteTweet.Some? {
      var q := t.quoteTweet.value;
      out := out + [QuoteCallout];
      out := out + [QuotedAuthorLine(q)];
      out := out + [QuotedTextLine(q)];
      if q.url != "" {
        out := out + [OriginalLine(q)];
      }
      out := out + [""];
    }
  }

  /** `formatTweetAsMarkdown`: the sections pushed in order, the lines joined with newlines. */
  method FormatTweetAsMarkdown(t: TweetData, s: ExtensionSettings, d: DateParts) returns (doc: string)
    ensures doc == Join(DocumentLines(t, s, FormatDate(s.dateFormat, d)), '\n')
  {
    var date := FormatDate(s.dateFormat, d);
    var lines := PushFrontMatter([], t, s, date);
    assert lines == FrontMatter(t, s, date);
    lines := PushHeaderAndBody(lines, t, date);
    lines := PushImages(lines, t, s);
    lines := PushVideo(lines, t);
    lines := PushQuote(lines, t);
    assert lines == DocumentLines(t, s, date);
    doc := Join(lines, '\n');
  }

  /** A line between non-empty runs of lines stands on a line of its own in their join. */
  lemma JoinedLineStandsAlone(pre: seq<string>, line: string, post: seq<string>)
    requires pre != [] && post != []
    ensures Contains(Join(pre + [line] + post, '\n'), "\n" + line + "\n")
  {
    assert pre + [line] + post == pre + ([line] + post);
    JoinAppend(pre, [line] + post, '\n');
    JoinAppend([line], post, '\n');
    var framed := "\n" + line + "\n";
    assert Join(pre + [line] + post, '\n') == Join(pre, '\n') + (framed + Join(post, '\n'));
    assert OccursAt(framed + Join(post, '\n'), framed, 0);
    OccursAfter(Join(pre, '\n'), framed + Join(post, '\n'), framed, 0);
  }

  /** A join of two or more lines starts with the first line and a newline. */
  lemma JoinStartsWithFirst(lines: seq<string>)
    requires |lines| >= 2
    ensures StartsWith(Join(lines, '\n'), lines[0] + "\n")
  {
    assert lines == [lines[0]] + lines[1..];
    JoinAppend([lines[0]], lines[1..], '\n');
    assert Join(lines, '\n')[..|lines[0]| + 1] == lines[0] + "\n";
  }

  /** The document opens with the front matter's fence line. */
  lemma DocumentOpensWithFence(t: TweetData, s: ExtensionSettings, date: string)
    ensures StartsWith(Join(DocumentLines(t, s, date), '\n'), Fence + "\n")
  {
    var fm := FrontMatter(t, s, date);
    var lines := DocumentLines(t, s, date);
    assert lines[0] == fm[0] == Fence;
    JoinStartsWithFirst(lines);
  }

  /** The post's text stands on a line of its own in the document. */
  lemma DocumentHoldsText(t: TweetData, s: ExtensionSettings, date: string)
    ensures Contains(Join(DocumentLines(t, s, date), '\n'), "\n" + t.text + "\n")
  {
    var pre := FrontMatter(t, s, date) + Header(t, date);
    var post := [""] + ImageBlock(t, s) + VideoBlock(t) + QuoteBlock(t);
    assert DocumentLines(t, s, date) == pre + [t.text] + post;
    JoinedLineStandsAlone(pre, t.text, post);
  }
}
