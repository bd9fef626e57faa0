/**
 * The JavaScript string operations the extension relies on, written out as
 * functions on `seq<char>`: `indexOf`, `includes`, `startsWith`, a `replace`
 * with a plain-string pattern (first occurrence only), `trim`, `split`,
 * `padStart` and number-to-decimal rendering. Character classes of the
 * regular expressions (`\s`, `\w`, `\d`) are the ASCII ones.
 */
module JsStrings {

  /** `pat` sits in `s` at index `i`. */
  predicate OccursAt(s: string, pat: string, i: int) {
    0 <= i && i + |pat| <= |s| && s[i..i + |pat|] == pat
  }

  /** `s.startsWith(pat)`. */
  predicate StartsWith(s: string, pat: string) {
    OccursAt(s, pat, 0)
  }

  /** `s.includes(pat)`. */
  predicate Contains(s: string, pat: string) {
    exists i | 0 <= i <= |s| - |pat| :: OccursAt(s, pat, i)
  }

  /** `s.indexOf(pat, from)`: the first index at or after `from` where `pat` occurs, or -1. */
  function IndexOfFrom(s: string, pat: string, from: nat): (r: int)
    ensures r == -1 || (from <= r && OccursAt(s, pat, r))
    ensures forall j :: from <= j && (r == -1 || j < r) ==> !OccursAt(s, pat, j)
    decreases |s| - from
  {
    if from + |pat| > |s| then -1
    else if s[from..from + |pat|] == pat then from
    else IndexOfFrom(s, pat, from + 1)
  }

  /** `s.indexOf(pat)`. */
  function IndexOf(s: string, pat: string): (r: int)
    ensures r == -1 <==> !Contains(s, pat)
    ensures r >= 0 ==> OccursAt(s, pat, r) && forall j :: 0 <= j < r ==> !OccursAt(s, pat, j)
  {
    IndexOfFrom(s, pat, 0)
  }

  /**
   * `s.replace(pat, rep)` with a string pattern: only the first occurrence is
   * replaced. The replacement is inserted literally (`$` patterns are not
   * expanded).
   */
  function ReplaceFirst(s: string, pat: string, rep: string): (r: string)
    ensures !Contains(s, pat) ==> r == s
  {
    var i := IndexOf(s, pat);
    if i < 0 then s else Splice(s, i, |pat|, rep)
  }

  /** `s` with the `n` characters at `i` replaced by `rep`. */
  function Splice(s: string, i: nat, n: nat, rep: string): (r: string)
    requires i + n <= |s|
  {
    s[..i] + rep + s[i + n..]
  }

  lemma SpliceAfterPrefix(a: string, b: string, i: nat, n: nat, rep: string)
    requires i + n <= |b|
    ensures Splice(a + b, |a| + i, n, rep) == a + Splice(b, i, n, rep)
  {
    assert (a + b)[..|a| + i] == a + b[..i];
    assert (a + b)[|a| + i + n..] == b[i + n..];
  }

  /** A character that cannot start `pat` can be skipped over by the search. */
  lemma IndexOfSkipsPrefix(a: string, b: string, pat: string)
    requires |pat| > 0 && pat[0] !in a
    ensures IndexOf(a + b, pat) == if IndexOf(b, pat) < 0 then -1 else |a| + IndexOf(b, pat)
  {
    var s := a + b;
    forall j | 0 <= j < |a| ensures !OccursAt(s, pat, j) {
      if j + |pat| <= |s| {
        assert s[j..j + |pat|][0] == a[j];
      }
    }
    forall j | |a| <= j ensures OccursAt(s, pat, j) == OccursAt(b, pat, j - |a|) {
      if j + |pat| <= |s| {
        assert s[j..j + |pat|] == b[j - |a|..j - |a| + |pat|];
      }
    }
    var ib := IndexOf(b, pat);
    if ib >= 0 {
      IndexOfIsFirst(s, pat, |a| + ib);
    } else {
      IndexOfNone(s, pat);
    }
  }

  /** An occurrence with none before it is the one `indexOf` reports. */
  lemma IndexOfIsFirst(s: string, pat: string, i: int)
    requires OccursAt(s, pat, i)
    requires forall j :: 0 <= j < i ==> !OccursAt(s, pat, j)
    ensures IndexOf(s, pat) == i
  {
  }

  lemma IndexOfNone(s: string, pat: string)
    requires forall j :: 0 <= j ==> !OccursAt(s, pat, j)
    ensures IndexOf(s, pat) == -1
  {
  }

  /** An occurrence in `b` is an occurrence in `a + b`, shifted by `|a|`. */
  lemma OccursAfter(a: string, b: string, pat: string, i: nat)
    requires OccursAt(b, pat, i)
    ensures OccursAt(a + b, pat, |a| + i)
  {
    assert (a + b)[|a| + i..|a| + i + |pat|] == b[i..i + |pat|];
  }

  /** Replacing a whole string by itself yields the replacement. */
  lemma ReplaceWhole(pat: string, rep: string)
    ensures ReplaceFirst(pat, pat, rep) == rep
  {
    assert OccursAt(pat, pat, 0);
    IndexOfIsFirst(pat, pat, 0);
    assert pat[..0] + rep + pat[|pat|..] == rep;
  }

  /** Replacing in `a + b` leaves `a` alone when `a` cannot hold the start of the pattern. */
  lemma ReplaceFirstSkipsPrefix(a: string, b: string, pat: string, rep: string)
    requires |pat| > 0 && pat[0] !in a
    ensures ReplaceFirst(a + b, pat, rep) == a + ReplaceFirst(b, pat, rep)
  {
    IndexOfSkipsPrefix(a, b, pat);
    var ib := IndexOf(b, pat);
    if ib >= 0 {
      SpliceAfterPrefix(a, b, ib, |pat|, rep);
    }
  }

  /** A string that begins with the pattern has that beginning replaced. */
  lemma ReplaceAtStart(pat: string, rest: string, rep: string)
    ensures ReplaceFirst(pat + rest, pat, rep) == rep + rest
  {
    var s := pat + rest;
    assert s[..|pat|] == pat;
    assert OccursAt(s, pat, 0);
    IndexOfIsFirst(s, pat, 0);
    assert s[|pat|..] == rest;
  }

  /** A string lacking some character of `pat` does not contain `pat`. */
  lemma MissingCharNotContained(s: string, pat: string, k: nat)
    requires k < |pat| && pat[k] !in s
    ensures !Contains(s, pat)
  {
  }

  // ---------------------------------------------------------------- characters

  /** `\s`, restricted to ASCII. */
  predicate IsSpace(c: char) {
    c == ' ' || c == '\t' || c == '\n' || c == '\r' || c == '\U{000B}' || c == '\U{000C}'
  }

  predicate IsNotSpace(c: char) {
    !IsSpace(c)
  }

  /** `\d`. */
  predicate IsDigit(c: char) {
    '0' <= c <= '9'
  }

  /** `\w`. */
  predicate IsWordChar(c: char) {
    'a' <= c <= 'z' || 'A' <= c <= 'Z' || IsDigit(c) || c == '_'
  }

  /** The end of the longest run of characters satisfying `p` that starts at `i`. */
  function SpanEnd(s: string, i: nat, p: char -> bool): (j: nat)
    requires i <= |s|
    ensures i <= j <= |s|
    ensures forall k :: i <= k < j ==> p(s[k])
    ensures j == |s| || !p(s[j])
    decreases |s| - i
  {
    if i < |s| && p(s[i]) then SpanEnd(s, i + 1, p) else i
  }

  /** A run that is maximal is the one `SpanEnd` finds. */
  lemma {:induction false} SpanEndIs(s: string, i: nat, j: nat, p: char -> bool)
    requires i <= j <= |s|
    requires forall k :: i <= k < j ==> p(s[k])
    requires j == |s| || !p(s[j])
    ensures SpanEnd(s, i, p) == j
    decreases j - i
  {
    if i < j {
      SpanEndIs(s, i + 1, j, p);
    }
  }

  /** A run of characters satisfying `p` from `i` to `j` lies within the maximal one. */
  lemma {:induction false} SpanEndAtLeast(s: string, i: nat, j: nat, p: char -> bool)
    requires i <= j <= |s|
    requires forall k :: i <= k < j ==> p(s[k])
    ensures SpanEnd(s, i, p) >= j
    decreases j - i
  {
    if i < j {
      SpanEndAtLeast(s, i + 1, j, p);
    }
  }

  /** The first index at or after `i` whose character satisfies `p`, or -1. */
  function FindChar(s: string, i: nat, p: char -> bool): (r: int)
    ensures r == -1 || (i <= r < |s| && p(s[r]))
    ensures forall k :: i <= k < |s| && (r == -1 || k < r) ==> !p(s[k])
    decreases |s| - i
  {
    if i >= |s| then -1 else if p(s[i]) then i else FindChar(s, i + 1, p)
  }

  /** `s.indexOf(c, i)` for a single character `c`. */
  function CharIndex(s: string, c: char, i: nat): (r: int)
    ensures r == -1 || (i <= r < |s| && s[r] == c)
    ensures forall k :: i <= k < |s| && (r == -1 || k < r) ==> s[k] != c
    decreases |s| - i
  {
    if i >= |s| then -1 else if s[i] == c then i else CharIndex(s, c, i + 1)
  }

  /** The last index below `n` whose character satisfies `p`, or -1. */
  function FindLastChar(s: string, n: nat, p: char -> bool): (r: int)
    requires n <= |s|
    ensures r == -1 || (0 <= r < n && p(s[r]))
    ensures forall k :: r < k < n ==> !p(s[k])
  {
    if n == 0 then -1 else if p(s[n - 1]) then n - 1 else FindLastChar(s, n - 1, p)
  }

  // ---------------------------------------------------------------- trim

  /** No whitespace at either end. */
  predicate Trimmed(s: string) {
    s == [] || (!IsSpace(s[0]) && !IsSpace(s[|s| - 1]))
  }

  function TrimStart(s: string): (r: string)
    ensures |r| <= |s| && r == s[|s| - |r|..]
    ensures r == [] || !IsSpace(r[0])
    ensures s == [] || !IsSpace(s[0]) ==> r == s
  {
    if s != [] && IsSpace(s[0]) then TrimStart(s[1..]) else s
  }

  function TrimEnd(s: string): (r: string)
    ensures |r| <= |s| && r == s[..|r|]
    ensures r == [] || !IsSpace(r[|r| - 1])
    ensures s == [] || !IsSpace(s[|s| - 1]) ==> r == s
  {
    if s != [] && IsSpace(s[|s| - 1]) then TrimEnd(s[..|s| - 1]) else s
  }

  /** `s.trim()`: the result is a slice of `s` without surrounding whitespace; trimmed input is kept. */
  function Trim(s: string): (r: string)
    ensures |r| <= |s|
    ensures Trimmed(r)
    ensures Trimmed(s) ==> r == s
  {
    TrimEnd(TrimStart(s))
  }

  /** Trimming only removes characters. */
  lemma TrimCharsIn(s: string)
    ensures forall k :: 0 <= k < |Trim(s)| ==> Trim(s)[k] in s
  {
    var t := TrimStart(s);
    SliceCharsIn(s, |s| - |t|, Trim(s));
  }

  /** One space in front of a trimmed, non-empty string is trimmed away. */
  lemma TrimLeadingSpace(t: string)
    requires Trimmed(t) && t != []
    ensures Trim(" " + t) == t
  {
    assert (" " + t)[1..] == t;
    assert TrimStart(" " + t) == TrimStart(t) == t;
  }

  /** Every character of a slice of `s` is a character of `s`. */
  lemma SliceCharsIn(s: string, off: nat, r: string)
    requires off + |r| <= |s| && r == s[off..off + |r|]
    ensures forall k :: 0 <= k < |r| ==> r[k] in s
  {
    forall k | 0 <= k < |r| ensures r[k] in s {
      assert r[k] == s[off + k];
    }
  }

  // ---------------------------------------------------------------- split

  /** `s.split(sep)` for a one-character separator: always at least one piece. */
  function Split(s: string, sep: char): (parts: seq<string>)
    ensures |parts| >= 1
    ensures forall k :: 0 <= k < |parts| ==> sep !in parts[k]
    decreases |s|
  {
    var i := CharIndex(s, sep, 0);
    if i < 0 then [s] else [s[..i]] + Split(s[i + 1..], sep)
  }

  /** A string without the separator is a single piece. */
  lemma SplitWithoutSep(s: string, sep: char)
    requires sep !in s
    ensures Split(s, sep) == [s]
  {
    assert CharIndex(s, sep, 0) == -1;
  }

  /** The first separator ends the first piece. */
  lemma SplitAtFirstSep(a: string, sep: char, b: string)
    requires sep !in a
    ensures Split(a + [sep] + b, sep) == [a] + Split(b, sep)
  {
    var s := a + [sep] + b;
    assert s[|a|] == sep;
    assert forall k :: 0 <= k < |a| ==> s[k] == a[k];
    assert CharIndex(s, sep, 0) == |a|;
    assert s[..|a|] == a && s[|a| + 1..] == b;
  }

  /** `parts.join(sep)`. */
  function Join(parts: seq<string>, sep: char): string {
    if parts == [] then ""
    else if |parts| == 1 then parts[0]
    else parts[0] + [sep] + Join(parts[1..], sep)
  }

  /** Joining two non-empty lists of pieces puts one separator between their joins. */
  lemma {:induction false} JoinAppend(a: seq<string>, b: seq<string>, sep: char)
    requires a != [] && b != []
    ensures Join(a + b, sep) == Join(a, sep) + [sep] + Join(b, sep)
    decreases |a|
  {
    if |a| == 1 {
      assert (a + b)[1..] == b;
    } else {
      assert (a + b)[1..] == a[1..] + b;
      JoinAppend(a[1..], b, sep);
    }
  }

  /** Splitting and joining on the same separator gives the string back. */
  lemma {:induction false} SplitJoin(s: string, sep: char)
    ensures Join(Split(s, sep), sep) == s
    decreases |s|
  {
    var i := CharIndex(s, sep, 0);
    if i >= 0 {
      SplitJoin(s[i + 1..], sep);
      assert s == s[..i] + [sep] + s[i + 1..];
    }
  }

  /** `s.split(sep).pop()`: whatever follows the last separator, or all of `s`. */
  function LastSegment(s: string, sep: char): (r: string)
    ensures sep !in r
    ensures |r| <= |s| && r == s[|s| - |r|..]
    ensures |r| < |s| ==> s[|s| - |r| - 1] == sep
    decreases |s|
  {
    var i := CharIndex(s, sep, 0);
    if i < 0 then s
    else
      var r := LastSegment(s[i + 1..], sep);
      assert s[i + 1..][|s[i + 1..]| - |r|..] == s[|s| - |r|..];
      r
  }

  /** `s.split(sep)[0]`: everything before the first separator. */
  function FirstSegment(s: string, sep: char): (r: string)
    ensures sep !in r
    ensures |r| <= |s| && r == s[..|r|]
    ensures |r| < |s| ==> s[|r|] == sep
    ensures r == Split(s, sep)[0]
  {
    var i := CharIndex(s, sep, 0);
    if i < 0 then s else s[..i]
  }

  // ---------------------------------------------------------------- characters in sets

  /** The characters of `s`, each one in `bad`, replaced by `rep`: `s.replace(/[...]/g, rep)` for a one-character `rep`. */
  function ReplaceChars(s: string, bad: set<char>, rep: char): (r: string)
    ensures |r| == |s|
    ensures forall k :: 0 <= k < |s| ==> r[k] == if s[k] in bad then rep else s[k]
  {
    if s == [] then [] else [if s[0] in bad then rep else s[0]] + ReplaceChars(s[1..], bad, rep)
  }

  /** The characters of `s` not in `bad`, in order: `s.replace(/[...]/g, '')`. */
  function RemoveChars(s: string, bad: set<char>): (r: string)
    ensures |r| <= |s|
    ensures forall k :: 0 <= k < |r| ==> r[k] !in bad && r[k] in s
  {
    if s == [] then []
    else
      var rest := RemoveChars(s[1..], bad);
      assert forall k :: 0 <= k < |rest| ==> rest[k] in s;
      if s[0] in bad then rest else [s[0]] + rest
  }

  // ---------------------------------------------------------------- numbers

  function DigitChar(d: nat): char
    requires d < 10
  {
    "0123456789"[d]
  }

  /** The numeric value of a string of decimal digits. */
  function DigitsValue(s: string): nat
    requires forall k :: 0 <= k < |s| ==> IsDigit(s[k])
  {
    if s == [] then 0
    else
      assert IsDigit(s[|s| - 1]);
      10 * DigitsValue(s[..|s| - 1]) + (s[|s| - 1] as int - '0' as int)
  }

  /** `n.toString()` for a natural number: decimal digits, no leading zero. */
  function NatToString(n: nat): (r: string)
    ensures |r| >= 1
    ensures forall k :: 0 <= k < |r| ==> IsDigit(r[k])
    ensures |r| > 1 ==> r[0] != '0'
  {
    if n < 10 then [DigitChar(n)] else NatToString(n / 10) + [DigitChar(n % 10)]
  }

  /** Reading the rendered digits gives the number back. */
  lemma {:induction false} NatToStringValue(n: nat)
    ensures DigitsValue(NatToString(n)) == n
  {
    if n >= 10 {
      NatToStringValue(n / 10);
      var r := NatToString(n);
      assert r[..|r| - 1] == NatToString(n / 10);
    }
  }

  /** `n.toString()` for an integer. */
  function IntToString(n: int): (r: string)
    ensures forall k :: 0 <= k < |r| ==> IsDigit(r[k]) || r[k] == '-'
  {
    if n < 0 then "-" + NatToString(-n) else NatToString(n)
  }

  /** `s.padStart(2, '0')`. */
  function PadStart2(s: string): (r: string)
    ensures |r| == if |s| >= 2 then |s| else 2
    ensures r[|r| - |s|..] == s
  {
    if |s| >= 2 then s else if |s| == 1 then "0" + s else "00"
  }

  /** A number below 100 zero-padded to two digits: exactly two digits that read back as the number. */
  lemma PadTwoDigits(n: nat)
    requires n < 100
    ensures var r := PadStart2(NatToString(n));
      |r| == 2 && (forall k :: 0 <= k < 2 ==> IsDigit(r[k])) && DigitsValue(r) == n
  {
    NatToStringValue(n);
    var s := NatToString(n);
    if n < 10 {
      assert s == [DigitChar(n)];
      var r := PadStart2(s);
      assert r == ['0', DigitChar(n)];
      assert r[..1] == ['0'];
    } else {
      assert NatToString(n / 10) == [DigitChar(n / 10)];
      assert |s| == 2;
    }
  }
}
