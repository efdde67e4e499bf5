/**
  The string operations of Python's `str` that the question bank relies on:
  `isspace`, `strip`, `lower`, `replace`, `split`, `startswith`/`endswith`
  and substring search. Strings are `seq<char>`.
*/
module Text {
  import opened Wrappers

  /** Python's `str.isspace` on one character; `\s` in a `re` pattern over `str` matches the same set. */
  predicate IsSpace(c: char) {
    ('\t' <= c <= '\r') || ('\U{1C}' <= c <= ' ') || c == '\U{85}' || c == '\U{A0}' || c == '\U{1680}'
    || ('\U{2000}' <= c <= '\U{200A}') || c == '\U{2028}' || c == '\U{2029}' || c == '\U{202F}'
    || c == '\U{205F}' || c == '\U{3000}'
  }

  predicate AllSpace(s: string) {
    forall k :: 0 <= k < |s| ==> IsSpace(s[k])
  }

  /** `\d` restricted to the ASCII digits. */
  predicate IsDigit(c: char) {
    '0' <= c <= '9'
  }

  // ---------------------------------------------------------------
  // strip
  // ---------------------------------------------------------------

  /** The end of `s[..hi]` once trailing whitespace is dropped. */
  function TrimEnd(s: string, hi: nat): (e: nat)
    requires hi <= |s|
    ensures e <= hi
    ensures forall k :: e <= k < hi ==> IsSpace(s[k])
    ensures e > 0 ==> !IsSpace(s[e - 1])
    decreases hi
  {
    if hi == 0 || !IsSpace(s[hi - 1]) then hi else TrimEnd(s, hi - 1)
  }

  /** Python's `str.strip()` with no argument: the text between the leading and the trailing whitespace. */
  function Strip(s: string): (r: string)
    ensures |r| <= |s|
  {
    var b := SkipSpace(s, 0);
    var e := TrimEnd(s, |s|);
    if e <= b then [] else s[b..e]
  }

  /**
    `strip` keeps one slice of the text: everything before it and after it
    is whitespace. With StripEnds this pins the result down to Python's.
  */
  lemma StripSlice(s: string)
    ensures exists b, e :: 0 <= b <= e <= |s| && Strip(s) == s[b..e] && AllSpace(s[..b]) && AllSpace(s[e..])
  {
    var b := SkipSpace(s, 0);
    var e := TrimEnd(s, |s|);
    if e <= b {
      assert Strip(s) == s[b..b] && AllSpace(s[..b]) && AllSpace(s[b..]);
    } else {
      assert Strip(s) == s[b..e] && AllSpace(s[..b]) && AllSpace(s[e..]);
    }
  }

  /** Whitespace added around a trimmed text is what `strip` removes again. */
  lemma StripPadded(pre: string, a: string, post: string)
    requires AllSpace(pre) && AllSpace(post)
    requires a == [] || (!IsSpace(a[0]) && !IsSpace(a[|a| - 1]))
    ensures Strip(pre + a + post) == a
  {
    var t := pre + a + post;
    if a == [] {
      assert AllSpace(t) by {
        forall k | 0 <= k < |t| ensures IsSpace(t[k]) {
          if k < |pre| { assert t[k] == pre[k]; } else { assert t[k] == post[k - |pre|]; }
        }
      }
      StripEmpty(t);
    } else {
      var b := SkipSpace(t, 0);
      var e := TrimEnd(t, |t|);
      assert t[|pre|] == a[0];
      assert t[|pre| + |a| - 1] == a[|a| - 1];
      assert forall k :: 0 <= k < |pre| ==> t[k] == pre[k];
      assert forall k :: |pre| + |a| <= k < |t| ==> t[k] == post[k - |pre| - |a|];
      assert b == |pre|;
      assert e == |pre| + |a|;
      assert t[b..e] == a;
    }
  }

  /** `strip` gives the empty string exactly for all-whitespace strings. */
  lemma StripEmpty(s: string)
    ensures Strip(s) == [] <==> AllSpace(s)
  {
    var b := SkipSpace(s, 0);
    var e := TrimEnd(s, |s|);
    if b < |s| {
      assert !IsSpace(s[b]);
    }
  }

  /** The result of `strip` has no whitespace at either end. */
  lemma StripEnds(s: string)
    ensures Strip(s) == [] || (!IsSpace(Strip(s)[0]) && !IsSpace(Strip(s)[|Strip(s)| - 1]))
  {
  }

  /** `strip` removes characters and adds none. */
  lemma StripChars(s: string)
    ensures forall c :: c in Strip(s) ==> c in s
  {
  }

  /** A string with no whitespace at either end is its own strip. */
  lemma StripTrimmed(s: string)
    requires s == [] || (!IsSpace(s[0]) && !IsSpace(s[|s| - 1]))
    ensures Strip(s) == s
  {
  }

  lemma StripIdempotent(s: string)
    ensures Strip(Strip(s)) == Strip(s)
  {
    StripEnds(s);
    StripTrimmed(Strip(s));
  }

  // ---------------------------------------------------------------
  // lower, quote replacement
  // ---------------------------------------------------------------

  /** `str.lower` on one character, for the ASCII letters only. */
  function LowerChar(c: char): char {
    if 'A' <= c <= 'Z' then (c as int + 32) as char else c
  }

  /** `str.lower()`, character by character. */
  function Lower(s: string): (r: string)
    ensures |r| == |s|
  {
    seq(|s|, k requires 0 <= k < |s| => LowerChar(s[k]))
  }

  /** Lowering twice is lowering once. */
  lemma LowerIdempotent(s: string)
    ensures Lower(Lower(s)) == Lower(s)
  {
  }

  predicate IsCurlyQuote(c: char) {
    c == '\U{2018}' || c == '\U{2019}' || c == '\U{201C}' || c == '\U{201D}'
  }

  /** One character after `.replace("’", "'").replace("‘", "'").replace("“", '"').replace("”", '"')`. */
  function StraightQuote(c: char): (d: char)
    ensures !IsCurlyQuote(d)
    ensures IsSpace(d) == IsSpace(c)
    ensures !IsCurlyQuote(c) ==> d == c
  {
    if c == '\U{2018}' || c == '\U{2019}' then '\''
    else if c == '\U{201C}' || c == '\U{201D}' then '"'
    else c
  }

  /** The four single-character replacements of normalize_text, applied in turn. */
  function ReplaceQuotes(s: string): (r: string)
    ensures |r| == |s|
    ensures forall k :: 0 <= k < |s| ==> r[k] == StraightQuote(s[k])
  {
    seq(|s|, k requires 0 <= k < |s| => StraightQuote(s[k]))
  }

  /** After the replacements no curly quote is left, and every other character was there before. */
  lemma ReplaceQuotesChars(s: string)
    ensures forall c :: c in ReplaceQuotes(s) ==> !IsCurlyQuote(c) && (c in s || c == '\'' || c == '"')
  {
    var q := ReplaceQuotes(s);
    forall c | c in q
      ensures !IsCurlyQuote(c) && (c in s || c == '\'' || c == '"')
    {
      var k :| 0 <= k < |q| && q[k] == c;
      assert c == StraightQuote(s[k]);
    }
  }

  // ---------------------------------------------------------------
  // search
  // ---------------------------------------------------------------

  /** `pat` occurs in `s` at index `i`. */
  predicate StartsAt(s: string, pat: string, i: nat) {
    i + |pat| <= |s| && s[i..i + |pat|] == pat
  }

  predicate EndsWith(s: string, suffix: string) {
    |suffix| <= |s| && s[|s| - |suffix|..] == suffix
  }

  /** The first index at or after `from` where `pat` occurs. */
  function Find(s: string, pat: string, from: nat): (r: Option<nat>)
    ensures r.Some? ==> from <= r.value && StartsAt(s, pat, r.value)
    ensures r.Some? ==> forall k :: from <= k < r.value ==> !StartsAt(s, pat, k)
    ensures r.None? ==> forall k :: from <= k ==> !StartsAt(s, pat, k)
    decreases |s| - from
  {
    if from + |pat| > |s| then None
    else if StartsAt(s, pat, from) then Some(from)
    else Find(s, pat, from + 1)
  }

  /** The first index at or after `from` that is not whitespace (or `|s|`): a greedy `\s*`. */
  function SkipSpace(s: string, from: nat): (i: nat)
    requires from <= |s|
    ensures from <= i <= |s|
    ensures forall k :: from <= k < i ==> IsSpace(s[k])
    ensures i < |s| ==> !IsSpace(s[i])
    decreases |s| - from
  {
    if from == |s| || !IsSpace(s[from]) then from else SkipSpace(s, from + 1)
  }

  /** The first index at or after `from` that is not a digit (or `|s|`): a greedy `\d*`. */
  function SkipDigits(s: string, from: nat): (i: nat)
    requires from <= |s|
    ensures from <= i <= |s|
    ensures forall k :: from <= k < i ==> IsDigit(s[k])
    ensures i < |s| ==> !IsDigit(s[i])
    decreases |s| - from
  {
    if from == |s| || !IsDigit(s[from]) then from else SkipDigits(s, from + 1)
  }

  // ---------------------------------------------------------------
  // replace("\r\n", "\n"), split(",")
  // ---------------------------------------------------------------

  /** `s.replace("\r\n", "\n")`: a left-to-right scan for non-overlapping occurrences. */
  function ReplaceCrlf(s: string): (r: string)
    ensures |r| <= |s|
    ensures '\r' !in s ==> r == s
    decreases |s|
  {
    if |s| >= 2 && s[0] == '\r' && s[1] == '\n' then "\n" + ReplaceCrlf(s[2..])
    else if s == [] then []
    else [s[0]] + ReplaceCrlf(s[1..])
  }

  /** Each CRLF becomes one LF, and the texts on either side of it are replaced independently. */
  lemma {:induction false} ReplaceCrlfAt(a: string, b: string)
    ensures ReplaceCrlf(a + "\r\n" + b) == ReplaceCrlf(a) + "\n" + ReplaceCrlf(b)
    decreases |a|
  {
    if a == [] {
      assert a + "\r\n" + b == "\r\n" + b;
      assert ("\r\n" + b)[2..] == b;
    } else if |a| >= 2 && a[0] == '\r' && a[1] == '\n' {
      assert (a + "\r\n" + b)[2..] == a[2..] + "\r\n" + b;
      ReplaceCrlfAt(a[2..], b);
    } else {
      var t := a + "\r\n" + b;
      assert t[0] == a[0];
      assert |a| == 1 ==> t[1] == '\r';
      assert |a| >= 2 ==> t[1] == a[1];
      assert t[1..] == a[1..] + "\r\n" + b;
      ReplaceCrlfAt(a[1..], b);
    }
  }

  /** The inverse of Split: the pieces with `sep` between consecutive ones. */
  function Join(parts: seq<string>, sep: char): string
    decreases |parts|
  {
    if parts == [] then ""
    else if |parts| == 1 then parts[0]
    else parts[0] + [sep] + Join(parts[1..], sep)
  }

  /** A character other than the separator occurs in a join exactly when it occurs in one of the pieces. */
  lemma {:induction false} InJoin(parts: seq<string>, sep: char, c: char)
    requires c != sep
    ensures c in Join(parts, sep) <==> exists k :: 0 <= k < |parts| && c in parts[k]
    decreases |parts|
  {
    if |parts| > 1 {
      InJoin(parts[1..], sep, c);
      assert forall k :: 1 <= k < |parts| ==> parts[k] == parts[1..][k - 1];
      if c in Join(parts[1..], sep) {
        var k :| 0 <= k < |parts[1..]| && c in parts[1..][k];
        assert c in parts[k + 1];
      }
    }
  }

  /** Python's `s.split(sep)` for a one-character separator. */
  function Split(s: string, sep: char): (r: seq<string>)
    ensures |r| >= 1
    ensures forall k :: 0 <= k < |r| ==> sep !in r[k]
    ensures Join(r, sep) == s
    decreases |s|
  {
    if s == [] then [""]
    else
      var rest := Split(s[1..], sep);
      if s[0] == sep then
        assert Join([""] + rest, sep) == [sep] + Join(rest, sep);
        [""] + rest
      else
        var r := [[s[0]] + rest[0]] + rest[1..];
        assert Join(r, sep) == [s[0]] + Join(rest, sep) by {
          if |rest| > 1 { assert r[1..] == rest[1..]; }
        }
        r
  }
}
