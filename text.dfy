/**
 * The handful of JavaScript string operations the bot's decision logic uses:
 * `trim`, `toLowerCase`/`toUpperCase` (on ASCII letters), `startsWith`,
 * `split`/`join` on a one-character separator, and `substring`.
 * Each literal definition is paired with a reference definition or a
 * characterisation proved about it.
 */
module Text {

  /** The characters `String.prototype.trim` removes: ECMAScript WhiteSpace and LineTerminator. */
  predicate IsWhitespace(c: char) {
    || c == '\t' || c == '\n' || c == '\U{B}' || c == '\U{C}' || c == '\r' || c == ' '
    || c == '\U{A0}' || c == '\U{1680}' || ('\U{2000}' <= c <= '\U{200A}')
    || c == '\U{2028}' || c == '\U{2029}' || c == '\U{202F}' || c == '\U{205F}'
    || c == '\U{3000}' || c == '\U{FEFF}'
  }

  /** The index of the first non-whitespace character of `s` at or after `i`, or |s| when there is none. */
  function ContentStart(s: string, i: nat): (n: nat)
    requires i <= |s|
    ensures i <= n <= |s|
    ensures forall k :: i <= k < n ==> IsWhitespace(s[k])
    ensures n == |s| || !IsWhitespace(s[n])
    decreases |s| - i
  {
    if i < |s| && IsWhitespace(s[i]) then ContentStart(s, i + 1) else i
  }

  /** The index just after the last non-whitespace character of `s[lo..hi]`, or `lo` when there is none. */
  function ContentEnd(s: string, lo: nat, hi: nat): (n: nat)
    requires lo <= hi <= |s|
    ensures lo <= n <= hi
    ensures forall k :: n <= k < hi ==> IsWhitespace(s[k])
    ensures n == lo || !IsWhitespace(s[n - 1])
  {
    if lo < hi && IsWhitespace(s[hi - 1]) then ContentEnd(s, lo, hi - 1) else hi
  }

  /** `s.trim()`: the piece of `s` between its leading and its trailing whitespace. */
  function Trim(s: string): string {
    var start := ContentStart(s, 0);
    s[start..ContentEnd(s, start, |s|)]
  }

  /** Trimming cuts whitespace, and only whitespace, from both ends of `s`: the result is a piece of `s`
      that neither starts nor ends with whitespace, and everything around it is whitespace. */
  lemma TrimSpec(s: string)
    ensures var start := ContentStart(s, 0);
      var end := ContentEnd(s, start, |s|);
      && Trim(s) == s[start..end]
      && (forall k :: 0 <= k < start ==> IsWhitespace(s[k]))
      && (forall k :: end <= k < |s| ==> IsWhitespace(s[k]))
      && (Trim(s) == [] || (!IsWhitespace(Trim(s)[0]) && !IsWhitespace(Trim(s)[|Trim(s)| - 1])))
  {
    var start := ContentStart(s, 0);
    var end := ContentEnd(s, start, |s|);
    if start < end {
      assert Trim(s)[0] == s[start] && Trim(s)[|Trim(s)| - 1] == s[end - 1];
    }
  }

  /** The trimmed text is empty exactly when every character of `s` is whitespace. */
  lemma TrimEmpty(s: string)
    ensures Trim(s) == [] <==> forall k :: 0 <= k < |s| ==> IsWhitespace(s[k])
  {
    TrimSpec(s);
  }

  function LowerChar(c: char): char {
    if 'A' <= c <= 'Z' then (c as int + 32) as char else c
  }

  function UpperChar(c: char): char {
    if 'a' <= c <= 'z' then (c as int - 32) as char else c
  }

  /** `s.toLowerCase()` on ASCII letters; every other character is kept. */
  function ToLower(s: string): (r: string)
    ensures |r| == |s|
    ensures forall i :: 0 <= i < |s| ==> r[i] == LowerChar(s[i])
  {
    if s == [] then [] else [LowerChar(s[0])] + ToLower(s[1..])
  }

  /** `s.toUpperCase()` on ASCII letters; every other character is kept. */
  function ToUpper(s: string): (r: string)
    ensures |r| == |s|
    ensures forall i :: 0 <= i < |s| ==> r[i] == UpperChar(s[i])
  {
    if s == [] then [] else [UpperChar(s[0])] + ToUpper(s[1..])
  }

  /** Lower-casing commutes with taking a prefix, so `s.toLowerCase().startsWith(p)` looks only at the first |p| characters. */
  lemma ToLowerPrefix(s: string, n: nat)
    requires n <= |s|
    ensures ToLower(s)[..n] == ToLower(s[..n])
  {
  }

  predicate StartsWith(s: string, prefix: string) {
    |prefix| <= |s| && s[..|prefix|] == prefix
  }

  /** `s.substring(start, end)` for 0 <= start <= end: both bounds are clamped to the length. */
  function Substring(s: string, start: nat, end: nat): (r: string)
    requires start <= end
    ensures |r| == (if end <= |s| then end else |s|) - (if start <= |s| then start else |s|)
    ensures start <= |s| ==> forall i :: 0 <= i < |r| ==> r[i] == s[start + i]
  {
    var b := if end <= |s| then end else |s|;
    var a := if start <= |s| then start else |s|;
    s[a..b]
  }

  /** `s.split(sep)` for a one-character separator. */
  function Split(s: string, sep: char): (parts: seq<string>)
    ensures |parts| >= 1
    ensures forall i :: 0 <= i < |parts| ==> sep !in parts[i]
  {
    if s == [] then [[]]
    else
      var rest := Split(s[1..], sep);
      if s[0] == sep then [[]] + rest
      else [[s[0]] + rest[0]] + rest[1..]
  }

  /** `parts.join(sep)` for a one-character separator. */
  function Join(parts: seq<string>, sep: char): string {
    if |parts| == 0 then []
    else if |parts| == 1 then parts[0]
    else parts[0] + [sep] + Join(parts[1..], sep)
  }

  /** Reference definition: everything before the first `sep`, or all of `s` when there is none. */
  function BeforeFirst(s: string, sep: char): (r: string)
    ensures sep !in r
    ensures StartsWith(s, r)
    ensures |r| < |s| ==> s[|r|] == sep
  {
    if s == [] then []
    else if s[0] == sep then []
    else [s[0]] + BeforeFirst(s[1..], sep)
  }

  /** Reference definition: everything after the first `sep`, later separators kept; empty when there is none. */
  function AfterFirst(s: string, sep: char): string {
    var b := BeforeFirst(s, sep);
    if |b| < |s| then s[|b| + 1..] else []
  }

  /** The first piece of a split is what precedes the first separator. */
  lemma {:induction false} SplitHead(s: string, sep: char)
    ensures Split(s, sep)[0] == BeforeFirst(s, sep)
  {
    if s != [] && s[0] != sep {
      SplitHead(s[1..], sep);
    }
  }

  /** Splitting and joining with the same separator gives back the original text. */
  lemma {:induction false} JoinSplit(s: string, sep: char)
    ensures Join(Split(s, sep), sep) == s
  {
    if s != [] {
      var rest := Split(s[1..], sep);
      JoinSplit(s[1..], sep);
      if s[0] == sep {
        assert Split(s, sep) == [[]] + rest;
        assert ([[]] + rest)[1..] == rest;
      } else {
        var parts := Split(s, sep);
        assert parts == [[s[0]] + rest[0]] + rest[1..];
        if |rest| > 1 {
          assert parts[1..] == rest[1..];
          assert Join(rest, sep) == rest[0] + [sep] + Join(rest[1..], sep);
        }
      }
    }
  }

  /** `s.split(sep).slice(1).join(sep)` is exactly the text after the first separator, later separators kept verbatim. */
  lemma {:induction false} SplitTailJoin(s: string, sep: char)
    ensures Join(Split(s, sep)[1..], sep) == AfterFirst(s, sep)
  {
    if s != [] {
      var rest := Split(s[1..], sep);
      if s[0] == sep {
        JoinSplit(s[1..], sep);
        assert Split(s, sep)[1..] == rest;
      } else {
        SplitTailJoin(s[1..], sep);
        assert Split(s, sep)[1..] == rest[1..];
      }
    }
  }

  /** When `s` is `p + [sep] + q` and `p` holds no separator, the text after the first separator is `q`. */
  lemma AfterFirstOf(p: string, sep: char, q: string)
    requires sep !in p
    ensures AfterFirst(p + [sep] + q, sep) == q
  {
    BeforeFirstPrefix(p, sep, q);
  }

  lemma {:induction false} BeforeFirstPrefix(p: string, sep: char, q: string)
    requires sep !in p
    ensures BeforeFirst(p + [sep] + q, sep) == p
  {
    if p != [] {
      assert (p + [sep] + q)[1..] == p[1..] + [sep] + q;
      BeforeFirstPrefix(p[1..], sep, q);
    }
  }

  /** The text after the first colon as both routers compute it: `s.split(':').slice(1).join(':')`. */
  function AfterFirstColon(s: string): (r: string)
    ensures r == AfterFirst(s, ':')
  {
    SplitTailJoin(s, ':');
    Join(Split(s, ':')[1..], ':')
  }

  /** The argument of a `summarize:` or `image:` command: the text after the first colon, trimmed. */
  function CommandArgument(s: string): string {
    Trim(AfterFirstColon(s))
  }

  /** For `p + ":" + q` whose head lower-cases to a colon-free `word`, the lower-cased text starts with
      `word + ":"` and the argument is `q` trimmed, with every colon inside `q` kept. */
  lemma PrefixedArgument(p: string, q: string, word: string)
    requires ToLower(p) == word && ':' !in word
    ensures StartsWith(ToLower(p + ":" + q), word + ":")
    ensures CommandArgument(p + ":" + q) == Trim(q)
  {
    var text := p + ":" + q;
    ToLowerPrefix(text, |p| + 1);
    assert text[..|p| + 1] == p + ":";
    assert ':' !in p by {
      forall i | 0 <= i < |p| ensures p[i] != ':' {
        assert ToLower(p)[i] == LowerChar(p[i]);
      }
    }
    AfterFirstOf(p, ':', q);
  }

  /** `s.replace(from, to)` with a one-character string pattern: only the first occurrence is replaced. */
  function ReplaceFirst(s: string, from: char, to: char): (r: string)
    ensures |r| == |s|
    ensures forall i :: 0 <= i < |s| ==> r[i] == if i == |BeforeFirst(s, from)| then to else s[i]
  {
    if s == [] then []
    else if s[0] == from then [to] + s[1..]
    else [s[0]] + ReplaceFirst(s[1..], from, to)
  }

  /** `s.replace(/[ab]/g, to)`: every occurrence of either character is replaced. */
  function ReplaceEach(s: string, a: char, b: char, to: char): (r: string)
    ensures |r| == |s|
    ensures forall i :: 0 <= i < |s| ==> r[i] == if s[i] == a || s[i] == b then to else s[i]
  {
    if s == [] then []
    else [if s[0] == a || s[0] == b then to else s[0]] + ReplaceEach(s[1..], a, b, to)
  }
}
