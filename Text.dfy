/** The parts of Python's `str` that the command processor relies on:
    `lower()`, `strip()` and `split(sep, 1)`. Characters are compared as
    Unicode scalar values; only ASCII letters are case-mapped, and the
    whitespace stripped is the set Python's `str.isspace` accepts. */
module Text {

  /** An ASCII upper-case letter: the only characters `Lower` changes. */
  predicate IsAsciiUpper(c: char) {
    'A' <= c <= 'Z'
  }

  /** A string in which `Lower` has nothing left to change. */
  predicate IsLowerCase(s: string) {
    forall i :: 0 <= i < |s| ==> !IsAsciiUpper(s[i])
  }

  function LowerChar(c: char): char {
    if IsAsciiUpper(c) then (c as int + 32) as char else c
  }

  /** `s.lower()`, restricted to ASCII letters. */
  function Lower(s: string): (r: string)
    ensures |r| == |s|
    ensures IsLowerCase(r)
    ensures forall i :: 0 <= i < |s| && !IsAsciiUpper(s[i]) ==> r[i] == s[i]
    ensures forall i :: 0 <= i < |s| && IsAsciiUpper(s[i]) ==> r[i] as int == s[i] as int + 32
  {
    if s == [] then [] else [LowerChar(s[0])] + Lower(s[1..])
  }

  /** Lower-casing changes a string exactly when it holds an upper-case letter. */
  lemma LowerFixesExactlyLowerCase(s: string)
    ensures Lower(s) == s <==> IsLowerCase(s)
  {
    if IsLowerCase(s) {
      assert forall i :: 0 <= i < |s| ==> Lower(s)[i] == s[i];
    }
  }

  /** The characters Python's `str.strip()` removes (`str.isspace`): tab, line
      feed, vertical tab, form feed, carriage return, the information
      separators U+001C to U+001F, space, next line U+0085, no-break space
      U+00A0, Ogham space mark U+1680, the spaces U+2000 to U+200A, the line
      and paragraph separators U+2028 and U+2029, the narrow no-break space
      U+202F, the medium mathematical space U+205F and the ideographic space
      U+3000. */
  predicate IsSpace(c: char) {
    || '\t' <= c <= '\r'
    || '\U{1C}' <= c <= ' '
    || c == '\U{85}' || c == '\U{A0}' || c == '\U{1680}'
    || '\U{2000}' <= c <= '\U{200A}'
    || c == '\U{2028}' || c == '\U{2029}' || c == '\U{202F}' || c == '\U{205F}'
    || c == '\U{3000}'
  }

  predicate IsBlank(s: string) {
    forall i :: 0 <= i < |s| ==> IsSpace(s[i])
  }

  /** The number of whitespace characters `s` starts with. */
  function LeadingSpaces(s: string): (n: nat)
    ensures n <= |s|
    ensures forall i :: 0 <= i < n ==> IsSpace(s[i])
    ensures n < |s| ==> !IsSpace(s[n])
  {
    if s != [] && IsSpace(s[0]) then 1 + LeadingSpaces(s[1..]) else 0
  }

  /** Where the whitespace that `s` ends with begins, looking no further left
      than `lo`. */
  function TrailingSpacesFrom(s: string, lo: nat): (m: nat)
    requires lo <= |s|
    ensures lo <= m <= |s|
    ensures forall i :: m <= i < |s| ==> IsSpace(s[i])
    ensures m > lo ==> !IsSpace(s[m - 1])
  {
    if |s| > lo && IsSpace(s[|s| - 1]) then TrailingSpacesFrom(s[..|s| - 1], lo) else |s|
  }

  /** `s.strip()`: what is left of `s` once whitespace is cut from both ends. */
  function Strip(s: string): (r: string)
    ensures |r| <= |s|
    ensures exists a, b :: 0 <= a <= b <= |s| && r == s[a..b] && IsBlank(s[..a]) && IsBlank(s[b..])
    ensures r == [] <==> IsBlank(s)
    ensures r != [] ==> !IsSpace(r[0]) && !IsSpace(r[|r| - 1])
    ensures |s| > 0 && !IsSpace(s[0]) && !IsSpace(s[|s| - 1]) ==> r == s
  {
    var a := LeadingSpaces(s);
    var b := TrailingSpacesFrom(s, a);
    BlankPrefix(s, a);
    BlankSuffix(s, b);
    s[a..b]
  }

  /** A prefix made of whitespace only is blank. */
  lemma BlankPrefix(s: string, a: nat)
    requires a <= |s| && forall i :: 0 <= i < a ==> IsSpace(s[i])
    ensures IsBlank(s[..a])
  {
  }

  /** A suffix made of whitespace only is blank. */
  lemma BlankSuffix(s: string, b: nat)
    requires b <= |s| && forall i :: b <= i < |s| ==> IsSpace(s[i])
    ensures IsBlank(s[b..])
  {
    assert forall i :: 0 <= i < |s| - b ==> s[b..][i] == s[b + i];
  }

  /** `s.split(sep, 1)`: the text before the first `sep` and, when `s` holds
      one, the text after it. */
  function SplitOnce(s: string, sep: char): (parts: seq<string>)
    ensures 1 <= |parts| <= 2
    ensures sep !in parts[0]
    ensures |parts| == 1 ==> parts[0] == s
    ensures |parts| == 2 ==> s == parts[0] + [sep] + parts[1]
  {
    if s == [] then
      [s]
    else if s[0] == sep then
      [[], s[1..]]
    else
      var rest := SplitOnce(s[1..], sep);
      [[s[0]] + rest[0]] + rest[1..]
  }

  /** The split happens at the first separator and at no other place. */
  lemma {:induction false} SplitOnceAtFirst(head: string, sep: char, tail: string)
    requires sep !in head
    ensures SplitOnce(head + [sep] + tail, sep) == [head, tail]
  {
    var s := head + [sep] + tail;
    if head != [] {
      assert s[0] == head[0] != sep && s[1..] == head[1..] + [sep] + tail;
      SplitOnceAtFirst(head[1..], sep, tail);
      assert [head[0]] + head[1..] == head;
    }
  }

  /** Without a separator there is nothing to split. */
  lemma SplitOnceWithoutSeparator(s: string, sep: char)
    requires sep !in s
    ensures SplitOnce(s, sep) == [s]
  {
  }
}
