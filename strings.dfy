/**
 * String helpers used by the admin backend: prefix tests (`startsWith`, an
 * anchored regular expression), lexicographic string order on code points
 * (standing in for the order in which the object store compares
 * `startkey`/`endkey`), `indexOf` of one character and `Array.prototype.join`.
 * JavaScript compares UTF-16 code units; the two orders agree on characters
 * of the Basic Multilingual Plane, which includes the U+9999 scan bound, and
 * differ only when a character above U+FFFF meets one in U+E000..U+FFFF.
 */
module Strings {

  /** `s.startsWith(p)`. */
  predicate HasPrefix(s: string, p: string) {
    |p| <= |s| && s[..|p|] == p
  }

  /** `a <= b` in code-point order: lexicographic, a proper prefix sorts first. */
  predicate LexLe(a: string, b: string)
    decreases |a|
  {
    a == [] || (b != [] && (a[0] < b[0] || (a[0] == b[0] && LexLe(a[1..], b[1..]))))
  }

  /** A string sorts at or after each of its prefixes. */
  lemma {:induction false} PrefixIsLexLe(p: string, s: string)
    ensures LexLe(p, p + s)
    decreases |p|
  {
    if p != [] {
      assert (p + s)[1..] == p[1..] + s;
      PrefixIsLexLe(p[1..], s);
    }
  }

  /** A shared prefix does not change the order of two strings. */
  lemma {:induction false} LexLeCommonPrefix(p: string, a: string, b: string)
    ensures LexLe(p + a, p + b) <==> LexLe(a, b)
    decreases |p|
  {
    if p != [] {
      assert (p + a)[1..] == p[1..] + a;
      assert (p + b)[1..] == p[1..] + b;
      LexLeCommonPrefix(p[1..], a, b);
    } else {
      assert p + a == a && p + b == b;
    }
  }

  /** A string that sorts between `p` and `p + s` starts with `p`. */
  lemma {:induction false} BetweenPrefixBounds(p: string, s: string, k: string)
    requires LexLe(p, k) && LexLe(k, p + s)
    ensures HasPrefix(k, p)
    decreases |p|
  {
    if p != [] {
      assert (p + s)[0] == p[0] && (p + s)[1..] == p[1..] + s;
      BetweenPrefixBounds(p[1..], s, k[1..]);
      assert k[..|p|] == [k[0]] + k[1..][..|p| - 1];
    }
  }

  /** `s.indexOf(c)`: the position of the first `c` in `s`, or -1. */
  function IndexOf(s: string, c: char): (r: int)
    ensures -1 <= r < |s|
    ensures r == -1 <==> c !in s
    ensures r >= 0 ==> s[r] == c && c !in s[..r]
  {
    if s == [] then -1
    else if s[0] == c then 0
    else
      var k := IndexOf(s[1..], c);
      assert s[1..][..if k < 0 then 0 else k] == s[1..if k < 0 then 1 else k + 1];
      if k == -1 then -1 else k + 1
  }

  /** `xs.join(sep)`. */
  function Join(xs: seq<string>, sep: string): string
  {
    if xs == [] then ""
    else if |xs| == 1 then xs[0]
    else Join(xs[..|xs| - 1], sep) + sep + xs[|xs| - 1]
  }
}
