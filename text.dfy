/** The optional value used throughout the model for Python's `None`. */
module Wrappers {
  datatype Option<+T> = None | Some(value: T)
}

/**
 * The handful of Python `str` operations the analyzer relies on, over
 * `seq<char>`.  Case mapping is ASCII-only; white space is the full set
 * that `str.isspace()` accepts.
 */
module Text {

  /** `c.lower()` for one character (ASCII letters only). */
  function LowerChar(c: char): char
  {
    if 'A' <= c <= 'Z' then (c as int + 32) as char else c
  }

  /** `s.lower()`. */
  function Lower(s: string): (r: string)
    ensures |r| == |s|
    ensures forall i :: 0 <= i < |s| ==> r[i] == LowerChar(s[i])
    decreases |s|
  {
    if s == [] then [] else Lower(s[..|s| - 1]) + [LowerChar(s[|s| - 1])]
  }

  /** Lower-casing twice is lower-casing once. */
  lemma LowerIdempotent(s: string)
    ensures Lower(Lower(s)) == Lower(s)
  {
    assert forall i :: 0 <= i < |s| ==> Lower(Lower(s))[i] == Lower(s)[i];
  }

  /** `c.isupper()` for one character (ASCII letters only). */
  predicate IsUpper(c: char)
  {
    'A' <= c <= 'Z'
  }

  /** `s.startswith(p)`. */
  predicate StartsWith(s: string, p: string)
  {
    p <= s
  }

  /** `s.endswith(x)`. */
  predicate EndsWith(s: string, x: string)
  {
    |x| <= |s| && s[|s| - |x|..] == x
  }

  /** `s.endswith(tuple)`: some member of the tuple ends `s`. */
  predicate EndsWithAny(s: string, xs: seq<string>)
  {
    exists i :: 0 <= i < |xs| && EndsWith(s, xs[i])
  }

  /** `sub in s` for strings: `sub` is a prefix of some suffix of `s`. */
  predicate Contains(s: string, sub: string)
    decreases |s|
  {
    sub <= s || (s != [] && Contains(s[1..], sub))
  }

  /** Every text contains the empty text, and itself. */
  lemma ContainsItself(s: string)
    ensures Contains(s, []) && Contains(s, s)
  {
  }

  /** `Contains` means what it says: `sub` occurs at some position of `s`. */
  lemma {:induction false} ContainsAt(s: string, sub: string)
    ensures Contains(s, sub) <==> exists i {:trigger s[i..]} :: 0 <= i <= |s| && sub <= s[i..]
    decreases |s|
  {
    assert s[0..] == s;
    if s != [] {
      ContainsAt(s[1..], sub);
      if Contains(s[1..], sub) {
        var j :| 0 <= j <= |s[1..]| && sub <= s[1..][j..];
        assert s[1..][j..] == s[j + 1..];
      }
      forall i | 1 <= i <= |s| ensures s[i..] == s[1..][i - 1..] {}
      if !(sub <= s) && (exists i {:trigger s[i..]} :: 0 <= i <= |s| && sub <= s[i..]) {
        var i :| 0 <= i <= |s| && sub <= s[i..];
        assert i != 0;
        assert sub <= s[1..][i - 1..];
      }
    }
  }

  /** A text that ends with `x` contains `x`. */
  lemma EndsWithContains(s: string, x: string)
    requires EndsWith(s, x)
    ensures Contains(s, x)
  {
    ContainsAt(s, x);
    assert x <= s[|s| - |x|..];
  }

  /** `s.replace(a, b)` for single characters. */
  function ReplaceChar(s: string, a: char, b: char): (r: string)
    ensures |r| == |s|
    ensures forall i :: 0 <= i < |s| ==> r[i] == (if s[i] == a then b else s[i])
    decreases |s|
  {
    if s == [] then [] else ReplaceChar(s[..|s| - 1], a, b) + [if s[|s| - 1] == a then b else s[|s| - 1]]
  }

  /** `s.lstrip(chars)`: the longest suffix of `s` that does not start with one of `cs`. */
  function LStrip(s: string, cs: set<char>): (r: string)
    ensures |r| <= |s| && r == s[|s| - |r|..]
    ensures r != [] ==> r[0] !in cs
    ensures forall i :: 0 <= i < |s| - |r| ==> s[i] in cs
    decreases |s|
  {
    if s != [] && s[0] in cs then LStrip(s[1..], cs) else s
  }

  /** `s.rstrip(chars)`: the longest prefix of `s` that does not end with one of `cs`. */
  function RStrip(s: string, cs: set<char>): (r: string)
    ensures |r| <= |s| && r == s[..|r|]
    ensures r != [] ==> r[|r| - 1] !in cs
    ensures forall i :: |r| <= i < |s| ==> s[i] in cs
    decreases |s|
  {
    if s != [] && s[|s| - 1] in cs then RStrip(s[..|s| - 1], cs) else s
  }

  /** `s.strip(chars)`. */
  function Strip(s: string, cs: set<char>): string
  {
    RStrip(LStrip(s, cs), cs)
  }

  /**
   * The characters that `str.strip()` removes when given no argument: those
   * for which `str.isspace()` holds (U+0009..U+000D, U+001C..U+0020, U+0085,
   * U+00A0, U+1680, U+2000..U+200A, U+2028, U+2029, U+202F, U+205F, U+3000).
   */
  const Whitespace: set<char> :=
    {9 as char, 10 as char, 11 as char, 12 as char, 13 as char,
     28 as char, 29 as char, 30 as char, 31 as char, 32 as char,
     0x85 as char, 0xA0 as char, 0x1680 as char,
     0x2000 as char, 0x2001 as char, 0x2002 as char, 0x2003 as char, 0x2004 as char, 0x2005 as char,
     0x2006 as char, 0x2007 as char, 0x2008 as char, 0x2009 as char, 0x200A as char,
     0x2028 as char, 0x2029 as char, 0x202F as char, 0x205F as char, 0x3000 as char}

  /** The quote characters of `.strip('"\'')`. */
  const Quotes: set<char> := {'"', '\''}

  /**
   * `raw.strip().strip('"\'')`, the clean-up the analyzer applies to a
   * captured string literal before using it.
   */
  function StripLiteral(raw: string): (r: string)
    ensures r != [] ==> r[0] !in Quotes && r[|r| - 1] !in Quotes
    ensures |r| <= |raw|
  {
    Strip(Strip(raw, Whitespace), Quotes)
  }

  /** Stripping a text framed by one stripped character on each side leaves the text. */
  lemma StripFramed(a: char, t: string, b: char, cs: set<char>)
    requires a in cs && b in cs
    requires t != [] && t[0] !in cs && t[|t| - 1] !in cs
    ensures Strip([a] + t + [b], cs) == t
  {
    var s := [a] + t + [b];
    var u := t + [b];
    assert s[0] == a && s[1..] == u;
    assert u[0] == t[0];
    assert LStrip(u, cs) == u;
    assert LStrip(s, cs) == u;
    assert u[|u| - 1] == b && u[..|u| - 1] == t;
    assert RStrip(t, cs) == t;
    assert RStrip(u, cs) == t;
  }

  /** U+00A0 and U+3000 are stripped as whitespace; the quote is not. */
  lemma NoBreakAndIdeographicSpaces()
    ensures 0xA0 as char in Whitespace && 0x3000 as char in Whitespace && '\'' !in Whitespace
  {
  }

  /** Non-ASCII spaces around a quoted literal are stripped too, as `str.strip()` does. */
  lemma StripLiteralUnicodeSpace()
    ensures StripLiteral([0xA0 as char] + "'x'" + [0x3000 as char]) == "x"
  {
    NoBreakAndIdeographicSpaces();
    StripFramed(0xA0 as char, "'x'", 0x3000 as char, Whitespace);
    assert "'x'" == ['\''] + "x" + ['\''];
    StripFramed('\'', "x", '\'', Quotes);
  }

  /** The first index of `c` in `s`, or -1. */
  function IndexOf(s: string, c: char): (r: int)
    ensures -1 <= r < |s|
    ensures r >= 0 ==> s[r] == c
    ensures forall i :: 0 <= i < |s| && (r < 0 || i < r) ==> s[i] != c
    decreases |s|
  {
    if s == [] then -1
    else if s[0] == c then 0
    else var k := IndexOf(s[1..], c); if k < 0 then -1 else k + 1
  }

  /** The last index of `c` in `s` (`s.rfind(c)`), or -1. */
  function LastIndexOf(s: string, c: char): (r: int)
    ensures -1 <= r < |s|
    ensures r >= 0 ==> s[r] == c
    ensures forall i :: r < i < |s| ==> s[i] != c
    decreases |s|
  {
    if s == [] then -1
    else if s[|s| - 1] == c then |s| - 1
    else LastIndexOf(s[..|s| - 1], c)
  }

  /** `list(filter(None, names))`: the non-empty names, in order. */
  function NonEmpty(names: seq<string>): (r: seq<string>)
    ensures |r| <= |names|
    ensures forall x :: x in r <==> x in names && x != []
    decreases |names|
  {
    if names == [] then []
    else
      var prev := NonEmpty(names[..|names| - 1]);
      var last := names[|names| - 1];
      assert forall x :: x in names <==> x in names[..|names| - 1] || x == last;
      if last == [] then prev else prev + [last]
  }

  /** `NonEmpty` keeps every non-empty name as often as it occurs, and no empty one. */
  lemma {:induction false} NonEmptyMultiset(names: seq<string>)
    ensures multiset(NonEmpty(names)) == multiset(names)[[] := 0]
    decreases |names|
  {
    if names != [] {
      var init, last := names[..|names| - 1], names[|names| - 1];
      NonEmptyMultiset(init);
      assert names == init + [last];
      assert multiset(names) == multiset(init) + multiset{last};
    }
  }

  /** The positions of the non-empty names, in increasing order. */
  function NonEmptyIndices(names: seq<string>): (idx: seq<nat>)
    ensures forall k :: 0 <= k < |idx| ==> idx[k] < |names|
    ensures forall j, k :: 0 <= j < k < |idx| ==> idx[j] < idx[k]
    ensures forall i :: 0 <= i < |names| ==> (i in idx <==> names[i] != [])
    decreases |names|
  {
    if names == [] then []
    else
      var prev := NonEmptyIndices(names[..|names| - 1]);
      if names[|names| - 1] == [] then prev else prev + [|names| - 1]
  }

  /**
   * The k-th name kept by `NonEmpty` is the name at the k-th non-empty
   * position: the kept names keep their order and their repeats.
   */
  lemma {:induction false} NonEmptyAtIndices(names: seq<string>)
    ensures |NonEmpty(names)| == |NonEmptyIndices(names)|
    ensures forall k :: 0 <= k < |NonEmpty(names)| ==> NonEmpty(names)[k] == names[NonEmptyIndices(names)[k]]
    decreases |names|
  {
    if names != [] {
      var init := names[..|names| - 1];
      NonEmptyAtIndices(init);
      var r0, idx0 := NonEmpty(init), NonEmptyIndices(init);
      assert NonEmpty(names) == (if names[|names| - 1] == [] then r0 else r0 + [names[|names| - 1]]);
      assert NonEmptyIndices(names) == (if names[|names| - 1] == [] then idx0 else idx0 + [|names| - 1]);
      forall k | 0 <= k < |r0|
        ensures r0[k] == names[idx0[k]]
      {
        assert r0[k] == init[idx0[k]];
      }
    }
  }
}
