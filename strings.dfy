/**
 * String helpers with Python's meaning: `str.strip`, `str.rstrip`, `str.split(sep)`,
 * `sep.join(list)`, `list.index(x)`, plus positional helpers used by the regular-expression
 * matchers of the log reader (a literal at a position, the length of a run of characters
 * of one class).
 */
module Strings {
  import opened Wrappers

  /** The characters for which Python's `str.isspace()` is true; `strip()` removes these. */
  predicate IsSpace(c: char)
  {
    c == ' ' || ('\t' <= c <= '\r') || ('\U{1C}' <= c <= '\U{1F}')
    || c == '\U{85}' || c == '\U{A0}' || c == '\U{1680}' || ('\U{2000}' <= c <= '\U{200A}')
    || c == '\U{2028}' || c == '\U{2029}' || c == '\U{202F}' || c == '\U{205F}' || c == '\U{3000}'
  }

  predicate IsDigit(c: char) { '0' <= c <= '9' }

  predicate IsUpperLetter(c: char) { 'A' <= c <= 'Z' }

  /** A character that the regular-expression dot matches (everything but a newline). */
  predicate IsNotNewline(c: char) { c != '\n' }

  /** Every character of `s` is whitespace. */
  predicate AllSpace(s: string)
  {
    forall k :: 0 <= k < |s| ==> IsSpace(s[k])
  }

  /** Python's `s.lstrip()`. */
  function LStrip(s: string): string
  {
    if |s| > 0 && IsSpace(s[0]) then LStrip(s[1..]) else s
  }

  /** `lstrip()` cuts a run of whitespace from the front and stops at a non-space. */
  lemma {:induction false} LStripIsSuffix(s: string)
    ensures var r := LStrip(s);
      |r| <= |s| && r == s[|s| - |r|..] && AllSpace(s[..|s| - |r|]) && (r == [] || !IsSpace(r[0]))
  {
    if |s| > 0 && IsSpace(s[0]) {
      LStripIsSuffix(s[1..]);
      assert LStrip(s) == LStrip(s[1..]);
      LStripStep(s, LStrip(s[1..]));
    }
  }

  /** A suffix of `s` minus its first, space, character, preceded there by spaces, is one of `s` too. */
  lemma LStripStep(s: string, r: string)
    requires |s| > 0 && IsSpace(s[0])
    requires |r| <= |s| - 1 && r == s[1..][|s| - 1 - |r|..] && AllSpace(s[1..][..|s| - 1 - |r|])
    ensures r == s[|s| - |r|..] && AllSpace(s[..|s| - |r|])
  {
    assert s[..|s| - |r|] == [s[0]] + s[1..][..|s| - 1 - |r|];
  }

  /** Python's `s.rstrip()`. */
  function RStrip(s: string): string
  {
    if |s| > 0 && IsSpace(s[|s| - 1]) then RStrip(s[..|s| - 1]) else s
  }

  /** `rstrip()` cuts a run of whitespace from the end and stops at a non-space. */
  lemma {:induction false} RStripIsPrefix(s: string)
    ensures var r := RStrip(s);
      |r| <= |s| && r == s[..|r|] && AllSpace(s[|r|..]) && (r == [] || !IsSpace(r[|r| - 1]))
  {
    if |s| > 0 && IsSpace(s[|s| - 1]) {
      var t := s[..|s| - 1];
      RStripIsPrefix(t);
      assert RStrip(s) == RStrip(t);
      RStripStep(s, RStrip(t));
    }
  }

  /** A prefix of `s` minus its last, space, character, followed there by spaces, is one of `s` too. */
  lemma RStripStep(s: string, r: string)
    requires |s| > 0 && IsSpace(s[|s| - 1])
    requires |r| <= |s| - 1 && r == s[..|s| - 1][..|r|] && AllSpace(s[..|s| - 1][|r|..])
    ensures r == s[..|r|] && AllSpace(s[|r|..])
  {
    assert s[|r|..] == s[..|s| - 1][|r|..] + [s[|s| - 1]];
  }

  /** Python's `s.strip()`. */
  function Strip(s: string): string
  {
    RStrip(LStrip(s))
  }

  /**
   * What `strip()` returns: a slice of its argument that neither starts nor ends with
   * whitespace, and everything cut off on either side is whitespace.
   */
  lemma StripIsTrimmedSlice(s: string)
    ensures var r := Strip(s);
      exists i :: 0 <= i <= |s| - |r| && r == s[i..i + |r|]
        && AllSpace(s[..i]) && AllSpace(s[i + |r|..])
        && (r == [] || (!IsSpace(r[0]) && !IsSpace(r[|r| - 1])))
  {
    LStripIsSuffix(s);
    RStripIsPrefix(LStrip(s));
    TrimmedSlice(s, LStrip(s), Strip(s));
  }

  /** A trimmed prefix `r` of a trimmed suffix `l` of `s` is a trimmed slice of `s`. */
  lemma TrimmedSlice(s: string, l: string, r: string)
    requires |l| <= |s| && l == s[|s| - |l|..] && AllSpace(s[..|s| - |l|]) && (l == [] || !IsSpace(l[0]))
    requires |r| <= |l| && r == l[..|r|] && AllSpace(l[|r|..]) && (r == [] || !IsSpace(r[|r| - 1]))
    ensures exists i :: 0 <= i <= |s| - |r| && r == s[i..i + |r|]
                        && AllSpace(s[..i]) && AllSpace(s[i + |r|..])
                        && (r == [] || (!IsSpace(r[0]) && !IsSpace(r[|r| - 1])))
  {
    var i := |s| - |l|;
    PrefixOfSuffix(s, l, r);
    assert r != [] ==> r[0] == l[0];
    assert 0 <= i <= |s| - |r| && r == s[i..i + |r|] && AllSpace(s[..i]) && AllSpace(s[i + |r|..]);
  }

  /** A prefix `r` of a suffix `l` of `s` is a slice of `s`, followed by the rest of `l`. */
  lemma PrefixOfSuffix(s: string, l: string, r: string)
    requires |l| <= |s| && l == s[|s| - |l|..] && |r| <= |l| && r == l[..|r|]
    ensures r == s[|s| - |l|..|s| - |l| + |r|] && s[|s| - |l| + |r|..] == l[|r|..]
  {
  }

  /** `lstrip()` removes exactly a whitespace padding in front of text that starts with a non-space. */
  lemma {:induction false} LStripPadded(pre: string, t: string)
    requires AllSpace(pre) && (t == [] || !IsSpace(t[0]))
    ensures LStrip(pre + t) == t
  {
    if pre == [] {
      assert pre + t == t;
    } else {
      assert (pre + t)[0] == pre[0] && (pre + t)[1..] == pre[1..] + t;
      LStripPadded(pre[1..], t);
    }
  }

  /** `rstrip()` removes exactly a whitespace padding after text that ends with a non-space. */
  lemma {:induction false} RStripPadded(t: string, post: string)
    requires AllSpace(post) && (t == [] || !IsSpace(t[|t| - 1]))
    ensures RStrip(t + post) == t
    decreases |post|
  {
    if post == [] {
      assert t + post == t;
    } else {
      var u := t + post;
      assert u[|u| - 1] == post[|post| - 1] && u[..|u| - 1] == t + post[..|post| - 1];
      RStripPadded(t, post[..|post| - 1]);
    }
  }

  /** `strip()` of text padded with whitespace on both sides is the text, when it is trimmed. */
  lemma StripPadded(pre: string, t: string, post: string)
    requires AllSpace(pre) && AllSpace(post) && t != [] && !IsSpace(t[0]) && !IsSpace(t[|t| - 1])
    ensures Strip(pre + t + post) == t
  {
    assert pre + t + post == pre + (t + post);
    assert (t + post)[0] == t[0];
    LStripPadded(pre, t + post);
    RStripPadded(t, post);
  }

  /** A string that does not start with whitespace is what `strip()` and `rstrip()` agree on. */
  lemma StripOfUnindented(s: string)
    requires s != [] && !IsSpace(s[0])
    ensures Strip(s) == RStrip(s)
  {
  }

  /** `p` occurs in `s` at position `i`. */
  predicate At(s: string, i: nat, p: string)
  {
    i + |p| <= |s| && s[i..i + |p|] == p
  }

  /** Two texts that occur one after the other make their concatenation occur. */
  lemma AtJoin(s: string, i: nat, a: string, b: string)
    requires At(s, i, a) && At(s, i + |a|, b)
    ensures At(s, i, a + b)
  {
    assert s[i..i + |a| + |b|] == s[i..i + |a|] + s[i + |a|..i + |a| + |b|];
  }

  /** A concatenation occurs at `i` exactly when its parts occur one after the other. */
  lemma AtConcat(s: string, i: nat, a: string, b: string)
    ensures At(s, i, a + b) <==> At(s, i, a) && At(s, i + |a|, b)
  {
    if At(s, i, a) && At(s, i + |a|, b) {
      assert s[i..i + |a| + |b|] == s[i..i + |a|] + s[i + |a|..i + |a| + |b|];
    }
    if At(s, i, a + b) {
      assert s[i..i + |a|] == s[i..i + |a| + |b|][..|a|];
      assert (a + b)[..|a|] == a;
      assert s[i + |a|..i + |a| + |b|] == s[i..i + |a| + |b|][|a|..];
      assert (a + b)[|a|..] == b;
    }
  }

  /** The length of the longest run of characters of class `inClass` starting at `i`. */
  function Span(s: string, i: nat, inClass: char -> bool): (n: nat)
    requires i <= |s|
    ensures i + n <= |s|
    ensures forall k :: i <= k < i + n ==> inClass(s[k])
    ensures i + n == |s| || !inClass(s[i + n])
    decreases |s| - i
  {
    if i < |s| && inClass(s[i]) then 1 + Span(s, i + 1, inClass) else 0
  }

  /** A run of class characters that is followed by a non-class character is the whole span. */
  lemma SpanExact(s: string, i: nat, inClass: char -> bool, n: nat)
    requires i + n <= |s|
    requires forall k :: i <= k < i + n ==> inClass(s[k])
    requires i + n == |s| || !inClass(s[i + n])
    ensures Span(s, i, inClass) == n
  {
  }

  /** A literal run of class characters, followed by a non-class character, is the whole span. */
  lemma AtSpan(s: string, i: nat, p: string, inClass: char -> bool)
    requires At(s, i, p)
    requires forall k :: 0 <= k < |p| ==> inClass(p[k])
    requires i + |p| == |s| || !inClass(s[i + |p|])
    ensures Span(s, i, inClass) == |p|
  {
    assert forall k :: i <= k < i + |p| ==> s[k] == p[k - i];
    SpanExact(s, i, inClass, |p|);
  }

  /** What is left of `s` after the prefix `p`, when `s` starts with `p`. */
  function StripPrefix(s: string, p: string): (r: Option<string>)
    ensures r.Some? <==> |p| <= |s| && s[..|p|] == p
    ensures r.Some? ==> s == p + r.value
  {
    if |p| <= |s| && s[..|p|] == p then Some(s[|p|..]) else None
  }

  lemma StripPrefixConcat(p: string, x: string)
    ensures StripPrefix(p + x, p) == Some(x)
  {
    assert (p + x)[..|p|] == p;
  }

  /** Python's `s.endswith(p)`. */
  predicate EndsWith(s: string, p: string)
  {
    |p| <= |s| && s[|s| - |p|..] == p
  }

  /** The longest prefix of `s` made of `inClass` characters, and the rest of `s`. */
  function SplitRun(s: string, inClass: char -> bool): (r: (string, string))
    ensures s == r.0 + r.1
    ensures forall k :: 0 <= k < |r.0| ==> inClass(r.0[k])
    ensures r.1 == [] || !inClass(r.1[0])
  {
    if s != [] && inClass(s[0]) then
      var (run, rest) := SplitRun(s[1..], inClass);
      ([s[0]] + run, rest)
    else ([], s)
  }

  /** A run of class characters, followed by text that does not continue it, splits off exactly. */
  lemma {:induction false} SplitRunConcat(p: string, x: string, inClass: char -> bool)
    requires forall k :: 0 <= k < |p| ==> inClass(p[k])
    requires x == [] || !inClass(x[0])
    ensures SplitRun(p + x, inClass) == (p, x)
  {
    if p != [] {
      assert (p + x)[0] == p[0];
      assert (p + x)[1..] == p[1..] + x;
      SplitRunConcat(p[1..], x, inClass);
      assert [p[0]] + p[1..] == p;
    } else {
      assert p + x == x;
    }
  }

  /**
   * The position of the first `c` in `s`, or `|s|` when there is none: Python's `s.find(c)`
   * and `s.index(c)`, with `|s|` standing for the -1 or the `ValueError` of a missing `c`.
   */
  function IndexOf<T(==)>(s: seq<T>, c: T): (i: nat)
    ensures i <= |s|
    ensures i < |s| ==> s[i] == c
    ensures forall k :: 0 <= k < i ==> s[k] != c
  {
    if s == [] then 0 else if s[0] == c then 0 else 1 + IndexOf(s[1..], c)
  }

  /** Python's `sep.join(xs)`. */
  function Join(xs: seq<string>, sep: string): string
  {
    if |xs| == 0 then "" else if |xs| == 1 then xs[0] else xs[0] + sep + Join(xs[1..], sep)
  }

  /** Python's `s.split(c)` for a one-character separator: never empty, parts free of `c`. */
  function Split(s: string, c: char): (parts: seq<string>)
    ensures |parts| >= 1
    ensures forall k :: 0 <= k < |parts| ==> c !in parts[k]
    decreases |s|
  {
    var i := IndexOf(s, c);
    if i == |s| then [s] else [s[..i]] + Split(s[i + 1..], c)
  }

  /** Splitting and joining with the same separator gives the string back. */
  lemma {:induction false} JoinSplit(s: string, c: char)
    ensures Join(Split(s, c), [c]) == s
    decreases |s|
  {
    var i := IndexOf(s, c);
    if i < |s| {
      var rest := Split(s[i + 1..], c);
      JoinSplit(s[i + 1..], c);
      assert Split(s, c) == [s[..i]] + rest;
      JoinCons(s[..i], rest, [c]);
      assert s == s[..i] + [c] + s[i + 1..];
    }
  }

  /** Joining a part in front of at least one more puts the separator between them. */
  lemma JoinCons(x: string, xs: seq<string>, sep: string)
    requires |xs| >= 1
    ensures Join([x] + xs, sep) == x + sep + Join(xs, sep)
  {
    assert ([x] + xs)[1..] == xs;
  }

  /** Joining parts that are free of the separator and splitting again gives the parts back. */
  lemma {:induction false} SplitJoin(xs: seq<string>, c: char)
    requires |xs| >= 1
    requires forall k :: 0 <= k < |xs| ==> c !in xs[k]
    ensures Split(Join(xs, [c]), c) == xs
  {
    if |xs| == 1 {
      IndexOfAbsent(xs[0], c);
    } else {
      var s := Join(xs, [c]);
      var tail := Join(xs[1..], [c]);
      assert s == xs[0] + [c] + tail;
      assert s == xs[0] + ([c] + tail);
      IndexOfAt(xs[0], [c] + tail, c);
      assert s[..|xs[0]|] == xs[0];
      assert s[|xs[0]| + 1..] == tail;
      SplitJoin(xs[1..], c);
      assert Split(s, c) == [xs[0]] + Split(tail, c);
      assert xs == [xs[0]] + xs[1..];
    }
  }

  lemma IndexOfAbsent<T>(s: seq<T>, c: T)
    requires c !in s
    ensures IndexOf(s, c) == |s|
  {
    assert forall k :: 0 <= k < |s| ==> s[k] in s;
  }

  lemma IndexOfAt<T>(a: seq<T>, b: seq<T>, c: T)
    requires c !in a
    requires b != [] && b[0] == c
    ensures IndexOf(a + b, c) == |a| && (a + b)[..|a|] == a && (a + b)[|a|..] == b
  {
    var s := a + b;
    assert s[|a|] == c;
    assert forall k :: 0 <= k < |a| ==> s[k] == a[k] && a[k] in a;
  }

  /** The ASCII upper-case form of `c`. */
  function UpperChar(c: char): char
  {
    if 'a' <= c <= 'z' then (c as int - 32) as char else c
  }

  /** The ASCII upper-case form of `s` (Python's `str.upper()` on the ASCII keys it is applied to). */
  function ToUpper(s: string): (r: string)
    ensures |r| == |s|
    ensures forall k :: 0 <= k < |s| ==> r[k] == UpperChar(s[k])
  {
    seq(|s|, k requires 0 <= k < |s| => UpperChar(s[k]))
  }

  /** Python's `str(n)` for an integer. */
  function IntToString(n: int): (r: string)
    ensures r != []
  {
    if n < 0 then "-" + NatToString(-n) else NatToString(n)
  }

  function NatToString(n: nat): (r: string)
    ensures r != []
    ensures forall k :: 0 <= k < |r| ==> IsDigit(r[k])
  {
    if n < 10 then [(48 + n) as char] else NatToString(n / 10) + [(48 + n % 10) as char]
  }

  /** The value of one ASCII digit. */
  function DigitValue(c: char): nat
  {
    if IsDigit(c) then c as int - 48 else 0
  }

  /** Python's `int(d)` on a string `d` of ASCII digits. */
  function DigitsValue(d: string): nat
  {
    if d == [] then 0 else 10 * DigitsValue(d[..|d| - 1]) + DigitValue(d[|d| - 1])
  }

  /** `int(str(n)) == n`: the decimal digits read back as the number they came from. */
  lemma {:induction false} DigitsValueOfNatToString(n: nat)
    ensures DigitsValue(NatToString(n)) == n
  {
    if n >= 10 {
      var r := NatToString(n);
      DigitsValueOfNatToString(n / 10);
      assert r[..|r| - 1] == NatToString(n / 10);
    }
  }
}
