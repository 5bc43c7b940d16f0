/**
 The string vocabulary shared by the countdown parser, the balance extractor and the
 cycle driver: character classes of JavaScript regular expressions, `trim`, ASCII
 case folding, substring tests and a leftmost search that mirrors how a regular
 expression without the `g` flag scans its subject from left to right.
 */
module Text {
  import opened Wrappers

  /** `\d` of a JavaScript regular expression: the ASCII decimal digits only. */
  predicate IsDigit(c: char) {
    '0' <= c <= '9'
  }

  /**
   `\s` of a JavaScript regular expression, which is also the set `String.prototype.trim`
   removes: the ECMAScript WhiteSpace and LineTerminator code points.
   */
  predicate IsSpace(c: char) {
    c == '\t' || c == '\n' || c == '\U{000B}' || c == '\U{000C}' || c == '\r' || c == ' '
    || c == '\U{00A0}' || c == '\U{1680}' || ('\U{2000}' <= c <= '\U{200A}')
    || c == '\U{2028}' || c == '\U{2029}' || c == '\U{202F}' || c == '\U{205F}'
    || c == '\U{3000}' || c == '\U{FEFF}'
  }

  predicate AllSatisfy(s: string, p: char -> bool) {
    forall i :: 0 <= i < |s| ==> p(s[i])
  }

  /** Length of the longest prefix of `s` whose characters all satisfy `p`: what a greedy `p+` or `p*` consumes. */
  function RunLength(s: string, p: char -> bool): (n: nat)
    ensures n <= |s|
    ensures AllSatisfy(s[..n], p)
    ensures n < |s| ==> !p(s[n])
  {
    if s == [] || !p(s[0]) then 0
    else
      var n := 1 + RunLength(s[1..], p);
      assert s[..n] == [s[0]] + s[1..][..n - 1];
      n
  }

  /** The greedy run is the only prefix of `s` made of `p`-characters that is not followed by one. */
  lemma RunLengthUnique(s: string, p: char -> bool, n: nat)
    requires n <= |s| && AllSatisfy(s[..n], p) && (n < |s| ==> !p(s[n]))
    ensures RunLength(s, p) == n
  {
    var r := RunLength(s, p);
    AllSatisfyPrefix(s, p, n);
    AllSatisfyPrefix(s, p, r);
  }

  lemma AllSatisfyPrefix(s: string, p: char -> bool, n: nat)
    requires n <= |s| && AllSatisfy(s[..n], p)
    ensures forall k :: 0 <= k < n ==> p(s[k])
  {
    forall k | 0 <= k < n ensures p(s[k]) {
      assert s[..n][k] == s[k];
    }
  }

  lemma AllSatisfyTake(s: string, p: char -> bool, n: nat)
    requires n <= |s| && AllSatisfy(s, p)
    ensures AllSatisfy(s[..n], p)
  {
    forall k | 0 <= k < n ensures p(s[..n][k]) {
      assert s[..n][k] == s[k];
    }
  }

  predicate StartsWith(s: string, prefix: string) {
    |prefix| <= |s| && s[..|prefix|] == prefix
  }

  /** Matching a concatenation is matching its first part and then the second right after it. */
  lemma StartsWithConcat(s: string, p: string, q: string)
    ensures StartsWith(s, p + q) <==> StartsWith(s, p) && StartsWith(s[|p|..], q)
  {
    if StartsWith(s, p + q) {
      assert s[..|p|] == (p + q)[..|p|];
      assert s[|p|..][..|q|] == (p + q)[|p|..];
    }
    if StartsWith(s, p) && StartsWith(s[|p|..], q) {
      assert s[..|p + q|] == s[..|p|] + s[|p|..][..|q|];
    }
  }

  lemma Associative(a: string, b: string, c: string)
    ensures (a + b) + c == a + (b + c)
  {
  }

  lemma DropDrop(s: string, j: nat, k: nat)
    ensures j <= |s| && k <= |s| - j ==> s[j..][k..] == s[j + k..]
  {
  }

  /** `s.includes(part)`. */
  predicate Contains(s: string, part: string) {
    exists i {:trigger StartsWith(s[i..], part)} | 0 <= i <= |s| :: StartsWith(s[i..], part)
  }

  /** ASCII lower-casing, as `toLowerCase` acts on the letters that can meet an ASCII pattern. */
  function LowerChar(c: char): char {
    if 'A' <= c <= 'Z' then (c as int + 32) as char else c
  }

  function Lower(s: string): (r: string)
    ensures |r| == |s|
  {
    seq(|s|, i requires 0 <= i < |s| => LowerChar(s[i]))
  }

  lemma LowerSuffix(s: string, i: nat)
    requires i <= |s|
    ensures Lower(s)[i..] == Lower(s[i..])
  {
  }

  lemma LowerPrefix(s: string, n: nat)
    requires n <= |s|
    ensures Lower(s)[..n] == Lower(s[..n])
  {
  }

  /** An exact occurrence is still an occurrence once both sides are lower-cased. */
  lemma ContainsLower(s: string, part: string)
    ensures Contains(s, part) ==> Contains(Lower(s), Lower(part))
  {
    if Contains(s, part) {
      var i :| 0 <= i <= |s| && StartsWith(s[i..], part);
      LowerSuffix(s, i);
      LowerPrefix(s[i..], |part|);
      assert StartsWith(Lower(s)[i..], Lower(part));
    }
  }

  /** `s` begins with `prefix` when both are compared as the `i` flag of a regular expression compares them. */
  predicate StartsWithIgnoreCase(s: string, prefix: string) {
    |prefix| <= |s| && Lower(s[..|prefix|]) == Lower(prefix)
  }

  /** A match found by a leftmost search: where it starts and what it yields. */
  datatype Found<T> = Found(at: nat, value: T)

  /**
   Leftmost search: tries the anchored matcher `f` at every position of `s` from `from`
   on, the end of `s` included, and returns the first position where it succeeds.
   */
  function FirstMatch<T>(s: string, from: nat, f: string -> Option<T>): (r: Option<Found<T>>)
    requires from <= |s|
    decreases |s| - from
    ensures r.Some? ==> from <= r.value.at <= |s| && f(s[r.value.at..]) == Some(r.value.value)
    ensures r.Some? ==> forall j {:trigger f(s[j..])} :: from <= j < r.value.at ==> f(s[j..]).None?
    ensures r.None? <==> forall j {:trigger f(s[j..])} :: from <= j <= |s| ==> f(s[j..]).None?
  {
    match f(s[from..])
    case Some(v) => Some(Found(from, v))
    case None => if from == |s| then None else FirstMatch(s, from + 1, f)
  }

  /** Item `k` is the first of `xs` for which `f` yields something, and it yields `v`. */
  predicate FirstYielding<X, T(==)>(xs: seq<X>, f: X -> Option<T>, k: nat, v: T) {
    k < |xs| && f(xs[k]) == Some(v)
    && forall j :: 0 <= j < k ==> f(xs[j]).None?
  }

  /** What `f` yields for the first item of `xs` for which it yields something: a loop with an early return. */
  function FirstSome<X, T(==)>(xs: seq<X>, f: X -> Option<T>): (r: Option<T>)
    ensures r.None? <==> forall k :: 0 <= k < |xs| ==> f(xs[k]).None?
    ensures r.Some? ==> exists k :: FirstYielding(xs, f, k, r.value)
  {
    if xs == [] then None
    else if f(xs[0]).Some? then
      assert FirstYielding(xs, f, 0, f(xs[0]).value);
      f(xs[0])
    else
      var r := FirstSome(xs[1..], f);
      if r.Some? then
        var k: nat :| FirstYielding(xs[1..], f, k, r.value);
        assert xs[k + 1] == xs[1..][k];
        forall j | 0 <= j < k + 1 ensures f(xs[j]).None? {
          if j > 0 { assert xs[j] == xs[1..][j - 1]; }
        }
        assert FirstYielding(xs, f, k + 1, r.value);
        r
      else
        assert forall j :: 0 < j < |xs| ==> xs[j] == xs[1..][j - 1];
        r
  }

  /** The first position at which `s` contains `part`, letters compared without regard to case. */
  function IndexOfIgnoreCase(s: string, part: string): (r: Option<nat>)
    ensures r.Some? ==> r.value + |part| <= |s| && StartsWithIgnoreCase(s[r.value..], part)
    ensures r.Some? ==> forall j {:trigger StartsWithIgnoreCase(s[j..], part)} :: 0 <= j < r.value ==> !StartsWithIgnoreCase(s[j..], part)
    ensures r.None? <==> forall j {:trigger StartsWithIgnoreCase(s[j..], part)} :: 0 <= j <= |s| ==> !StartsWithIgnoreCase(s[j..], part)
  {
    var f := (x: string) => if StartsWithIgnoreCase(x, part) then Some(()) else None;
    assert forall j {:trigger StartsWithIgnoreCase(s[j..], part)} :: 0 <= j <= |s| ==> (f(s[j..]).None? <==> !StartsWithIgnoreCase(s[j..], part));
    match FirstMatch(s, 0, f)
    case Some(m) => Some(m.at)
    case None => None
  }

  /** Length of the longest suffix of `s` whose characters all satisfy `p`. */
  function TrailingRun(s: string, p: char -> bool): (n: nat)
    ensures n <= |s|
    ensures forall k :: |s| - n <= k < |s| ==> p(s[k])
    ensures n < |s| ==> !p(s[|s| - 1 - n])
  {
    if s == [] || !p(s[|s| - 1]) then 0
    else 1 + TrailingRun(s[..|s| - 1], p)
  }

  /** The greedy trailing run is the only suffix made of `p`-characters that is not preceded by one. */
  lemma {:induction false} TrailingRunUnique(s: string, p: char -> bool, n: nat)
    requires n <= |s| && (forall k :: |s| - n <= k < |s| ==> p(s[k])) && (n < |s| ==> !p(s[|s| - 1 - n]))
    ensures TrailingRun(s, p) == n
  {
    if n > 0 {
      var init := s[..|s| - 1];
      assert n - 1 < |init| ==> init[|init| - 1 - (n - 1)] == s[|s| - 1 - n];
      TrailingRunUnique(init, p, n - 1);
    }
  }

  /** `r` is `s` with the white space in `s[..i]` and after `r` removed. */
  predicate IsTrimmingOf(r: string, s: string, i: nat) {
    i + |r| <= |s| && r == s[i..i + |r|]
    && AllSatisfy(s[..i], IsSpace) && AllSatisfy(s[i + |r|..], IsSpace)
  }

  /** `String.prototype.trim`. */
  function Trim(s: string): (r: string)
    ensures |r| <= |s|
    ensures exists i :: IsTrimmingOf(r, s, i)
    ensures r != [] ==> !IsSpace(r[0]) && !IsSpace(r[|r| - 1])
  {
    var i := RunLength(s, IsSpace);
    var t := s[i..];
    var n := TrailingRun(t, IsSpace);
    var r := t[..|t| - n];
    var tail := s[i + |r|..];
    forall j | 0 <= j < |tail| ensures IsSpace(tail[j]) {
      assert tail[j] == t[|r| + j];
    }
    assert r == s[i..i + |r|];
    assert IsTrimmingOf(r, s, i);
    assert r != [] ==> r[0] == s[i] && r[|r| - 1] == t[|t| - 1 - n];
    r
  }

  /** Trimming removes exactly the white space around a text that neither begins nor ends with white space. */
  lemma {:induction false} TrimUnique(s: string, r: string, i: nat)
    requires IsTrimmingOf(r, s, i)
    requires r != [] && !IsSpace(r[0]) && !IsSpace(r[|r| - 1])
    ensures Trim(s) == r
  {
    assert s[i] == r[0];
    RunLengthUnique(s, IsSpace, i);
    var t := s[i..];
    forall k | |r| <= k < |t| ensures IsSpace(t[k]) {
      assert t[k] == s[i + |r|..][k - |r|];
    }
    assert t[|t| - 1 - (|t| - |r|)] == r[|r| - 1];
    TrailingRunUnique(t, IsSpace, |t| - |r|);
    assert t[..|r|] == r;
  }
}
